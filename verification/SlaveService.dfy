/** The slave process: its pod's state updated in place, and its once-only shutdown. */
module SlaveService {
  import opened Domain
  import PodLife
  import PodLifeTheorems

  type Source = PodLife.Source

  /** `rand.New(rand.NewSource(seed))`. */
  class Rng {
    const seed: int
    const src: Source
    var past: seq<PodLife.Draw>

    ghost function State(): PodLife.Rng
      reads this
    {
      PodLife.Rng(seed, past)
    }

    constructor (seed: int, src: Source)
      ensures State() == PodLife.Rng(seed, []) && this.src == src
    {
      this.seed, this.src, past := seed, src, [];
    }

    method Intn(n: nat) returns (r: nat)
      requires n > 0
      modifies this
      ensures r == PodLife.Intn(src, old(State()), n) && r < n
      ensures State() == PodLife.After(old(State()), PodLife.DrawIntn(n))
    {
      past := past + [PodLife.DrawIntn(n)];
      r := src(seed, past) % n;
    }

    method Float64() returns (r: real)
      modifies this
      ensures r == PodLife.Float64(src, old(State())) && 0.0 <= r < 1.0
      ensures State() == PodLife.After(old(State()), PodLife.DrawFloat64)
    {
      past := past + [PodLife.DrawFloat64];
      var k := src(seed, past) % PodLife.TWO_TO_THE_53;
      r := k as real / PodLife.TWO_TO_THE_53 as real;
    }
  }

  function Int32(x: int): int {
    PodLife.Wrap32(x)
  }

  class PodState {
    var podID: string
    var podName: string
    var podIP: string
    var slaveID: string
    var turnsLived: int
    var remaining: int
    var status: SlaveStatus
    var deathReason: DeathReason
    var stress: int
    var fear: int
    var infected: bool
    var firewall: bool

    ghost function Life(): PodLife.Pod
      reads this
    {
      PodLife.Pod(turnsLived, remaining, stress, fear, infected, firewall, status, deathReason)
    }

    /** The fields that no event changes. */
    ghost function Identity(): (string, string, string, string)
      reads this
    {
      (podID, podName, podIP, slaveID)
    }

    constructor (podID: string, podName: string, podIP: string, turns: int)
      ensures Life() == PodLife.NewPod(turns) && Identity() == (podID, podName, podIP, "")
    {
      this.podID, this.podName, this.podIP, slaveID := podID, podName, podIP, "";
      turnsLived, remaining, stress, fear := 0, turns, 0, 0;
      infected, firewall, status, deathReason := false, false, Live, NoReason;
    }

    /** The pod as its replies show it; the session id is filled in by the controller. */
    function ToState(): SlaveState
      reads this
    {
      SlaveState("", slaveID, podName, podIP, status, deathReason)
    }

    predicate MatchesTarget(target: string)
      reads this
    {
      target == podID || target == slaveID || target == podName || target == podIP
    }

    method Tick()
      modifies this
      ensures Life() == PodLife.Tick(PodLife.Bits32, old(Life())) && Identity() == old(Identity())
    {
      turnsLived := Int32(turnsLived + 1);
      if remaining > 0 {
        remaining := remaining - 1;
      }
      if stress > 0 {
        stress := stress - 1;
      }
      if fear > 0 {
        fear := fear - 1;
      }
    }

    method ApplyHit(rng: Rng)
      modifies this, rng
      ensures (Life(), rng.State()) == PodLife.Hit(PodLife.Bits32, old(Life()), rng.src, old(rng.State()))
      ensures Identity() == old(Identity())
    {
      var draw := rng.Intn(16);
      var damage := 10 + draw;
      if firewall {
        damage := PodLife.RoundTenths(damage, 5);
      }
      stress := Int32(stress + damage);
      draw := rng.Intn(10);
      fear := Int32(fear + (8 + draw));
    }

    method ApplyScare(rng: Rng)
      modifies this, rng
      ensures (Life(), rng.State()) == PodLife.Scare(PodLife.Bits32, old(Life()), rng.src, old(rng.State()))
      ensures Identity() == old(Identity())
    {
      var draw := rng.Intn(12);
      var shake := 14 + draw;
      if firewall {
        shake := PodLife.RoundTenths(shake, 7);
      }
      fear := Int32(fear + shake);
    }

    method ApplyInfection(rng: Rng)
      modifies this, rng
      ensures (Life(), rng.State()) == PodLife.Infect(PodLife.Bits32, old(Life()), rng.src, old(rng.State()))
      ensures Identity() == old(Identity())
    {
      infected := true;
      var draw := rng.Intn(8);
      stress := Int32(stress + (6 + draw));
      draw := rng.Intn(4);
      fear := Int32(fear + (5 + draw));
    }

    method ApplyFirewall(rng: Rng)
      modifies this, rng
      ensures (Life(), rng.State()) == PodLife.ToggleFirewall(PodLife.Bits32, old(Life()), rng.src, old(rng.State()))
      ensures Identity() == old(Identity())
    {
      firewall := !firewall;
      if firewall {
        stress := PodLife.Max(Int32(stress - 4), 0);
        fear := PodLife.Max(Int32(fear - 2), 0);
      } else {
        var draw := rng.Intn(8);
        stress := Int32(stress + draw);
      }
    }

    method Recover()
      modifies this
      ensures Life() == PodLife.Recover(PodLife.Bits32, old(Life())) && Identity() == old(Identity())
    {
      stress := PodLife.Max(Int32(stress - 1), 0);
      fear := PodLife.Max(Int32(fear - 2), 0);
    }

    method MutateLife(rng: Rng)
      modifies this, rng
      ensures (Life(), rng.State()) == PodLife.MutateLife(old(Life()), rng.src, old(rng.State()))
      ensures Identity() == old(Identity())
    {
      if remaining <= 0 {
        status := Terminating;
        deathReason := Lifespan;
      }
      if status.Live? && stress >= 85 {
        status := Terminating;
        deathReason := UserAction;
      }
      if status.Live? && infected && fear > 70 {
        var f := rng.Float64();
        if f < 0.35 {
          status := Terminating;
          deathReason := Disease;
        }
      }
      if status.Terminating? {
        var f := rng.Float64();
        if f < 0.35 {
          status := Gone;
        }
      }
    }
  }

  datatype ExecuteError = NotConfigured | TargetNotFound

  /** What `ExecuteEvent` returns. */
  datatype Response = Response(accepted: bool, alreadyGone: bool, state: SlaveState)

  class Service {
    const initialRemainingTurns: int
    var pod: PodState
    const onShutdown: bool           // whether a shutdown callback is set
    var shutdownDone: bool           // whether shutdownOnce has run
    var callbacks: seq<DeathReason>  // the reasons the callback has been started with

    constructor (turns: int, onShutdown: bool)
      ensures pod.Identity() == ("", "", "", "") && fresh(pod)
      ensures !shutdownDone && callbacks == [] && this.onShutdown == onShutdown
      ensures initialRemainingTurns == turns
    {
      initialRemainingTurns := turns;
      pod := new PodState("", "", "", turns);
      this.onShutdown := onShutdown;
      shutdownDone, callbacks := false, [];
    }

    method SetupPod(podID: string, podName: string, podIP: string)
      modifies this`pod
      ensures fresh(pod) && pod.Life() == PodLife.NewPod(initialRemainingTurns)
      ensures pod.status == Live && pod.deathReason == NoReason && pod.remaining == initialRemainingTurns
      ensures pod.turnsLived == pod.stress == pod.fear == 0 && !pod.infected && !pod.firewall
      ensures pod.Identity() == (podID, podName, podIP, "")
    {
      pod := new PodState(podID, podName, podIP, initialRemainingTurns);
    }

    /** The slave learns its id; until then it answers every event with an empty one. */
    method SetRegistration(slaveID: string)
      modifies pod
      ensures pod.Identity() == (old(pod.podID), old(pod.podName), old(pod.podIP), slaveID)
      ensures pod.Life() == old(pod.Life())
    {
      pod.slaveID := slaveID;
    }

    method ExecuteEvent(eventID: int, seed: int, target: string, src: Source)
      returns (r: Result<Response, ExecuteError>)
      modifies pod
      ensures r == Err(NotConfigured) <==> old(pod.podID) == ""
      ensures r == Err(TargetNotFound) <==>
              && old(pod.podID) != "" && target != "" && target != old(pod.podID) && target != old(pod.slaveID)
              && target != old(pod.podName) && target != old(pod.podIP)
      ensures r.Err? ==> pod.Life() == old(pod.Life())
      ensures r.Ok? ==>
                && pod.Life() == PodLife.Execute(PodLife.Bits32, old(pod.Life()), eventID, seed, src)
                && r.value.state ==
                   SlaveState("", pod.slaveID, pod.podName, pod.podIP, pod.status, pod.deathReason)
                && r.value.alreadyGone == old(pod.status).Gone?
                && r.value.accepted == (!r.value.alreadyGone && (pod.status.Live? || pod.status.Terminating?))
      ensures r.Ok? && old(pod.status).Gone? ==> pod.Life() == old(pod.Life())
      ensures r.Ok? && !old(pod.status).Gone? && PodLifeTheorems.Fits(old(pod.Life())) ==>
                && PodLifeTheorems.EventEffect(old(pod.Life()), pod.Life(), eventID, seed, src)
                && PodLifeTheorems.Fate(old(pod.Life()), pod.Life(), eventID, seed, src)
      ensures pod.Identity() == old(pod.Identity())
    {
      hide PodLifeTheorems.EventEffect, PodLifeTheorems.Fate;
      if !pod.status.Gone? && PodLifeTheorems.Fits(pod.Life()) {
        PodLifeTheorems.EventDoes(PodLife.Bits32, pod.Life(), eventID, seed, src);
      }
      if pod.podID == "" {
        return Err(NotConfigured);
      }
      if target != "" && !pod.MatchesTarget(target) {
        return Err(TargetNotFound);
      }
      if pod.status.Gone? {
        return Ok(Response(false, true, pod.ToState()));
      }
      var rng := new Rng(seed, src);
      pod.Tick();
      match eventID {
        case 1 => pod.ApplyHit(rng);
        case 2 => pod.ApplyScare(rng);
        case 3 => pod.ApplyInfection(rng);
        case 4 => pod.ApplyFirewall(rng);
        case _ => pod.Recover();
      }
      pod.MutateLife(rng);
      return Ok(Response(pod.status.Live? || pod.status.Terminating?, false, pod.ToState()));
    }

    /** `shutdownOnce` lets the callback start once; without a callback it is never spent. */
    method Shutdown(reason: DeathReason)
      modifies this`shutdownDone, this`callbacks
      ensures shutdownDone == (old(shutdownDone) || onShutdown)
      ensures callbacks == if onShutdown && !old(shutdownDone) then old(callbacks) + [reason] else old(callbacks)
    {
      if onShutdown {
        if !shutdownDone {
          shutdownDone := true;
          callbacks := callbacks + [reason];
        }
      }
    }
  }
}
