/** The life of a pod: what one event does to it, as functions of the pod, the event and the seed. */
module PodLife {
  import opened Domain

  datatype Pod = Pod(
    turnsLived: int,
    remaining: int,
    stress: int,
    fear: int,
    infected: bool,
    firewall: bool,
    status: SlaveStatus,
    deathReason: DeathReason)

  function NewPod(turns: int): Pod {
    Pod(0, turns, 0, 0, false, false, Live, NoReason)
  }

  // ---------------------------------------------------------------- int32

  /** The width of the counters: `Exact` is the ideal, `Bits32` wraps around as int32 does. */
  datatype Width = Exact | Bits32

  function Wrap32(x: int): int {
    (x + 0x8000_0000) % 0x1_0000_0000 - 0x8000_0000
  }

  /** The int32 that agrees modulo two to the 32nd. */
  lemma Wrap32Is(x: int)
    ensures -0x8000_0000 <= Wrap32(x) < 0x8000_0000 && (x - Wrap32(x)) % 0x1_0000_0000 == 0
  {
  }

  function Add(w: Width, a: int, b: int): int {
    if w.Exact? then a + b else Wrap32(a + b)
  }

  function Max(a: int, b: int): int {
    if a > b then a else b
  }

  // ---------------------------------------------------------------- random draws

  datatype Draw = DrawIntn(n: nat) | DrawFloat64

  /** A generator: its seed and what has been drawn from it so far. */
  datatype Rng = Rng(seed: int, past: seq<Draw>)

  /** A seed is a fixed stream: the word behind a draw depends on the seed and on the draws up to it. */
  type Source = (int, seq<Draw>) -> nat

  const TWO_TO_THE_53 := 0x20_0000_0000_0000

  function After(g: Rng, d: Draw): Rng {
    g.(past := g.past + [d])
  }

  function Intn(src: Source, g: Rng, n: nat): nat
    requires n > 0
  {
    src(g.seed, g.past + [DrawIntn(n)]) % n
  }

  function Float64(src: Source, g: Rng): real {
    (src(g.seed, g.past + [DrawFloat64]) % TWO_TO_THE_53) as real / TWO_TO_THE_53 as real
  }

  /** `math.Round(x * k / 10)` for the non-negative numbers it is used on: ties go up. */
  function RoundTenths(x: nat, k: nat): nat {
    (x * k + 5) / 10
  }

  lemma RoundTenthsIsNearest(x: nat, k: nat)
    ensures 10 * RoundTenths(x, k) - 5 <= x * k < 10 * RoundTenths(x, k) + 5
  {
  }

  // ---------------------------------------------------------------- one event

  function Tick(w: Width, p: Pod): Pod {
    p.(turnsLived := Add(w, p.turnsLived, 1),
       remaining := if p.remaining > 0 then p.remaining - 1 else p.remaining,
       stress := if p.stress > 0 then p.stress - 1 else p.stress,
       fear := if p.fear > 0 then p.fear - 1 else p.fear)
  }

  function Hit(w: Width, p: Pod, src: Source, g: Rng): (Pod, Rng) {
    var raw := 10 + Intn(src, g, 16);
    var damage := if p.firewall then RoundTenths(raw, 5) else raw;
    var g1 := After(g, DrawIntn(16));
    (p.(stress := Add(w, p.stress, damage), fear := Add(w, p.fear, 8 + Intn(src, g1, 10))),
     After(g1, DrawIntn(10)))
  }

  function Scare(w: Width, p: Pod, src: Source, g: Rng): (Pod, Rng) {
    var raw := 14 + Intn(src, g, 12);
    var shake := if p.firewall then RoundTenths(raw, 7) else raw;
    (p.(fear := Add(w, p.fear, shake)), After(g, DrawIntn(12)))
  }

  function Infect(w: Width, p: Pod, src: Source, g: Rng): (Pod, Rng) {
    var g1 := After(g, DrawIntn(8));
    (p.(infected := true,
        stress := Add(w, p.stress, 6 + Intn(src, g, 8)),
        fear := Add(w, p.fear, 5 + Intn(src, g1, 4))),
     After(g1, DrawIntn(4)))
  }

  function ToggleFirewall(w: Width, p: Pod, src: Source, g: Rng): (Pod, Rng) {
    if !p.firewall then
      (p.(firewall := true, stress := Max(Add(w, p.stress, -4), 0), fear := Max(Add(w, p.fear, -2), 0)), g)
    else
      (p.(firewall := false, stress := Add(w, p.stress, Intn(src, g, 8))), After(g, DrawIntn(8)))
  }

  function Recover(w: Width, p: Pod): Pod {
    p.(stress := Max(Add(w, p.stress, -1), 0), fear := Max(Add(w, p.fear, -2), 0))
  }

  function Affect(w: Width, p: Pod, eventID: int, src: Source, g: Rng): (Pod, Rng) {
    match eventID
    case 1 => Hit(w, p, src, g)
    case 2 => Scare(w, p, src, g)
    case 3 => Infect(w, p, src, g)
    case 4 => ToggleFirewall(w, p, src, g)
    case _ => (Recover(w, p), g)
  }

  predicate SickWithFear(p: Pod) {
    p.status.Live? && p.infected && p.fear > 70
  }

  function Expire(p: Pod): Pod {
    if p.remaining <= 0 then p.(status := Terminating, deathReason := Lifespan) else p
  }

  function Collapse(p: Pod): Pod {
    if p.status.Live? && p.stress >= 85 then p.(status := Terminating, deathReason := UserAction) else p
  }

  function MutateLife(p: Pod, src: Source, g: Rng): (Pod, Rng) {
    var q := Collapse(Expire(p));
    var sick := SickWithFear(q);
    var r := if sick && Float64(src, g) < 0.35 then q.(status := Terminating, deathReason := Disease) else q;
    var g1 := if sick then After(g, DrawFloat64) else g;
    if r.status.Terminating? then
      (if Float64(src, g1) < 0.35 then r.(status := Gone) else r, After(g1, DrawFloat64))
    else
      (r, g1)
  }

  /** An event on a pod; one that is already gone ignores it. */
  function Execute(w: Width, p: Pod, eventID: int, seed: int, src: Source): Pod {
    if p.status.Gone? then p
    else
      var (q, g) := Affect(w, Tick(w, p), eventID, src, Rng(seed, []));
      MutateLife(q, src, g).0
  }

  datatype Event = Event(id: int, seed: int)

  function Run(w: Width, p: Pod, events: seq<Event>, src: Source): Pod {
    if events == [] then p
    else
      var last := |events| - 1;
      Execute(w, Run(w, p, events[..last], src), events[last].id, events[last].seed, src)
  }

  /** How many of the events found the pod not yet gone. */
  function Processed(w: Width, p: Pod, events: seq<Event>, src: Source): nat {
    if events == [] then 0
    else
      var last := |events| - 1;
      Processed(w, p, events[..last], src) + (if Run(w, p, events[..last], src).status.Gone? then 0 else 1)
  }
}
