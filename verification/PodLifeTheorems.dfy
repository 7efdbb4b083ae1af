/** What holds of a pod over any sequence of events and any stream of draws. */
module PodLifeTheorems {
  import opened Domain
  import opened PodLife

  function Rank(s: SlaveStatus): nat {
    match s
    case Terminating => 1
    case Gone => 2
    case _ => 0
  }

  /** The status is one of the three that a pod can have. */
  predicate HasLife(p: Pod) {
    p.status.Live? || p.status.Terminating? || p.status.Gone?
  }

  // ---------------------------------------------------------------- same-seed coupling

  /** `a` is no worse off than `b`, as far as that still matters. */
  predicate NoWorse(a: Pod, b: Pod) {
    && HasLife(a) && HasLife(b)
    && (b.status.Gone? ||
        (&& a.remaining == b.remaining && a.firewall == b.firewall
         && a.stress <= b.stress && a.fear <= b.fear && (a.infected ==> b.infected)
         && Rank(a.status) <= Rank(b.status)))
  }

  lemma AffectCouples(a: Pod, b: Pod, eventID: int, src: Source, g: Rng)
    requires NoWorse(a, b) && !b.status.Gone?
    ensures NoWorse(Affect(Exact, a, eventID, src, g).0, Affect(Exact, b, eventID, src, g).0)
    ensures Affect(Exact, a, eventID, src, g).1 == Affect(Exact, b, eventID, src, g).1
    ensures Affect(Exact, a, eventID, src, g).0.status == a.status
    ensures Affect(Exact, b, eventID, src, g).0.status == b.status
  {
  }

  lemma MutateCouples(a: Pod, b: Pod, src: Source, g: Rng)
    requires NoWorse(a, b) && !b.status.Gone?
    ensures NoWorse(MutateLife(a, src, g).0, MutateLife(b, src, g).0)
  {
    hide Collapse, Expire;
    CollapseCouples(a, b);
  }

  lemma CollapseCouples(a: Pod, b: Pod)
    requires NoWorse(a, b) && !b.status.Gone?
    ensures NoWorse(Collapse(Expire(a)), Collapse(Expire(b))) && !Collapse(Expire(b)).status.Gone?
  {
  }

  lemma ExecuteCouples(a: Pod, b: Pod, eventID: int, seed: int, src: Source)
    requires NoWorse(a, b)
    ensures NoWorse(Execute(Exact, a, eventID, seed, src), Execute(Exact, b, eventID, seed, src))
  {
    if b.status.Gone? {
      ExecuteForward(Exact, a, eventID, seed, src);
    } else {
      var g := Rng(seed, []);
      AffectCouples(Tick(Exact, a), Tick(Exact, b), eventID, src, g);
      var (qa, g1) := Affect(Exact, Tick(Exact, a), eventID, src, g);
      var (qb, _) := Affect(Exact, Tick(Exact, b), eventID, src, g);
      MutateCouples(qa, qb, src, g1);
    }
  }

  /** A pod that starts no worse off than another never overtakes it on the way to Gone. */
  lemma {:induction false} RunCouples(a: Pod, b: Pod, events: seq<Event>, src: Source)
    requires NoWorse(a, b)
    ensures NoWorse(Run(Exact, a, events, src), Run(Exact, b, events, src))
    ensures Rank(Run(Exact, a, events, src).status) <= Rank(Run(Exact, b, events, src).status)
    decreases |events|
  {
    if events != [] {
      var last := |events| - 1;
      RunCouples(a, b, events[..last], src);
      ExecuteCouples(Run(Exact, a, events[..last], src), Run(Exact, b, events[..last], src),
                     events[last].id, events[last].seed, src);
    }
  }

  // ---------------------------------------------------------------- one way, once

  lemma ExecuteForward(w: Width, p: Pod, eventID: int, seed: int, src: Source)
    requires HasLife(p)
    ensures HasLife(Execute(w, p, eventID, seed, src))
    ensures Rank(p.status) <= Rank(Execute(w, p, eventID, seed, src).status)
    ensures p.status.Gone? ==> Execute(w, p, eventID, seed, src) == p
  {
    var (q, g) := Affect(w, Tick(w, p), eventID, src, Rng(seed, []));
    assert q.status == p.status;
  }

  /** The status never moves back, and a pod that is gone never changes again. */
  lemma {:induction false} RunForward(w: Width, p: Pod, events: seq<Event>, src: Source, i: nat)
    requires HasLife(p) && i <= |events|
    ensures HasLife(Run(w, p, events, src)) && HasLife(Run(w, p, events[..i], src))
    ensures Rank(Run(w, p, events[..i], src).status) <= Rank(Run(w, p, events, src).status)
    ensures Run(w, p, events[..i], src).status.Gone? ==> Run(w, p, events, src) == Run(w, p, events[..i], src)
    decreases |events|
  {
    var last := |events| - 1;
    if i == |events| {
      assert events[..i] == events;
      if events != [] {
        RunForward(w, p, events[..last], src, last);
        assert events[..last][..last] == events[..last];
        ExecuteForward(w, Run(w, p, events[..last], src), events[last].id, events[last].seed, src);
      }
    } else {
      RunForward(w, p, events[..last], src, i);
      assert events[..last][..i] == events[..i];
      ExecuteForward(w, Run(w, p, events[..last], src), events[last].id, events[last].seed, src);
    }
  }

  // ---------------------------------------------------------------- what each event does

  /** What is drawn for the effect of an event: hit, scare, infection, a firewall that goes off, anything else. */
  function EffectDraws(eventID: int, firewall: bool): seq<Draw> {
    if eventID == 1 then [DrawIntn(16), DrawIntn(10)]
    else if eventID == 2 then [DrawIntn(12)]
    else if eventID == 3 then [DrawIntn(8), DrawIntn(4)]
    else if eventID == 4 && firewall then [DrawIntn(8)]
    else []
  }

  /** `q` is `p` after the event, by the words that its seed yields; everything is counted after the tick. */
  predicate EventEffect(p: Pod, q: Pod, eventID: int, seed: int, src: Source) {
    var stress := if p.stress > 0 then p.stress - 1 else p.stress;
    var fear := if p.fear > 0 then p.fear - 1 else p.fear;
    && q.turnsLived == p.turnsLived + 1
    && q.remaining == (if p.remaining > 0 then p.remaining - 1 else p.remaining)
    && match eventID
       case 1 =>
         var damage := 10 + src(seed, [DrawIntn(16)]) % 16;
         && q.stress == stress + (if p.firewall then (damage + 1) / 2 else damage)
         && q.fear == fear + 8 + src(seed, [DrawIntn(16), DrawIntn(10)]) % 10
         && q.infected == p.infected && q.firewall == p.firewall
       case 2 =>
         var shake := 14 + src(seed, [DrawIntn(12)]) % 12;
         && q.fear == fear + (if p.firewall then (7 * shake + 5) / 10 else shake)
         && q.stress == stress && q.infected == p.infected && q.firewall == p.firewall
       case 3 =>
         && q.infected
         && q.stress == stress + 6 + src(seed, [DrawIntn(8)]) % 8
         && q.fear == fear + 5 + src(seed, [DrawIntn(8), DrawIntn(4)]) % 4
         && q.firewall == p.firewall
       case 4 =>
         && q.firewall == !p.firewall && q.infected == p.infected
         && (if p.firewall then q.stress == stress + src(seed, [DrawIntn(8)]) % 8 && q.fear == fear
             else q.stress == (if stress > 4 then stress - 4 else 0) && q.fear == (if fear > 2 then fear - 2 else 0))
       case _ =>
         && q.stress == (if stress > 1 then stress - 1 else 0) && q.fear == (if fear > 2 then fear - 2 else 0)
         && q.infected == p.infected && q.firewall == p.firewall
  }

  /** The word is below 0.35 as a float in [0, 1). */
  predicate IsLow(word: nat) {
    20 * (word % 0x20_0000_0000_0000) < 7 * 0x20_0000_0000_0000
  }

  /** The status and the reason of `q`, which is `p` after the event, by what it then has left. */
  predicate Fate(p: Pod, q: Pod, eventID: int, seed: int, src: Source) {
    var drawn := EffectDraws(eventID, p.firewall) + [DrawFloat64];
    var low := IsLow(src(seed, drawn));
    if q.remaining <= 0 then q.deathReason == Lifespan && q.status == if low then Gone else Terminating
    else if p.status == Live && q.stress >= 85 then
      q.deathReason == UserAction && q.status == if low then Gone else Terminating
    else if p.status == Live && q.infected && q.fear > 70 then
      if !low then q.status == Live && q.deathReason == p.deathReason
      else q.deathReason == Disease && q.status == if IsLow(src(seed, drawn + [DrawFloat64])) then Gone else Terminating
    else if p.status == Terminating then q.deathReason == p.deathReason && q.status == if low then Gone else Terminating
    else q.status == p.status && q.deathReason == p.deathReason
  }

  lemma LowFloats(src: Source, g: Rng)
    ensures Float64(src, g) < 0.35 <==> IsLow(src(g.seed, g.past + [DrawFloat64]))
  {
    var k := src(g.seed, g.past + [DrawFloat64]) % TWO_TO_THE_53;
    assert k as real / TWO_TO_THE_53 as real < 0.35 <==> k as real < 0.35 * TWO_TO_THE_53 as real;
  }

  lemma AffectDoes(p: Pod, eventID: int, seed: int, src: Source)
    ensures var (q, g) := Affect(Exact, Tick(Exact, p), eventID, src, Rng(seed, []));
            && EventEffect(p, q, eventID, seed, src)
            && g == Rng(seed, EffectDraws(eventID, p.firewall))
            && q.status == p.status && q.deathReason == p.deathReason
  {
    assert [] + [DrawIntn(16)] == [DrawIntn(16)] && [DrawIntn(16)] + [DrawIntn(10)] == [DrawIntn(16), DrawIntn(10)];
    assert [] + [DrawIntn(12)] == [DrawIntn(12)];
    assert [] + [DrawIntn(8)] == [DrawIntn(8)] && [DrawIntn(8)] + [DrawIntn(4)] == [DrawIntn(8), DrawIntn(4)];
  }

  lemma MutateDoes(p: Pod, q: Pod, eventID: int, seed: int, src: Source)
    requires q.status == p.status && q.deathReason == p.deathReason && !p.status.Gone?
    ensures var r := MutateLife(q, src, Rng(seed, EffectDraws(eventID, p.firewall))).0;
            && r == q.(status := r.status, deathReason := r.deathReason)
            && Fate(p, r, eventID, seed, src)
  {
    hide Float64, IsLow;
    var g := Rng(seed, EffectDraws(eventID, p.firewall));
    LowFloats(src, g);
    LowFloats(src, After(g, DrawFloat64));
  }

  /**
    One event on a pod that is not yet gone: a hit adds 10 to 25 stress and 8 to 17 fear, a scare 14 to
    25 fear, an infection infects, and so on, by what the seed yields; then turns, stress and illness
    decide, in this order, whether it lives on.
   */
  lemma EventDoes(w: Width, p: Pod, eventID: int, seed: int, src: Source)
    requires !p.status.Gone? && (w == Exact || Fits(p))
    ensures var q := Execute(w, p, eventID, seed, src);
            EventEffect(p, q, eventID, seed, src) && Fate(p, q, eventID, seed, src)
  {
    hide EventEffect, Fate, Affect, Tick, MutateLife, EffectDraws;
    if w == Bits32 {
      ExecuteAgrees(p, eventID, seed, src);
    }
    AffectDoes(p, eventID, seed, src);
    var (q, g) := Affect(Exact, Tick(Exact, p), eventID, src, Rng(seed, []));
    MutateDoes(p, q, eventID, seed, src);
    EffectIgnoresFate(p, q, MutateLife(q, src, g).0, eventID, seed, src);
  }

  lemma EffectIgnoresFate(p: Pod, q: Pod, r: Pod, eventID: int, seed: int, src: Source)
    requires EventEffect(p, q, eventID, seed, src) && r == q.(status := r.status, deathReason := r.deathReason)
    ensures EventEffect(p, r, eventID, seed, src)
  {
  }

  /** The same in ranges, `stress` and `fear` being what the event adds to what the tick leaves. */
  lemma EventRanges(p: Pod, q: Pod, eventID: int, seed: int, src: Source)
    requires EventEffect(p, q, eventID, seed, src) && p.stress >= 0 && p.fear >= 0
    ensures var stress := q.stress - (if p.stress > 0 then p.stress - 1 else 0);
            var fear := q.fear - (if p.fear > 0 then p.fear - 1 else 0);
            match eventID
            case 1 => 8 <= fear <= 17 && if p.firewall then 5 <= stress <= 13 else 10 <= stress <= 25
            case 2 => stress == 0 && if p.firewall then 10 <= fear <= 18 else 14 <= fear <= 25
            case 3 => 6 <= stress <= 13 && 5 <= fear <= 8
            case 4 => if p.firewall then 0 <= stress <= 7 && fear == 0 else -4 <= stress <= 0 && -2 <= fear <= 0
            case _ => -1 <= stress <= 0 && -2 <= fear <= 0
  {
  }

  // ---------------------------------------------------------------- turns, reasons and bounds

  function TurnsLeft(turns: int, k: nat): int {
    if turns <= 0 then turns else if k <= turns then turns - k else 0
  }

  /** The largest stress or fear that `k` processed events can leave. */
  function Ceiling(k: nat): nat {
    if k == 0 then 0 else 24 * k + 1
  }

  predicate LifeInv(p: Pod, turns: int, k: nat) {
    && HasLife(p)
    && p.turnsLived == k && p.remaining == TurnsLeft(turns, k)
    && (p.status.Live? <==> p.deathReason.NoReason?)
    && (k >= Max(turns, 1) ==> !p.status.Live?)
    && 0 <= p.stress <= Ceiling(k) && 0 <= p.fear <= Ceiling(k)
    && (p.status.Live? ==> p.stress <= 84)
  }

  lemma AffectBounds(p: Pod, eventID: int, src: Source, g: Rng)
    requires p.stress >= 0 && p.fear >= 0
    ensures var q := Affect(Exact, p, eventID, src, g).0;
            && q == p.(stress := q.stress, fear := q.fear, infected := q.infected, firewall := q.firewall)
            && 0 <= q.stress <= p.stress + 25 && 0 <= q.fear <= p.fear + 25
  {
  }

  lemma MutateFacts(p: Pod, src: Source, g: Rng)
    requires HasLife(p) && !p.status.Gone? && (p.status.Live? <==> p.deathReason.NoReason?)
    ensures var q := MutateLife(p, src, g).0;
            && q == p.(status := q.status, deathReason := q.deathReason)
            && HasLife(q) && (q.status.Live? <==> q.deathReason.NoReason?)
            && (q.status.Live? ==> p.remaining > 0 && p.stress <= 84)
  {
  }

  lemma ExecuteKeepsLife(p: Pod, turns: int, k: nat, eventID: int, seed: int, src: Source)
    requires LifeInv(p, turns, k) && !p.status.Gone?
    ensures LifeInv(Execute(Exact, p, eventID, seed, src), turns, k + 1)
    ensures p.status.Live? ==> Execute(Exact, p, eventID, seed, src).stress <= 108
  {
    var t := Tick(Exact, p);
    AffectBounds(t, eventID, src, Rng(seed, []));
    var (q, g) := Affect(Exact, t, eventID, src, Rng(seed, []));
    MutateFacts(q, src, g);
  }

  /** The life of a pod after `k` processed events, whatever the events and the draws. */
  lemma {:induction false} RunKeepsLife(turns: int, events: seq<Event>, src: Source)
    ensures LifeInv(Run(Exact, NewPod(turns), events, src), turns, Processed(Exact, NewPod(turns), events, src))
    decreases |events|
  {
    if events != [] {
      var last := |events| - 1;
      RunKeepsLife(turns, events[..last], src);
      var p := Run(Exact, NewPod(turns), events[..last], src);
      if !p.status.Gone? {
        ExecuteKeepsLife(p, turns, Processed(Exact, NewPod(turns), events[..last], src),
                         events[last].id, events[last].seed, src);
      }
    }
  }

  /** The event that ends a pod's life leaves its stress at 108 at most. */
  lemma LastStress(turns: int, events: seq<Event>, src: Source)
    requires events != []
    requires Run(Exact, NewPod(turns), events[..|events| - 1], src).status.Live?
    ensures Run(Exact, NewPod(turns), events, src).stress <= 108
  {
    var last := |events| - 1;
    RunKeepsLife(turns, events[..last], src);
    ExecuteKeepsLife(Run(Exact, NewPod(turns), events[..last], src), turns,
                     Processed(Exact, NewPod(turns), events[..last], src),
                     events[last].id, events[last].seed, src);
  }

  // ---------------------------------------------------------------- int32

  const MAX_EVENTS := 89_478_485

  predicate Fits(p: Pod) {
    && 0 <= p.turnsLived < 0x7FFF_FFFF
    && 0 <= p.stress <= 0x7FFF_FFFF - 24 && 0 <= p.fear <= 0x7FFF_FFFF - 24
  }

  lemma Wrap32Fits(x: int)
    requires -0x8000_0000 <= x < 0x8000_0000
    ensures Wrap32(x) == x
  {
  }

  lemma AffectAgrees(p: Pod, eventID: int, src: Source, g: Rng)
    requires 0 <= p.stress <= 0x7FFF_FFFF - 25 && 0 <= p.fear <= 0x7FFF_FFFF - 25
    ensures Affect(Bits32, p, eventID, src, g) == Affect(Exact, p, eventID, src, g)
  {
    forall d | -4 <= d <= 25
      ensures Add(Bits32, p.stress, d) == p.stress + d && Add(Bits32, p.fear, d) == p.fear + d
    {
      Wrap32Fits(p.stress + d);
      Wrap32Fits(p.fear + d);
    }
  }

  lemma ExecuteAgrees(p: Pod, eventID: int, seed: int, src: Source)
    requires Fits(p)
    ensures Execute(Bits32, p, eventID, seed, src) == Execute(Exact, p, eventID, seed, src)
  {
    Wrap32Fits(p.turnsLived + 1);
    var t := Tick(Exact, p);
    assert Tick(Bits32, p) == t;
    if t.stress <= 0x7FFF_FFFF - 25 && t.fear <= 0x7FFF_FFFF - 25 {
      AffectAgrees(t, eventID, src, Rng(seed, []));
    }
  }

  /** For up to 89478485 processed events the int32 counters never overflow. */
  lemma {:induction false} RunAgrees(turns: int, events: seq<Event>, src: Source)
    requires Processed(Exact, NewPod(turns), events, src) <= MAX_EVENTS
    ensures Run(Bits32, NewPod(turns), events, src) == Run(Exact, NewPod(turns), events, src)
    decreases |events|
  {
    if events != [] {
      var last := |events| - 1;
      RunAgrees(turns, events[..last], src);
      RunKeepsLife(turns, events[..last], src);
      var p := Run(Exact, NewPod(turns), events[..last], src);
      if !p.status.Gone? {
        ExecuteAgrees(p, events[last].id, events[last].seed, src);
      }
    }
  }

  lemma {:induction false} RunAppend(w: Width, p: Pod, a: seq<Event>, b: seq<Event>, src: Source)
    ensures Run(w, p, a + b, src) == Run(w, Run(w, p, a, src), b, src)
    decreases |b|
  {
    hide Execute;
    if b == [] {
      assert a + b == a;
    } else {
      var last := |b| - 1;
      assert (a + b)[..|a| + last] == a + b[..last];
      RunAppend(w, p, a, b[..last], src);
    }
  }

  lemma {:induction false} ProcessedGrows(w: Width, p: Pod, a: seq<Event>, b: seq<Event>, src: Source)
    ensures Processed(w, p, a, src) <= Processed(w, p, a + b, src)
    decreases |b|
  {
    hide Execute;
    if b == [] {
      assert a + b == a;
    } else {
      assert (a + b)[..|a| + |b| - 1] == a + b[..|b| - 1];
      ProcessedGrows(w, p, a, b[..|b| - 1], src);
    }
  }

  /**
    The same of two pods as the service runs them, with int32 counters: each has its own turns and its
    own past, and neither processes more than 89478485 events in all.
   */
  lemma RunCouples32(turnsA: int, pastA: seq<Event>, turnsB: int, pastB: seq<Event>, events: seq<Event>, src: Source)
    requires Processed(Exact, NewPod(turnsA), pastA + events, src) <= MAX_EVENTS
    requires Processed(Exact, NewPod(turnsB), pastB + events, src) <= MAX_EVENTS
    requires NoWorse(Run(Bits32, NewPod(turnsA), pastA, src), Run(Bits32, NewPod(turnsB), pastB, src))
    ensures NoWorse(Run(Bits32, NewPod(turnsA), pastA + events, src), Run(Bits32, NewPod(turnsB), pastB + events, src))
    ensures Rank(Run(Bits32, NewPod(turnsA), pastA + events, src).status)
            <= Rank(Run(Bits32, NewPod(turnsB), pastB + events, src).status)
  {
    Agree(turnsA, pastA, events, src);
    Agree(turnsB, pastB, events, src);
    RunCouples(Run(Exact, NewPod(turnsA), pastA, src), Run(Exact, NewPod(turnsB), pastB, src), events, src);
  }

  lemma Agree(turns: int, past: seq<Event>, events: seq<Event>, src: Source)
    requires Processed(Exact, NewPod(turns), past + events, src) <= MAX_EVENTS
    ensures Run(Bits32, NewPod(turns), past, src) == Run(Exact, NewPod(turns), past, src)
    ensures Run(Bits32, NewPod(turns), past + events, src) ==
              Run(Exact, Run(Exact, NewPod(turns), past, src), events, src)
  {
    ProcessedGrows(Exact, NewPod(turns), past, events, src);
    RunAgrees(turns, past, src);
    RunAgrees(turns, past + events, src);
    RunAppend(Exact, NewPod(turns), past, events, src);
  }
}
