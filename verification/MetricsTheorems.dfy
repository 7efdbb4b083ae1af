/** What every run of the metrics machine guarantees. */
module MetricsTheorems {
  import opened Domain
  import opened MetricsMachine

  lemma Reached(sessionID: string, steps: seq<Step>)
    ensures Inv(Run(Init(sessionID), steps))
  {
    RunKeepsInv(Init(sessionID), steps);
  }

  /**
    The stored metrics are the replay of the write history, in which every successful call appears
    exactly once, within its own span, with its own change and with the result it returned; calls
    that failed or are still running appear nowhere, and every update that is there is a call's.
   */
  lemma Linearizable(sessionID: string, steps: seq<Step>, c: CallID)
    requires c in Run(Init(sessionID), steps).calls
    ensures var w := Run(Init(sessionID), steps);
            && w.sessionID == sessionID && w.value == Replay(sessionID, w.log)
            && UpdatesAreCalls(w) && WritesOnce(w, c)
  {
    hide Run, Inv, UpdatesAreCalls, WritesOnce;
    Reached(sessionID, steps);
    RunSession(Init(sessionID), steps);
    LogIsExact(Run(Init(sessionID), steps), c);
  }

  /** Every update in the log is that of a call that succeeded with it. */
  ghost predicate UpdatesAreCalls(w: World) {
    forall i :: 0 <= i < |w.log| && w.log[i].Updated? ==>
      w.log[i].c in w.calls && w.calls[w.log[i].c].phase.Succeeded? && w.calls[w.log[i].c].phase.at == i
  }

  /**
    A call stands in the log if and only if it succeeded, then once, after its start, with its own
    change and with the result it returned.
   */
  ghost predicate WritesOnce(w: World, c: CallID)
    requires c in w.calls
  {
    var call := w.calls[c];
    && (call.phase.Succeeded? <==> exists i :: 0 <= i < |w.log| && IsWriteOf(w.log[i], c))
    && (call.phase.Succeeded? ==>
          var at := call.phase.at;
          && call.start <= at < |w.log| && IsWriteOf(w.log[at], c) && w.log[at].fn == call.fn
          && (forall i :: 0 <= i < |w.log| && IsWriteOf(w.log[i], c) ==> i == at)
          && Replay(w.sessionID, w.log[..at]).Some?
          && Replay(w.sessionID, w.log[..at + 1]) == Some(call.phase.updated)
          && var changed := call.fn(Replay(w.sessionID, w.log[..at]).value);
             call.phase.updated == SessionMetrics(if changed.sessionID == "" then w.sessionID else changed.sessionID,
                                                  changed.liveSlaves, changed.goneSlaves, w.log[at].now))
  }

  lemma LogIsExact(w: World, c: CallID)
    requires Inv(w) && c in w.calls
    ensures w.value == Replay(w.sessionID, w.log) && UpdatesAreCalls(w) && WritesOnce(w, c)
  {
    forall i | 0 <= i < |w.log| && w.log[i].Updated?
      ensures w.log[i].c in w.calls && w.calls[w.log[i].c].phase.Succeeded? && w.calls[w.log[i].c].phase.at == i
    {
      assert IsWriteOf(w.log[i], w.log[i].c);
    }
    assert CallOK(w, c);
    if w.calls[c].phase.Succeeded? {
      var at := w.calls[c].phase.at;
      assert w.log[..at + 1][..at] == w.log[..at];
    }
  }

  // ---------------------------------------------------------------- counting

  /** The change of a registration. */
  ghost predicate AddsOne(fn: Change) {
    forall m :: fn(m).liveSlaves == m.liveSlaves + 1
  }

  ghost predicate OnlyAddsOne(steps: seq<Step>) {
    forall i :: 0 <= i < |steps| && steps[i].Begin? ==> AddsOne(steps[i].fn)
  }

  function SucceededIn(w: World): set<CallID> {
    set c <- w.calls | w.calls[c].phase.Succeeded?
  }

  /** The stored count is the first one plus the number of calls that have succeeded. */
  ghost predicate Counts(w: World, first: int) {
    && Inv(w) && (forall c <- w.calls :: AddsOne(w.calls[c].fn))
    && w.value.Some? && w.value.value.liveSlaves == first + |SucceededIn(w)|
  }

  predicate Commits(w: World, st: Step) {
    st.Exec? && st.c in w.calls && w.calls[st.c].phase.Changed? && w.calls[st.c].phase.version == w.version
  }

  lemma StepCounts(w: World, st: Step, first: int)
    requires Counts(w, first) && !st.Create? && !st.Delete? && (st.Begin? ==> AddsOne(st.fn))
    ensures Counts(Apply(w, st), first)
  {
    hide Inv, AddsOne, Apply, SucceededIn;
    StepKeepsInv(w, st);
    StepKeepsChanges(w, st);
    if Commits(w, st) {
      CommitCounts(w, st.c);
    } else {
      QuietStep(w, st);
    }
  }

  lemma StepKeepsChanges(w: World, st: Step)
    requires (forall c <- w.calls :: AddsOne(w.calls[c].fn)) && (st.Begin? ==> AddsOne(st.fn))
    ensures forall c <- Apply(w, st).calls :: AddsOne(Apply(w, st).calls[c].fn)
  {
    hide AddsOne;
  }

  /** Any step but a creation, a deletion and an EXEC that succeeds changes neither the key nor who has succeeded. */
  lemma QuietStep(w: World, st: Step)
    requires !st.Create? && !st.Delete? && !Commits(w, st)
    ensures Apply(w, st).value == w.value && SucceededIn(Apply(w, st)) == SucceededIn(w)
  {
  }

  lemma CommitCounts(w: World, c: CallID)
    requires Inv(w) && Commits(w, Exec(c)) && AddsOne(w.calls[c].fn)
    ensures var w' := Apply(w, Exec(c));
            && w.value.Some? && w'.value.Some? && w'.value.value.liveSlaves == w.value.value.liveSlaves + 1
            && |SucceededIn(w')| == |SucceededIn(w)| + 1
  {
    hide Inv, AddsOne;
    CommitAddsOne(w, c);
    assert SucceededIn(Apply(w, Exec(c))) == SucceededIn(w) + {c};
  }

  lemma CommitAddsOne(w: World, c: CallID)
    requires Inv(w) && c in w.calls && w.calls[c].phase.Changed? && w.calls[c].phase.version == w.version
    requires AddsOne(w.calls[c].fn)
    ensures w.value.Some? && w.calls[c].phase.next.liveSlaves == w.value.value.liveSlaves + 1
  {
    assert CallOK(w, c);
  }

  lemma {:induction false} RunCounts(w: World, steps: seq<Step>, first: int)
    requires Counts(w, first) && UpdatesOnly(steps) && OnlyAddsOne(steps)
    ensures Counts(Run(w, steps), first)
    decreases |steps|
  {
    if steps != [] {
      hide Counts, AddsOne, Apply;
      StepCounts(w, steps[0], first);
      RunCounts(Apply(w, steps[0]), steps[1..], first);
    }
  }

  /** However registrations interleave, none that succeeded is lost and none that failed is counted. */
  lemma NoUpdateLost(sessionID: string, metrics: SessionMetrics, steps: seq<Step>)
    requires UpdatesOnly(steps) && OnlyAddsOne(steps)
    ensures var w := Run(Seeded(sessionID, metrics), steps);
            w.value.Some? && w.value.value.liveSlaves == metrics.liveSlaves + |SucceededIn(w)|
  {
    hide Inv, Run;
    SeededInv(sessionID, metrics);
    assert SucceededIn(Seeded(sessionID, metrics)) == {};
    RunCounts(Seeded(sessionID, metrics), steps, metrics.liveSlaves);
  }

  lemma {:induction false} RunSession(w: World, steps: seq<Step>)
    ensures Run(w, steps).sessionID == w.sessionID
    decreases |steps|
  {
    if steps != [] {
      RunSession(Apply(w, steps[0]), steps[1..]);
    }
  }

  /** A call that gave up saw at least eight writes by others between its start and its end. */
  lemma ExhaustedSawEightWrites(sessionID: string, steps: seq<Step>, c: CallID)
    requires c in Run(Init(sessionID), steps).calls
    requires Run(Init(sessionID), steps).calls[c].phase.Exhausted?
    ensures var w := Run(Init(sessionID), steps);
            var call := w.calls[c];
            && call.start + 8 <= call.phase.at <= |w.log|
            && forall i :: call.start <= i < call.phase.at ==> !IsWriteOf(w.log[i], c)
  {
    Reached(sessionID, steps);
    assert CallOK(Run(Init(sessionID), steps), c);
  }

  // ---------------------------------------------------------------- deletion

  predicate NoCreate(steps: seq<Step>) {
    forall i :: 0 <= i < |steps| ==> !steps[i].Create?
  }

  /** While the key is absent, nothing but a creation brings it back: not even a pending EXEC. */
  lemma StepKeepsAbsent(w: World, st: Step)
    requires Inv(w) && w.value.None? && !st.Create?
    ensures Apply(w, st).value.None?
  {
    if st.Exec? && st.c in w.calls && w.calls[st.c].phase.Changed? {
      assert CallOK(w, st.c);
      assert w.log[..|w.log|] == w.log;
    }
  }

  lemma {:induction false} RunKeepsAbsent(w: World, steps: seq<Step>)
    requires Inv(w) && w.value.None? && NoCreate(steps)
    ensures Run(w, steps).value.None?
    decreases |steps|
  {
    if steps != [] {
      StepKeepsAbsent(w, steps[0]);
      StepKeepsInv(w, steps[0]);
      RunKeepsAbsent(Apply(w, steps[0]), steps[1..]);
    }
  }

  /** After a deletion no in-flight and no later update recreates the key until it is created again. */
  lemma NoResurrection(sessionID: string, before: seq<Step>, after: seq<Step>)
    requires NoCreate(after)
    ensures Run(Init(sessionID), before + [Delete] + after).value.None?
  {
    RunAppend(Init(sessionID), before + [Delete], after);
    RunAppend(Init(sessionID), before, [Delete]);
    Reached(sessionID, before + [Delete]);
    assert Run(Run(Init(sessionID), before), [Delete]) == Apply(Run(Init(sessionID), before), Delete);
    RunKeepsAbsent(Run(Init(sessionID), before + [Delete]), after);
  }

  // ---------------------------------------------------------------- the retry bound

  ghost function CallersOf(window: seq<Entry>): set<CallID> {
    set e <- window | e.Updated? :: e.c
  }

  lemma {:induction false} DistinctCallers(window: seq<Entry>)
    requires forall i :: 0 <= i < |window| ==> window[i].Updated?
    requires forall i, j :: 0 <= i < j < |window| ==> window[i].c != window[j].c
    ensures |CallersOf(window)| == |window|
    decreases |window|
  {
    if window != [] {
      var last := |window| - 1;
      DistinctCallers(window[..last]);
      assert window == window[..last] + [window[last]];
      assert CallersOf(window) == CallersOf(window[..last]) + {window[last].c};
      assert window[last].c !in CallersOf(window[..last]);
    }
  }

  predicate UpdatesOnly(steps: seq<Step>) {
    forall i :: 0 <= i < |steps| ==> !steps[i].Create? && !steps[i].Delete?
  }

  lemma {:induction false} UpdatesLogOnlyUpdates(w: World, steps: seq<Step>)
    requires UpdatesOnly(steps)
    ensures |w.log| <= |Run(w, steps).log| && Run(w, steps).log[..|w.log|] == w.log
    ensures forall i :: |w.log| <= i < |Run(w, steps).log| ==> Run(w, steps).log[i].Updated?
    decreases |steps|
  {
    if steps != [] {
      var w' := Apply(w, steps[0]);
      UpdatesLogOnlyUpdates(w', steps[1..]);
      var end := Run(w, steps);
      assert w'.log[..|w.log|] == w.log;
      assert end.log[..|w.log|] == end.log[..|w'.log|][..|w.log|];
      forall i | |w.log| <= i < |end.log|
        ensures end.log[i].Updated?
      {
        if i < |w'.log| {
          assert end.log[..|w'.log|][i] == w'.log[i];
        }
      }
    }
  }

  /** A session whose metrics key has just been created and on which nobody is working yet. */
  function Seeded(sessionID: string, metrics: SessionMetrics): World {
    Apply(Init(sessionID), Create(metrics))
  }

  lemma SeededInv(sessionID: string, metrics: SessionMetrics)
    ensures Inv(Seeded(sessionID, metrics)) && Seeded(sessionID, metrics).value == Some(metrics)
  {
    StepKeepsInv(Init(sessionID), Create(metrics));
  }

  lemma {:induction false} CallsKept(w: World, steps: seq<Step>)
    ensures forall c <- w.calls :: c in Run(w, steps).calls && Run(w, steps).calls[c].start == w.calls[c].start
    ensures forall c <- Run(w, steps).calls :: c in w.calls || Run(w, steps).calls[c].start >= |w.log|
    decreases |steps|
  {
    if steps != [] {
      hide Apply;
      CallKept(w, steps[0]);
      CallsKept(Apply(w, steps[0]), steps[1..]);
    }
  }

  lemma CallKept(w: World, st: Step)
    ensures forall c <- w.calls :: c in Apply(w, st).calls && Apply(w, st).calls[c].start == w.calls[c].start
    ensures forall c <- Apply(w, st).calls :: c in w.calls || Apply(w, st).calls[c].start >= |w.log|
    ensures |Apply(w, st).log| >= |w.log|
  {
  }

  /** A call that gave up was overtaken by eight other calls, when only updates happened meanwhile. */
  lemma OvertakenByEight(w: World, c: CallID) returns (others: set<CallID>)
    requires Inv(w) && c in w.calls && w.calls[c].phase.Exhausted?
    requires forall i :: w.calls[c].start <= i < w.calls[c].phase.at && i < |w.log| ==> w.log[i].Updated?
    ensures |others| >= 8 && c !in others
    ensures forall d <- others :: d in w.calls && w.calls[d].phase.Succeeded?
                && w.calls[c].start <= w.calls[d].phase.at < w.calls[c].phase.at
  {
    assert CallOK(w, c);
    var start, at := w.calls[c].start, w.calls[c].phase.at;
    var window := w.log[start..at];
    forall i | 0 <= i < |window|
      ensures window[i].Updated? && window[i].c in w.calls && window[i].c != c
      ensures w.calls[window[i].c].phase.Succeeded? && w.calls[window[i].c].phase.at == start + i
    {
      assert IsWriteOf(w.log[start + i], window[i].c);
      assert CallOK(w, window[i].c);
    }
    DistinctCallers(window);
    others := CallersOf(window);
  }

  /** Among updaters alone, a call that gave up was overtaken by eight other calls while it ran. */
  lemma ExhaustedMetEightOthers(sessionID: string, metrics: SessionMetrics, steps: seq<Step>, c: CallID)
      returns (others: set<CallID>)
    requires UpdatesOnly(steps) && c in Run(Seeded(sessionID, metrics), steps).calls
    requires Run(Seeded(sessionID, metrics), steps).calls[c].phase.Exhausted?
    ensures |others| >= 8 && c !in others
    ensures var w := Run(Seeded(sessionID, metrics), steps);
            forall d <- others :: d in w.calls && w.calls[d].phase.Succeeded?
                && w.calls[c].start <= w.calls[d].phase.at < w.calls[c].phase.at
  {
    hide Run, Inv;
    var w0 := Seeded(sessionID, metrics);
    SeededInv(sessionID, metrics);
    RunKeepsInv(w0, steps);
    UpdatesLogOnlyUpdates(w0, steps);
    CallsKept(w0, steps);
    others := OvertakenByEight(Run(w0, steps), c);
  }

  /** The key exists and no call has found it missing. */
  predicate Present(w: World) {
    w.value.Some? && forall c <- w.calls :: !w.calls[c].phase.Missing?
  }

  lemma {:induction false} UpdatesKeepPresent(w: World, steps: seq<Step>)
    requires Present(w) && UpdatesOnly(steps)
    ensures Present(Run(w, steps))
    decreases |steps|
  {
    if steps != [] {
      UpdatesKeepPresent(Apply(w, steps[0]), steps[1..]);
    }
  }

  /**
    At most eight one-shot updaters and no other writer: nobody gives up, and a call that has ended
    without a failing command has succeeded.
   */
  lemma EightUpdatersSucceed(sessionID: string, metrics: SessionMetrics, steps: seq<Step>, c: CallID)
    requires UpdatesOnly(steps) && c in Run(Seeded(sessionID, metrics), steps).calls
    requires |Run(Seeded(sessionID, metrics), steps).calls| <= 8
    ensures var p := Run(Seeded(sessionID, metrics), steps).calls[c].phase;
            !p.Exhausted? && (!Running(p) && !p.Broken? ==> p.Succeeded?)
  {
    UpdatesKeepPresent(Seeded(sessionID, metrics), steps);
    var w := Run(Seeded(sessionID, metrics), steps);
    if w.calls[c].phase.Exhausted? {
      var others := ExhaustedMetEightOthers(sessionID, metrics, steps, c);
      SubsetSize(others + {c}, w.calls.Keys);
    }
  }

  lemma {:induction false} SubsetSize<T>(a: set<T>, b: set<T>)
    requires a <= b
    ensures |a| <= |b|
  {
    if a != {} {
      var x :| x in a;
      SubsetSize(a - {x}, b - {x});
    }
  }

  // ---------------------------------------------------------------- the bound is sharp

  function Range(n: nat): (r: set<nat>)
    ensures |r| == n
    ensures forall i: nat :: i in r <==> i < n
  {
    if n == 0 then {} else Range(n - 1) + {n - 1}
  }

  /** Calls 0 to n-1 begin. */
  function Starts(n: nat, fn: Change): seq<Step> {
    if n == 0 then [] else Starts(n - 1, fn) + [Begin(n - 1, fn)]
  }

  /** Call 0 reads, call `k` reads and writes, call 0's EXEC fails. */
  function Round(k: nat): seq<Step> {
    [Watch(0), Get(0, 0), Watch(k), Get(k, 0), Exec(k), Exec(0)]
  }

  function Rounds(k: nat): seq<Step> {
    if k == 0 then [] else Rounds(k - 1) + Round(k)
  }

  lemma {:induction false} StartsRun(w: World, n: nat, fn: Change)
    requires w.calls == map[]
    ensures var r := Run(w, Starts(n, fn));
            && r.value == w.value && r.version == w.version && r.log == w.log
            && r.calls.Keys == Range(n)
            && forall i: nat | i < n :: r.calls[i].phase == Ready(0)
  {
    hide Run, Apply;
    if n == 0 {
      RunNone(w);
    } else {
      StartsRun(w, n - 1, fn);
      RunAppend(w, Starts(n - 1, fn), [Begin(n - 1, fn)]);
      RunOne(Run(w, Starts(n - 1, fn)), Begin(n - 1, fn));
      OneStarts(Run(w, Starts(n - 1, fn)), n - 1, fn);
    }
  }

  lemma OneStarts(w: World, n: nat, fn: Change)
    requires w.calls.Keys == Range(n) && forall i: nat | i < n :: w.calls[i].phase == Ready(0)
    ensures var r := Apply(w, Begin(n, fn));
            && r.value == w.value && r.version == w.version && r.log == w.log
            && r.calls.Keys == Range(n + 1)
            && forall i: nat | i < n + 1 :: r.calls[i].phase == Ready(0)
  {
    assert n !in w.calls;
  }

  lemma RunNone(w: World)
    ensures Run(w, []) == w
  {
  }

  lemma RunOne(w: World, st: Step)
    ensures Run(w, [st]) == Apply(w, st)
  {
    assert [st][1..] == [];
  }

  lemma RunTwo(w: World, a: Step, b: Step)
    ensures Run(w, [a, b]) == Apply(Apply(w, a), b)
  {
    assert [a, b][1..] == [b];
    RunOne(Apply(w, a), b);
  }

  lemma ReadsAlone(w: World, c: CallID)
    requires c in w.calls && w.calls[c].phase.Ready? && w.value.Some?
    ensures var next := Stamp(w.calls[c].fn, w.value.value, w.sessionID, 0);
            Apply(Apply(w, Watch(c)), Get(c, 0)) ==
            SetPhase(w, c, Changed(w.calls[c].phase.failures, w.version, next, 0))
  {
  }

  lemma RoundRun(w: World, k: nat)
    requires 0 in w.calls && k in w.calls && k != 0 && w.value.Some?
    requires w.calls[0].phase.Ready? && w.calls[k].phase == Ready(0)
    ensures var r := Run(w, Round(k));
            && r.value.Some? && r.calls.Keys == w.calls.Keys
            && (forall i <- w.calls | i != 0 && i != k :: r.calls[i] == w.calls[i])
            && (if w.calls[0].phase.failures + 1 < 8
                then r.calls[0].phase == Ready(w.calls[0].phase.failures + 1)
                else r.calls[0].phase.Exhausted?)
  {
    hide Run, Apply, Stamp;
    var read := Apply(Apply(w, Watch(0)), Get(0, 0));
    var both := Apply(Apply(read, Watch(k)), Get(k, 0));
    RunTwo(w, Watch(0), Get(0, 0));
    RunTwo(read, Watch(k), Get(k, 0));
    RunTwo(both, Exec(k), Exec(0));
    RunAppend(w, [Watch(0), Get(0, 0)], [Watch(k), Get(k, 0)] + [Exec(k), Exec(0)]);
    RunAppend(read, [Watch(k), Get(k, 0)], [Exec(k), Exec(0)]);
    assert Round(k) == [Watch(0), Get(0, 0)] + ([Watch(k), Get(k, 0)] + [Exec(k), Exec(0)]);
    ReadsAlone(w, 0);
    ReadsAlone(read, k);
    SecondFails(both, 0, k);
  }

  /** Of two calls that have read the key at its present version the one whose EXEC is second fails. */
  lemma SecondFails(w: World, c: CallID, k: CallID)
    requires c in w.calls && k in w.calls && c != k && w.calls[c].phase.Changed? && w.calls[k].phase.Changed?
    requires w.calls[c].phase.version == w.calls[k].phase.version == w.version
    ensures var r := Apply(Apply(w, Exec(k)), Exec(c));
            && r.value.Some? && r.calls.Keys == w.calls.Keys
            && (forall i <- w.calls | i != c && i != k :: r.calls[i] == w.calls[i])
            && (if w.calls[c].phase.failures + 1 < 8
                then r.calls[c].phase == Ready(w.calls[c].phase.failures + 1)
                else r.calls[c].phase.Exhausted?)
  {
  }

  lemma {:induction false} RoundsRun(w: World, k: nat)
    requires k <= 8 && w.value.Some?
    requires forall i: nat | i <= 8 :: i in w.calls && w.calls[i].phase == Ready(0)
    ensures var r := Run(w, Rounds(k));
            && r.value.Some? && r.calls.Keys == w.calls.Keys
            && (forall i: nat | k < i <= 8 :: r.calls[i].phase == Ready(0))
            && (if k < 8 then r.calls[0].phase == Ready(k) else r.calls[0].phase.Exhausted?)
  {
    hide Run, Round;
    if k == 0 {
      RunNone(w);
    } else {
      RoundsRun(w, k - 1);
      RunAppend(w, Rounds(k - 1), Round(k));
      RoundRun(Run(w, Rounds(k - 1)), k);
    }
  }

  lemma {:induction false} ScheduleUpdatesOnly(n: nat, fn: Change, k: nat)
    ensures UpdatesOnly(Starts(n, fn)) && UpdatesOnly(Rounds(k))
  {
    if n > 0 {
      ScheduleUpdatesOnly(n - 1, fn, k);
    } else if k > 0 {
      ScheduleUpdatesOnly(n, fn, k - 1);
    }
  }

  ghost predicate CanExhaust(sessionID: string, metrics: SessionMetrics, n: nat, steps: seq<Step>, c: CallID) {
    && UpdatesOnly(steps)
    && |Run(Seeded(sessionID, metrics), steps).calls| == n
    && c in Run(Seeded(sessionID, metrics), steps).calls
    && Run(Seeded(sessionID, metrics), steps).calls[c].phase.Exhausted?
  }

  /**
    The exact bound: among `n` one-shot updaters and no other writer some schedule makes a call
    give up if and only if there are at least nine of them.
   */
  lemma RetryBoundIsExact(sessionID: string, metrics: SessionMetrics, n: nat)
    ensures (exists steps, c :: CanExhaust(sessionID, metrics, n, steps, c)) <==> n >= 9
  {
    hide CanExhaust, Starts, Rounds;
    if n >= 9 {
      NineCanExhaust(sessionID, metrics, n, m => m);
    }
    forall steps, c | CanExhaust(sessionID, metrics, n, steps, c)
      ensures n >= 9
    {
      if n <= 8 {
        EightDoNotExhaust(sessionID, metrics, n, steps, c);
      }
    }
  }

  lemma NineCanExhaust(sessionID: string, metrics: SessionMetrics, n: nat, fn: Change)
    requires n >= 9
    ensures CanExhaust(sessionID, metrics, n, Starts(n, fn) + Rounds(8), 0)
  {
    hide Starts, Rounds;
    var w := Seeded(sessionID, metrics);
    var steps := Starts(n, fn) + Rounds(8);
    StartsRun(w, n, fn);
    RunAppend(w, Starts(n, fn), Rounds(8));
    RoundsRun(Run(w, Starts(n, fn)), 8);
    ScheduleUpdatesOnly(n, fn, 8);
    assert |Run(w, steps).calls| == |Run(w, steps).calls.Keys|;
  }

  lemma EightDoNotExhaust(sessionID: string, metrics: SessionMetrics, n: nat, steps: seq<Step>, c: CallID)
    requires n <= 8
    ensures !CanExhaust(sessionID, metrics, n, steps, c)
  {
    if CanExhaust(sessionID, metrics, n, steps, c) {
      EightUpdatersSucceed(sessionID, metrics, steps, c);
    }
  }
}
