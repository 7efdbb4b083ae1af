/** `UpdateSessionMetrics` as the loop that the source runs, proved to be one call of the machine. */
module MetricsClient {
  import opened Domain
  import opened MetricsMachine

  datatype UpdateError = NotFound | StoreError | RetryLimitExceeded

  /**
    What happens around one attempt: the steps of others before WATCH, GET and EXEC, the clock, and
    which command fails, the EXEC otherwise than by the transaction's being void.
   */
  datatype Attempt = Attempt(
    beforeWatch: seq<Step>,
    beforeGet: seq<Step>,
    beforeExec: seq<Step>,
    now: int,
    watchError: bool,
    getError: bool,
    execError: bool)
  {
    predicate Fails() {
      watchError || getError || execError
    }
  }

  /** What an attempt comes to from its WATCH on, the key having had that version then. */
  function Transaction(w: World, c: CallID, fn: Change, version: nat, a: Attempt)
    : Option<Result<SessionMetrics, UpdateError>>
  {
    var read := Run(w, a.beforeGet);
    if a.getError then Some(Err(StoreError))
    else if read.value.None? then Some(Err(NotFound))
    else if a.execError then Some(Err(StoreError))
    else if Run(Apply(read, Get(c, a.now)), a.beforeExec).version == version then
      Some(Ok(Stamp(fn, read.value.value, read.sessionID, a.now)))
    else None
  }

  function AfterTransaction(w: World, c: CallID, a: Attempt): World {
    Apply(Run(Apply(Run(w, a.beforeGet), Get(c, a.now)), a.beforeExec), Exec(c))
  }

  /** What one attempt comes to; None when its EXEC finds the key written and the loop goes on. */
  function Outcome(w: World, c: CallID, fn: Change, a: Attempt): Option<Result<SessionMetrics, UpdateError>> {
    var before := Run(w, a.beforeWatch);
    if a.watchError then Some(Err(StoreError))
    else Transaction(Apply(before, Watch(c)), c, fn, before.version, a)
  }

  /** What such an attempt leaves to the next. */
  function AfterFailure(w: World, c: CallID, a: Attempt): World {
    AfterTransaction(Apply(Run(w, a.beforeWatch), Watch(c)), c, a)
  }

  /** The outcome of the attempts from the `k`-th on: that of the first that has one. */
  function Retry(w: World, c: CallID, fn: Change, attempts: nat -> Attempt, k: nat): Result<SessionMetrics, UpdateError>
    decreases MAX_RETRIES - k
  {
    if k >= MAX_RETRIES then Err(RetryLimitExceeded)
    else match Outcome(w, c, fn, attempts(k))
         case Some(r) => r
         case None => Retry(AfterFailure(w, c, attempts(k)), c, fn, attempts, k + 1)
  }

  /** A store error is one that some attempt met, and without any error no attempt reports one. */
  lemma {:induction false} StoreErrorIsMet(w: World, c: CallID, fn: Change, attempts: nat -> Attempt, k: nat)
    ensures Retry(w, c, fn, attempts, k) == Err(StoreError) ==>
              exists i :: k <= i < MAX_RETRIES && attempts(i).Fails()
    decreases MAX_RETRIES - k
  {
    if k < MAX_RETRIES && Outcome(w, c, fn, attempts(k)).None? {
      StoreErrorIsMet(AfterFailure(w, c, attempts(k)), c, fn, attempts, k + 1);
    }
  }

  /** A command that fails ends the call with that error, and a missing value ends it with that answer. */
  lemma FailureEnds(w: World, c: CallID, fn: Change, attempts: nat -> Attempt, k: nat)
    requires k < MAX_RETRIES
    ensures var read := Run(Apply(Run(w, attempts(k).beforeWatch), Watch(c)), attempts(k).beforeGet);
            && (attempts(k).watchError || attempts(k).getError ==>
                  Retry(w, c, fn, attempts, k) == Err(StoreError))
            && (!attempts(k).watchError && !attempts(k).getError && read.value.None? ==>
                  Retry(w, c, fn, attempts, k) == Err(NotFound))
            && (!attempts(k).watchError && !attempts(k).getError && read.value.Some? && attempts(k).execError ==>
                  Retry(w, c, fn, attempts, k) == Err(StoreError))
  {
  }

  predicate NotBy(st: Step, c: CallID) {
    match st
    case Begin(d, _) => d != c
    case Watch(d) => d != c
    case Get(d, _) => d != c
    case Exec(d) => d != c
    case CommandError(d) => d != c
    case _ => true
  }

  ghost predicate ByOthers(steps: seq<Step>, c: CallID) {
    forall i :: 0 <= i < |steps| ==> NotBy(steps[i], c)
  }

  ghost predicate AroundCall(a: Attempt, c: CallID) {
    ByOthers(a.beforeWatch, c) && ByOthers(a.beforeGet, c) && ByOthers(a.beforeExec, c)
  }

  lemma {:induction false} OthersLeaveCall(w: World, steps: seq<Step>, c: CallID)
    requires Inv(w) && ByOthers(steps, c) && c in w.calls
    ensures Inv(Run(w, steps)) && c in Run(w, steps).calls && Run(w, steps).calls[c] == w.calls[c]
    ensures Run(w, steps).sessionID == w.sessionID
    decreases |steps|
  {
    if steps != [] {
      assert NotBy(steps[0], c);
      StepKeepsInv(w, steps[0]);
      OthersLeaveCall(Apply(w, steps[0]), steps[1..], c);
    }
  }

  /** The phase in which a call ends, read off what it returned. */
  predicate Reports(r: Result<SessionMetrics, UpdateError>, p: Phase) {
    match r
    case Ok(updated) => p.Succeeded? && p.updated == updated
    case Err(NotFound) => p.Missing?
    case Err(StoreError) => p.Broken?
    case Err(RetryLimitExceeded) => p.Exhausted?
  }

  lemma ExhaustionCost(w: World, c: CallID)
    requires Inv(w) && c in w.calls
    ensures !(w.calls[c].phase == Ready(MAX_RETRIES))
    ensures w.calls[c].phase.Exhausted? ==> w.calls[c].start + MAX_RETRIES <= |w.log|
  {
    assert CallOK(w, c);
  }

  lemma StoredAfterStart(w: World, c: CallID)
    requires Inv(w) && c in w.calls && w.calls[c].phase.Succeeded?
    ensures w.calls[c].start <= w.calls[c].phase.at
  {
    assert CallOK(w, c);
  }

  class MetricsKey {
    var world: World

    /** The rest of the system runs. */
    method Interleave(steps: seq<Step>, c: CallID, ghost done: seq<Step>, ghost start: World)
      returns (ghost now: seq<Step>)
      requires Inv(world) && ByOthers(steps, c) && c in world.calls && world == Run(start, done)
      modifies this
      ensures Inv(world) && c in world.calls && world.calls[c] == old(world.calls[c])
      ensures now == done + steps && world == Run(start, now) && world == Run(old(world), steps)
      ensures world.sessionID == old(world.sessionID)
    {
      OthersLeaveCall(world, steps, c);
      RunAppend(start, done, steps);
      world := Run(world, steps);
      now := done + steps;
    }

    /** One step of the call `c` itself. */
    method Do(st: Step, ghost done: seq<Step>, ghost start: World) returns (ghost now: seq<Step>)
      requires Inv(world) && world == Run(start, done)
      modifies this
      ensures Inv(world) && world == Apply(old(world), st)
      ensures now == done + [st] && world == Run(start, now)
    {
      StepKeepsInv(world, st);
      RunAppend(start, done, [st]);
      assert Run(world, [st]) == Apply(world, st);
      world := Apply(world, st);
      now := done + [st];
    }

    /** One attempt: None when the EXEC failed and the loop goes on. */
    method Try(c: CallID, fn: Change, failures: nat, a: Attempt, ghost done: seq<Step>, ghost start: World)
      returns (r: Option<Result<SessionMetrics, UpdateError>>, ghost now: seq<Step>)
      requires Inv(world) && world == Run(start, done) && failures < MAX_RETRIES
      requires c in world.calls && world.calls[c].fn == fn && world.calls[c].phase == Ready(failures)
      requires AroundCall(a, c)
      modifies this
      ensures Inv(world) && world == Run(start, now) && c in world.calls
      ensures world.calls[c] == old(world.calls[c]).(phase := world.calls[c].phase)
      ensures r == Outcome(old(world), c, fn, a)
      ensures r.None? ==> world.calls[c].phase == Ready(failures + 1)
                          || (failures + 1 == MAX_RETRIES && world.calls[c].phase.Exhausted?)
      ensures r.Some? ==> Reports(r.value, world.calls[c].phase) && r.value != Err(RetryLimitExceeded)
      ensures r.None? ==> world == AfterFailure(old(world), c, a)
      ensures r == Some(Err(NotFound)) ==> world.value.None?
    {
      hide Inv, ByOthers, Run;
      now := Interleave(a.beforeWatch, c, done, start);
      if a.watchError {
        now := Do(CommandError(c), now, start);
        return Some(Err(StoreError)), now;
      }
      now := Do(Watch(c), now, start);
      r, now := Transact(c, fn, failures, world.version, a, now, start);
    }

    /** The rest of an attempt, the key having had that version at WATCH. */
    method Transact(c: CallID, fn: Change, failures: nat, version: nat, a: Attempt, ghost done: seq<Step>,
                    ghost start: World)
      returns (r: Option<Result<SessionMetrics, UpdateError>>, ghost now: seq<Step>)
      requires Inv(world) && world == Run(start, done) && failures < MAX_RETRIES && !a.watchError
      requires c in world.calls && world.calls[c].fn == fn && world.calls[c].phase == Watching(failures, version)
      requires ByOthers(a.beforeGet, c) && ByOthers(a.beforeExec, c)
      modifies this
      ensures Inv(world) && world == Run(start, now) && c in world.calls
      ensures world.calls[c] == old(world.calls[c]).(phase := world.calls[c].phase)
      ensures r == Transaction(old(world), c, fn, version, a)
      ensures r.None? ==> world.calls[c].phase == Ready(failures + 1)
                          || (failures + 1 == MAX_RETRIES && world.calls[c].phase.Exhausted?)
      ensures r.Some? ==> Reports(r.value, world.calls[c].phase) && r.value != Err(RetryLimitExceeded)
      ensures r.None? ==> world == AfterTransaction(old(world), c, a)
      ensures r == Some(Err(NotFound)) ==> world.value.None?
    {
      hide Inv, ByOthers, Run, Stamp;
      now := Interleave(a.beforeGet, c, done, start);
      if a.getError {
        now := Do(CommandError(c), now, start);
        return Some(Err(StoreError)), now;
      }
      var found := world.value;
      now := Do(Get(c, a.now), now, start);
      if found.None? {
        return Some(Err(NotFound)), now;
      }
      var updated := Stamp(fn, found.value, world.sessionID, a.now);
      now := Interleave(a.beforeExec, c, now, start);
      if a.execError {
        now := Do(CommandError(c), now, start);
        return Some(Err(StoreError)), now;
      }
      var untouched := world.version == version;
      now := Do(Exec(c), now, start);
      r := if untouched then Some(Ok(updated)) else None;
    }

    /**
      The outcome is that of a call of the machine with the others' steps interleaved, so everything
      proved of the machine's runs holds of it, and it is the outcome of the attempt that ended the
      loop; a failure for want of retries cost eight writes.
     */
    method UpdateSessionMetrics(c: CallID, fn: Change, attempts: nat -> Attempt)
      returns (r: Result<SessionMetrics, UpdateError>, ghost steps: seq<Step>)
      requires Inv(world) && c !in world.calls
      requires forall i: nat :: AroundCall(attempts(i), c)
      modifies this
      ensures Inv(world) && world == Run(old(world), steps)
      ensures c in world.calls && world.calls[c].fn == fn && world.calls[c].start == |old(world.log)|
      ensures Reports(r, world.calls[c].phase)
      ensures r == Err(RetryLimitExceeded) ==> |world.log| >= |old(world.log)| + 8
      ensures r == Retry(Apply(old(world), Begin(c, fn)), c, fn, attempts, 0)
      ensures r == Err(StoreError) ==>
                exists i :: 0 <= i < MAX_RETRIES && attempts(i).Fails()
      ensures r == Err(NotFound) ==> world.value.None?
      ensures r.Ok? ==>
                var at := world.calls[c].phase.at;
                && |old(world.log)| <= at < |world.log| && world.log[at].Updated?
                && Replay(world.sessionID, world.log[..at]).Some?
                && var changed := fn(Replay(world.sessionID, world.log[..at]).value);
                   && r.value.liveSlaves == changed.liveSlaves && r.value.goneSlaves == changed.goneSlaves
                   && r.value.sessionID == (if changed.sessionID == "" then world.sessionID else changed.sessionID)
                   && r.value.updatedAt == world.log[at].now
    {
      hide Inv, Outcome, AfterFailure;
      ghost var start := world;
      StoreErrorIsMet(Apply(world, Begin(c, fn)), c, fn, attempts, 0);
      assert Run(start, []) == start;
      steps := Do(Begin(c, fn), [], start);
      for attempt := 0 to MAX_RETRIES
        invariant Inv(world) && world == Run(start, steps) && c in world.calls
        invariant world.calls[c].fn == fn && world.calls[c].start == |start.log|
        invariant world.calls[c].phase == Ready(attempt)
                  || (attempt == MAX_RETRIES && world.calls[c].phase.Exhausted?)
        invariant Retry(Apply(start, Begin(c, fn)), c, fn, attempts, 0) == Retry(world, c, fn, attempts, attempt)
      {
        var outcome;
        outcome, steps := Try(c, fn, attempt, attempts(attempt), steps, start);
        if outcome.Some? {
          if outcome.value.Ok? {
            StoresItsChange(world, c);
            StoredAfterStart(world, c);
          }
          return outcome.value, steps;
        }
      }
      ExhaustionCost(world, c);
      return Err(RetryLimitExceeded), steps;
    }
  }
}
