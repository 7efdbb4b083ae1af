/**
  `UpdateSessionMetrics` on one session's metrics key: concurrent WATCH / GET / EXEC loops,
  interleaved command by command, among creations and deletions of the key.
 */
module MetricsMachine {
  import opened Domain

  const MAX_RETRIES := 8

  type CallID = nat
  type Change = SessionMetrics -> SessionMetrics

  /** What a call stores: the changed metrics, with the session id filled in and a new time stamp. */
  function Stamp(fn: Change, old_: SessionMetrics, sessionID: string, now: int): SessionMetrics {
    StampMetrics(fn(old_), sessionID, now)
  }

  datatype Phase =
    | Ready(failures: nat)
    | Watching(failures: nat, version: nat)        // the key had that version at WATCH
    | Changed(failures: nat, version: nat, next: SessionMetrics, now: int)
    | Succeeded(updated: SessionMetrics, at: nat)  // its write is entry `at` of the log
    | Missing                                      // metrics not found
    | Broken                                       // some other Redis error
    | Exhausted(at: nat)                           // gave up when the log had `at` entries

  /** `start` is the number of writes to the key before the call began. */
  datatype Call = Call(fn: Change, start: nat, phase: Phase)

  datatype Entry = Created(metrics: SessionMetrics) | Updated(c: CallID, fn: Change, now: int) | Deleted

  /** `value` and `version` are what Redis holds; `log` is the history of the writes to the key. */
  datatype World = World(
    sessionID: string,
    value: Option<SessionMetrics>,
    version: nat,
    log: seq<Entry>,
    calls: map<CallID, Call>)

  function Init(sessionID: string): World {
    World(sessionID, None, 0, [], map[])
  }

  datatype Step =
    | Begin(c: CallID, fn: Change)
    | Watch(c: CallID)
    | Get(c: CallID, now: int)
    | Exec(c: CallID)
    | CommandError(c: CallID)
    | Create(metrics: SessionMetrics)
    | Delete

  predicate Running(p: Phase) {
    p.Ready? || p.Watching? || p.Changed?
  }

  function Write(w: World, value: Option<SessionMetrics>, e: Entry): World {
    w.(value := value, version := w.version + 1, log := w.log + [e])
  }

  function SetPhase(w: World, c: CallID, p: Phase): World
    requires c in w.calls
  {
    w.(calls := w.calls[c := w.calls[c].(phase := p)])
  }

  /** A step that does not apply changes nothing. */
  function Apply(w: World, st: Step): World {
    match st
    case Begin(c, fn) =>
      if c in w.calls then w else w.(calls := w.calls[c := Call(fn, |w.log|, Ready(0))])
    case Watch(c) =>
      if c !in w.calls || !w.calls[c].phase.Ready? then w
      else SetPhase(w, c, Watching(w.calls[c].phase.failures, w.version))
    case Get(c, now) =>
      if c !in w.calls || !w.calls[c].phase.Watching? then w
      else if w.value.None? then SetPhase(w, c, Missing)
      else SetPhase(w, c, Changed(w.calls[c].phase.failures, w.calls[c].phase.version,
                                  Stamp(w.calls[c].fn, w.value.value, w.sessionID, now), now))
    case Exec(c) =>
      if c !in w.calls || !w.calls[c].phase.Changed? then w
      else
        var Changed(failures, version, next, now) := w.calls[c].phase;
        if version == w.version then
          SetPhase(Write(w, Some(next), Updated(c, w.calls[c].fn, now)), c, Succeeded(next, |w.log|))
        else if failures + 1 < MAX_RETRIES then
          SetPhase(w, c, Ready(failures + 1))
        else
          SetPhase(w, c, Exhausted(|w.log|))
    case CommandError(c) =>
      if c in w.calls && Running(w.calls[c].phase) then SetPhase(w, c, Broken) else w
    case Create(metrics) => Write(w, Some(metrics), Created(metrics))
    case Delete => if w.value.None? then w else Write(w, None, Deleted)
  }

  function Run(w: World, steps: seq<Step>): World
    decreases |steps|
  {
    if steps == [] then w else Run(Apply(w, steps[0]), steps[1..])
  }

  lemma {:induction false} RunAppend(w: World, a: seq<Step>, b: seq<Step>)
    ensures Run(w, a + b) == Run(Run(w, a), b)
    decreases |a|
  {
    if a == [] {
      assert a + b == b;
    } else {
      assert (a + b)[1..] == a[1..] + b;
      RunAppend(Apply(w, a[0]), a[1..], b);
    }
  }

  // ---------------------------------------------------------------- the sequential account

  /** The value a sequential store holds after the logged writes, each change applied once, in order. */
  function Replay(sessionID: string, log: seq<Entry>): Option<SessionMetrics> {
    if log == [] then None
    else match log[|log| - 1]
         case Created(m) => Some(m)
         case Deleted => None
         case Updated(_, fn, now) =>
           var before := Replay(sessionID, log[..|log| - 1]);
           if before.None? then None else Some(Stamp(fn, before.value, sessionID, now))
  }

  predicate IsWriteOf(e: Entry, c: CallID) {
    e.Updated? && e.c == c
  }

  /** What a call has read is what the key still holds, unless the key has been written since WATCH. */
  ghost predicate CallOK(w: World, c: CallID)
    requires c in w.calls
  {
    var call := w.calls[c];
    && call.start <= |w.log|
    && (forall i :: 0 <= i < |w.log| && IsWriteOf(w.log[i], c) ==>
          call.phase.Succeeded? && i == call.phase.at && w.log[i].fn == call.fn)
    && match call.phase
       case Ready(failures) => failures < MAX_RETRIES && call.start + failures <= |w.log|
       case Watching(failures, version) =>
         failures < MAX_RETRIES && call.start + failures <= version <= |w.log|
       case Changed(failures, version, next, now) =>
         && failures < MAX_RETRIES && call.start + failures <= version <= |w.log|
         && (version == |w.log| ==>
               && Replay(w.sessionID, w.log).Some?
               && next == Stamp(call.fn, Replay(w.sessionID, w.log).value, w.sessionID, now))
       case Succeeded(updated, at) =>
         && call.start <= at < |w.log| && IsWriteOf(w.log[at], c)
         && Replay(w.sessionID, w.log[..at]).Some?
         && Some(updated) == Replay(w.sessionID, w.log[..at + 1])
       case Exhausted(at) => call.start + MAX_RETRIES <= at <= |w.log|
       case _ => true
  }

  ghost predicate Inv(w: World) {
    && w.version == |w.log|
    && w.value == Replay(w.sessionID, w.log)
    && (forall i :: 0 <= i < |w.log| && w.log[i].Updated? ==> w.log[i].c in w.calls)
    && (forall c <- w.calls :: CallOK(w, c))
  }

  /** A call that a step leaves alone stays well, whatever is written. */
  lemma CallFrame(w: World, w': World, c: CallID)
    requires c in w.calls && CallOK(w, c) && c in w'.calls && w'.calls[c] == w.calls[c]
    requires w'.sessionID == w.sessionID && |w.log| <= |w'.log| && w'.log[..|w.log|] == w.log
    requires forall i :: |w.log| <= i < |w'.log| ==> !IsWriteOf(w'.log[i], c)
    ensures CallOK(w', c)
  {
    forall i | 0 <= i <= |w.log|
      ensures w'.log[..i] == w.log[..i]
    {
      assert w'.log[..i] == w'.log[..|w.log|][..i];
    }
    forall i | 0 <= i < |w'.log| && IsWriteOf(w'.log[i], c)
      ensures i < |w.log| && w.log[i] == w'.log[i]
    {
      if i < |w.log| {
        assert w'.log[..|w.log|][i] == w'.log[i];
      }
    }
    if w.calls[c].phase.Succeeded? {
      assert w'.log[..|w.log|][w.calls[c].phase.at] == w'.log[w.calls[c].phase.at];
    }
  }

  lemma OthersKept(w: World, w': World, touched: set<CallID>)
    requires Inv(w)
    requires w'.sessionID == w.sessionID && |w.log| <= |w'.log| && w'.log[..|w.log|] == w.log
    requires forall c <- w.calls :: c in w'.calls && (c !in touched ==> w'.calls[c] == w.calls[c])
    requires forall i :: |w.log| <= i < |w'.log| && w'.log[i].Updated? ==> w'.log[i].c in touched
    ensures forall c <- w.calls :: c !in touched ==> CallOK(w', c)
  {
    forall c <- w.calls | c !in touched
      ensures CallOK(w', c)
    {
      CallFrame(w, w', c);
    }
  }

  lemma WriteKeepsInv(w: World, st: Step)
    requires Inv(w) && (st.Create? || st.Delete?)
    ensures Inv(Apply(w, st))
  {
    var w' := Apply(w, st);
    if w' != w {
      assert w'.log[..|w.log|] == w.log;
      OthersKept(w, w', {});
    }
  }

  lemma BeginKeepsInv(w: World, c: CallID, fn: Change)
    requires Inv(w)
    ensures Inv(Apply(w, Begin(c, fn)))
  {
    if c !in w.calls {
      var w' := Apply(w, Begin(c, fn));
      assert w'.log[..|w.log|] == w.log;
      OthersKept(w, w', {});
    }
  }

  lemma WatchKeepsInv(w: World, c: CallID)
    requires Inv(w)
    ensures Inv(Apply(w, Watch(c)))
  {
    var w' := Apply(w, Watch(c));
    if w' != w {
      assert w.log[..|w.log|] == w.log;
      assert CallOK(w, c);
      OthersKept(w, w', {c});
      assert CallOK(w', c);
    }
  }

  lemma GetKeepsInv(w: World, c: CallID, now: int)
    requires Inv(w)
    ensures Inv(Apply(w, Get(c, now)))
  {
    var w' := Apply(w, Get(c, now));
    if w' != w {
      assert w.log[..|w.log|] == w.log;
      assert CallOK(w, c);
      OthersKept(w, w', {c});
      assert CallOK(w', c);
    }
  }

  lemma CommitKeepsInv(w: World, c: CallID)
    requires Inv(w) && c in w.calls && w.calls[c].phase.Changed? && w.calls[c].phase.version == w.version
    ensures Inv(Apply(w, Exec(c)))
  {
    var w' := Apply(w, Exec(c));
    assert CallOK(w, c);
    assert w'.log[..|w.log|] == w.log == w.log[..|w.log|];
    assert w'.log[..|w.log| + 1] == w'.log;
    OthersKept(w, w', {c});
    assert CallOK(w', c);
  }

  lemma RetryKeepsInv(w: World, c: CallID)
    requires Inv(w) && c in w.calls && w.calls[c].phase.Changed? && w.calls[c].phase.version != w.version
    ensures Inv(Apply(w, Exec(c)))
  {
    var w' := Apply(w, Exec(c));
    assert CallOK(w, c);
    assert w.log[..|w.log|] == w.log;
    OthersKept(w, w', {c});
    assert CallOK(w', c);
  }

  /** What a call that succeeded has stored, told from what its change makes of the metrics before it. */
  lemma StoresItsChange(w: World, c: CallID)
    requires Inv(w) && c in w.calls && w.calls[c].phase.Succeeded?
    ensures var call := w.calls[c];
            var at := call.phase.at;
            && at < |w.log| && w.log[at].Updated? && Replay(w.sessionID, w.log[..at]).Some?
            && var changed := call.fn(Replay(w.sessionID, w.log[..at]).value);
               call.phase.updated == SessionMetrics(if changed.sessionID == "" then w.sessionID else changed.sessionID,
                                                    changed.liveSlaves, changed.goneSlaves, w.log[at].now)
  {
    assert CallOK(w, c);
    var at := w.calls[c].phase.at;
    assert w.log[..at + 1][..at] == w.log[..at];
  }

  lemma ErrorKeepsInv(w: World, c: CallID)
    requires Inv(w)
    ensures Inv(Apply(w, CommandError(c)))
  {
    var w' := Apply(w, CommandError(c));
    if w' != w {
      assert w.log[..|w.log|] == w.log;
      assert CallOK(w, c);
      OthersKept(w, w', {c});
      assert CallOK(w', c);
    }
  }

  lemma StepKeepsInv(w: World, st: Step)
    requires Inv(w)
    ensures Inv(Apply(w, st))
  {
    match st
    case Begin(c, fn) => BeginKeepsInv(w, c, fn);
    case Watch(c) => WatchKeepsInv(w, c);
    case Get(c, now) => GetKeepsInv(w, c, now);
    case Exec(c) =>
      if c in w.calls && w.calls[c].phase.Changed? {
        if w.calls[c].phase.version == w.version {
          CommitKeepsInv(w, c);
        } else {
          RetryKeepsInv(w, c);
        }
      }
    case CommandError(c) => ErrorKeepsInv(w, c);
    case _ => WriteKeepsInv(w, st);
  }

  lemma {:induction false} RunKeepsInv(w: World, steps: seq<Step>)
    requires Inv(w)
    ensures Inv(Run(w, steps))
    decreases |steps|
  {
    if steps != [] {
      StepKeepsInv(w, steps[0]);
      RunKeepsInv(Apply(w, steps[0]), steps[1..]);
    }
  }
}
