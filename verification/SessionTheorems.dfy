/** What the lifecycle automaton guarantees, and with it every run of the session machine. */
module SessionTheorems {
  import opened Domain
  import opened MasterServer
  import opened SessionMachine
  import opened SessionLifecycle

  function MoveAll(r: Record, labels: seq<Label>): Option<Record>
    decreases |labels|
  {
    if labels == [] then Some(r)
    else match Move(r, labels[0])
         case None => None
         case Some(next) => MoveAll(next, labels[1..])
  }

  function Trace(w: World, steps: seq<Step>): seq<Label>
    requires ValidRun(w, steps)
    decreases |steps|
  {
    if steps == [] then [] else [LabelOf(w, steps[0])] + Trace(Apply(w, steps[0]), steps[1..])
  }

  /** Every run of the machine is a run of the automaton, and the two end in matching states. */
  lemma {:induction false} RunRefines(w: World, r: Record, steps: seq<Step>)
    requires Sim(w, r) && ValidRun(w, steps)
    ensures MoveAll(r, Trace(w, steps)).Some?
    ensures Sim(Run(w, steps), MoveAll(r, Trace(w, steps)).value)
    decreases |steps|
  {
    if steps != [] {
      StepFollows(w, r, steps[0]);
      var w' := Apply(w, steps[0]);
      var r' := Move(r, LabelOf(w, steps[0])).value;
      RunRefines(w', r', steps[1..]);
      assert Trace(w, steps)[1..] == Trace(w', steps[1..]);
    }
  }

  // ---------------------------------------------------------------- the automaton alone

  /** An ended session is known, and is neither current nor about to be committed. */
  predicate EndedIsPast(r: Record) {
    && (forall id <- r.ended :: id in r.known)
    && (r.life.Held? && r.life.made.Some? ==> r.life.made.value.sessionID in r.known - (set id <- r.ended))
    && (Current(r).Some? ==> Current(r).value.sessionID in r.known - (set id <- r.ended))
  }

  /** What may be seen between the commit of `meta` and the end of its finalization. */
  predicate BelongsTo(l: Label, meta: SessionMeta) {
    && !l.LReserve? && !l.LCreate? && !l.LCommit? && !l.LGiveUp? && !l.LIgnore?
    && (l.LResume? ==> l.meta == meta)
    && (l.LEnd? ==> l.id == meta.sessionID)
  }

  predicate Ends(l: Label, id: string) {
    l.LEnded? && l.id == id
  }

  lemma {:induction false} DuringSession(r: Record, labels: seq<Label>, meta: SessionMeta)
    requires Current(r) == Some(meta) && MoveAll(r, labels).Some?
    requires forall k :: 0 <= k < |labels| ==> !Ends(labels[k], meta.sessionID)
    ensures Current(MoveAll(r, labels).value) == Some(meta)
    ensures forall k :: 0 <= k < |labels| ==> BelongsTo(labels[k], meta)
    ensures r.life.Ending? ==> forall k :: 0 <= k < |labels| ==> !labels[k].LResume? && !labels[k].LEnd?
    ensures forall i, k :: 0 <= i < k < |labels| && labels[i].LEnd? ==> !labels[k].LResume? && !labels[k].LEnd?
    decreases |labels|
  {
    if labels != [] {
      var l, rest := labels[0], labels[1..];
      assert !Ends(l, meta.sessionID);
      var next := Move(r, l).value;
      assert Current(next) == Some(meta);
      assert forall k :: 0 <= k < |rest| ==> rest[k] == labels[k + 1];
      DuringSession(next, rest, meta);
    }
  }

  predicate Mentions(l: Label, id: string) {
    match l
    case LResume(_, meta) => meta.sessionID == id
    case LCreate(_, meta) => meta.sessionID == id
    case LCommit(_, meta) => meta.sessionID == id
    case LEnd(_, x) => x == id
    case LEnded(_, x) => x == id
    case _ => false
  }

  lemma {:induction false} AfterSession(r: Record, labels: seq<Label>, id: string)
    requires EndedIsPast(r) && id in r.ended && MoveAll(r, labels).Some?
    ensures EndedIsPast(MoveAll(r, labels).value) && id in MoveAll(r, labels).value.ended
    ensures forall k :: 0 <= k < |labels| ==> !Mentions(labels[k], id)
    decreases |labels|
  {
    if labels != [] {
      var next := Move(r, labels[0]).value;
      AfterSession(next, labels[1..], id);
      assert forall k :: 0 <= k < |labels[1..]| ==> labels[1..][k] == labels[k + 1];
    }
  }

  lemma {:induction false} PastKept(r: Record, labels: seq<Label>)
    requires EndedIsPast(r) && MoveAll(r, labels).Some?
    ensures EndedIsPast(MoveAll(r, labels).value)
    decreases |labels|
  {
    if labels != [] {
      PastKept(Move(r, labels[0]).value, labels[1..]);
    }
  }

  lemma {:induction false} MoveAllSplit(r: Record, a: seq<Label>, b: seq<Label>)
    requires MoveAll(r, a + b).Some?
    ensures MoveAll(r, a).Some? && MoveAll(MoveAll(r, a).value, b) == MoveAll(r, a + b)
    decreases |a|
  {
    if a == [] {
      assert a + b == b;
    } else {
      assert (a + b)[1..] == a[1..] + b;
      MoveAllSplit(Move(r, a[0]).value, a[1..], b);
    }
  }

  /** The automaton up to position `i` of an accepted sequence, its move there, and what remains. */
  lemma SplitAt(labels: seq<Label>, i: nat) returns (before: Record, after: Record)
    requires MoveAll(START, labels).Some? && i < |labels|
    ensures MoveAll(START, labels[..i]) == Some(before) && EndedIsPast(before)
    ensures Move(before, labels[i]) == Some(after) && EndedIsPast(after)
    ensures MoveAll(after, labels[i + 1..]) == MoveAll(START, labels)
  {
    assert labels == labels[..i] + labels[i..];
    MoveAllSplit(START, labels[..i], labels[i..]);
    before := MoveAll(START, labels[..i]).value;
    PastKept(START, labels[..i]);
    assert labels[i..] == [labels[i]] + labels[i + 1..];
    after := Move(before, labels[i]).value;
    PastKept(before, [labels[i]]);
    assert MoveAll(before, [labels[i]]) == Some(after);
  }

  lemma OneLifetime(labels: seq<Label>, i: nat, j: nat)
    requires MoveAll(START, labels).Some? && i < j <= |labels| && labels[i].LCommit?
    requires forall k :: i < k < j ==> !Ends(labels[k], labels[i].meta.sessionID)
    ensures forall k :: i < k < j ==> BelongsTo(labels[k], labels[i].meta)
    ensures forall m, k :: i < m < k < j && labels[m].LEnd? ==> !labels[k].LResume? && !labels[k].LEnd?
  {
    hide MoveAll, BelongsTo, Ends;
    var before, after := SplitAt(labels, i);
    var window := labels[i + 1..j];
    assert labels[i + 1..] == window + labels[j..];
    MoveAllSplit(after, window, labels[j..]);
    forall k | 0 <= k < |window|
      ensures !Ends(window[k], labels[i].meta.sessionID)
    {
      assert window[k] == labels[i + 1 + k];
    }
    DuringSession(after, window, labels[i].meta);
    forall k | i < k < j
      ensures BelongsTo(labels[k], labels[i].meta)
    {
      assert labels[k] == window[k - i - 1];
    }
    forall m, k | i < m < k < j && labels[m].LEnd?
      ensures !labels[k].LResume? && !labels[k].LEnd?
    {
      assert labels[m] == window[m - i - 1] && labels[k] == window[k - i - 1];
    }
  }

  lemma EndIsRecorded(r: Record, l: Label)
    requires l.LEnded? && Move(r, l).Some?
    ensures l.id in Move(r, l).value.ended
  {
    assert Move(r, l).value.ended[|r.ended|] == l.id;
  }

  lemma NeverAgain(labels: seq<Label>, i: nat)
    requires MoveAll(START, labels).Some? && i < |labels| && labels[i].LEnded?
    ensures forall k :: i < k < |labels| ==> !Mentions(labels[k], labels[i].id)
    ensures labels[i].id in MoveAll(START, labels).value.ended
    ensures EndedIsPast(MoveAll(START, labels).value)
  {
    var before, after := SplitAt(labels, i);
    var id := labels[i].id;
    EndIsRecorded(before, labels[i]);
    AfterSession(after, labels[i + 1..], id);
    forall k | i < k < |labels|
      ensures !Mentions(labels[k], id)
    {
      assert labels[k] == labels[i + 1..][k - i - 1];
    }
  }

  // ---------------------------------------------------------------- theorems about runs

  lemma Reached(grace: nat, steps: seq<Step>) returns (r: Record)
    requires ValidRun(Init(grace), steps)
    ensures Some(r) == MoveAll(START, Trace(Init(grace), steps))
    ensures Sim(Run(Init(grace), steps), r)
  {
    InitSim(grace);
    RunRefines(Init(grace), START, steps);
    r := MoveAll(START, Trace(Init(grace), steps)).value;
  }

  /** A committed session with nobody connected and nobody closing it is still going to be ended. */
  lemma NoOrphan(grace: nat, steps: seq<Step>)
    requires ValidRun(Init(grace), steps)
    ensures var w := Run(Init(grace), steps);
            w.slot.sessionID != "" && w.slot.sessionID != PENDING && !w.slot.connected && !w.slot.closing
            ==> Guarded(w, w.slot.sessionID)
  {
    var r := Reached(grace, steps);
  }

  /** At most one handler holds the slot, and `clientConnected` says whether one does. */
  lemma OneHolder(grace: nat, steps: seq<Step>)
    requires ValidRun(Init(grace), steps)
    ensures var w := Run(Init(grace), steps);
            && (forall h, h' | h in w.handlers && h' in w.handlers ::
                  HoldsSlot(w.handlers[h]) && HoldsSlot(w.handlers[h']) ==> h == h')
            && (w.slot.connected <==> exists h :: h in w.handlers && HoldsSlot(w.handlers[h]))
  {
    var r := Reached(grace, steps);
    var w := Run(Init(grace), steps);
    if w.slot.connected {
      assert r.life.Held? || r.life.Connected?;
      assert HoldsSlot(w.handlers[r.life.h]);
    }
  }

  /** The holder's close, or its abort, always gives the slot back. */
  lemma SlotGivenBack(grace: nat, steps: seq<Step>, h: Pid)
    requires ValidRun(Init(grace), steps)
    requires h in Run(Init(grace), steps).handlers
    ensures var w := Run(Init(grace), steps);
            && (w.handlers[h].Closing? ==>
                  var (slot, outcome) := CloseFirst(w.slot, w.handlers[h].id, w.handlers[h].explicit, w.grace);
                  && !slot.connected
                  && outcome == if w.handlers[h].explicit || w.grace == 0 then FinalizeNow else Released)
            && (w.handlers[h].Aborting? ==>
                  AbortPending(w.slot) == w.slot.(sessionID := "", meta := NO_META, connected := false))
  {
    var r := Reached(grace, steps);
  }

  /**
    Between the commit of a session and the end of its finalization no slot is reserved and no
    session is created or committed, every accepted connection resumes that session with the
    committed meta, and once its finalization has begun nothing is accepted.
   */
  lemma LifetimesNeverOverlap(grace: nat, steps: seq<Step>, i: nat, j: nat)
    requires ValidRun(Init(grace), steps)
    requires i < j <= |Trace(Init(grace), steps)|
    requires Trace(Init(grace), steps)[i].LCommit?
    requires var meta := Trace(Init(grace), steps)[i].meta;
             forall k :: i < k < j ==> !Ends(Trace(Init(grace), steps)[k], meta.sessionID)
    ensures var labels := Trace(Init(grace), steps);
            && (forall k :: i < k < j ==> BelongsTo(labels[k], labels[i].meta))
            && (forall m, k :: i < m < k < j && labels[m].LEnd? ==> !labels[k].LResume? && !labels[k].LEnd?)
  {
    var r := Reached(grace, steps);
    OneLifetime(Trace(Init(grace), steps), i, j);
  }

  /** Once a session's finalization is over it is never seen again and never becomes current again. */
  lemma EndedOnce(grace: nat, steps: seq<Step>, i: nat)
    requires ValidRun(Init(grace), steps)
    requires i < |Trace(Init(grace), steps)| && Trace(Init(grace), steps)[i].LEnded?
    ensures var labels := Trace(Init(grace), steps);
            && (forall k :: i < k < |labels| ==> !Mentions(labels[k], labels[i].id))
            && Run(Init(grace), steps).slot.sessionID != labels[i].id
  {
    var r := Reached(grace, steps);
    NeverAgain(Trace(Init(grace), steps), i);
  }

  predicate Settled(w: World) {
    && (forall h <- w.handlers :: !w.handlers[h].Created? && !w.handlers[h].Finalizing?)
    && (forall t <- w.slot.timers :: !w.slot.timers[t].phase.Expiring?)
  }

  /**
    While no Redis command and no final metrics update has failed, and no session step is in
    flight, the session keys are those of the committed session and there are none without one.
   */
  lemma KeysTrackSession(grace: nat, steps: seq<Step>)
    requires ValidRun(Init(grace), steps)
    requires !Run(Init(grace), steps).faulty && Settled(Run(Init(grace), steps))
    ensures var w := Run(Init(grace), steps);
            if w.slot.sessionID == "" || w.slot.sessionID == PENDING
            then w.keys == Keys(None, map[], {})
            else w.keys == Keys(Some(w.slot.sessionID), map[w.slot.sessionID := w.slot.meta], {w.slot.sessionID})
                 && w.slot.meta.sessionID == w.slot.sessionID
  {
    var r := Reached(grace, steps);
  }

  // ---------------------------------------------------------------- dropped timers

  lemma {:induction false} RunSplit(w: World, steps: seq<Step>, i: nat)
    requires ValidRun(w, steps) && i <= |steps|
    ensures ValidRun(w, steps[..i]) && ValidRun(Run(w, steps[..i]), steps[i..])
    ensures Run(w, steps) == Run(Run(w, steps[..i]), steps[i..])
    decreases i
  {
    if i == 0 {
      assert steps[..0] == [] && steps[0..] == steps;
    } else {
      RunSplit(Apply(w, steps[0]), steps[1..], i - 1);
      assert steps[1..][..i - 1] == steps[..i][1..] && steps[1..][i - 1..] == steps[i..];
    }
  }

  lemma StopIsFinal(w: World, st: Step, t: TimerId)
    requires Enabled(w, st) && t in w.slot.timers && w.slot.timers[t].phase == Stopped
    ensures t in Apply(w, st).slot.timers && Apply(w, st).slot.timers[t].phase == Stopped
  {
    hide TryBegin, Commit, AbortPending, CloseFirst, CloseSecond, FinishFirst, FinalizeLast;
    hide IsFreshID, WithSession, WithoutSession;
    SectionsKeepStopped(w.slot, t);
  }

  predicate IsStopped(s: Slot, t: TimerId) {
    t in s.timers && s.timers[t].phase == Stopped
  }

  lemma SectionsKeepStopped(s: Slot, t: TimerId)
    requires IsStopped(s, t)
    ensures IsStopped(TryBegin(s).0, t) && IsStopped(AbortPending(s), t)
    ensures forall meta :: IsStopped(Commit(s, meta), t)
    ensures forall id, explicit, grace :: IsStopped(CloseFirst(s, id, explicit, grace).0, t)
    ensures forall id, new_ :: new_ != t ==> IsStopped(CloseSecond(s, id, new_), t)
    ensures forall id :: IsStopped(FinishFirst(s, id).0, t)
    ensures forall id :: IsStopped(FinalizeLast(s, id), t)
  {
  }

  lemma {:induction false} StoppedStays(w: World, steps: seq<Step>, t: TimerId)
    requires ValidRun(w, steps) && t in w.slot.timers && w.slot.timers[t].phase == Stopped
    ensures t in Run(w, steps).slot.timers && Run(w, steps).slot.timers[t].phase == Stopped
    decreases |steps|
  {
    if steps != [] {
      hide Apply, Enabled;
      StopIsFinal(w, steps[0], t);
      StoppedStays(Apply(w, steps[0]), steps[1..], t);
    }
  }

  /** A step in a section that drops the end timer: an accepted connection, a close, an expiry, or the last section. */
  predicate Drops(w: World, st: Step)
    requires Enabled(w, st)
  {
    match st
    case Connect(_) => w.slot.sessionID != "pending" && !w.slot.connected && !w.slot.closing
    case CloseLock(h) =>
      !IsBlank(w.handlers[h].id) && w.slot.sessionID == w.handlers[h].id && !w.slot.closing
    case TimerLock(t) =>
      && !IsBlank(w.slot.timers[t].sessionID) && w.slot.sessionID == w.slot.timers[t].sessionID
      && !w.slot.connected && !w.slot.closing
    case LastLock(_) => true
    case _ => false
  }

  lemma DropStops(w: World, st: Step, t: TimerId)
    requires Enabled(w, st) && Drops(w, st)
    requires w.slot.endTimer == Some(t) && t in w.slot.timers && w.slot.timers[t].phase == Armed
    ensures t in Apply(w, st).slot.timers && Apply(w, st).slot.timers[t].phase == Stopped
    ensures Apply(w, st).slot.endTimer == None
  {
  }

  /**
    An armed timer that is dropped never fires: after a client has come back within its grace the timer
    that was to end its session stays stopped, and so it does after a close, an expiry and an end.
   */
  lemma DroppedNeverFires(grace: nat, steps: seq<Step>, i: nat, j: nat, t: TimerId)
    requires ValidRun(Init(grace), steps) && i < j <= |steps|
    ensures ValidRun(Init(grace), steps[..i]) && ValidRun(Init(grace), steps[..j])
    ensures var w := Run(Init(grace), steps[..i]);
            && Enabled(w, steps[i])
            && (Drops(w, steps[i]) && w.slot.endTimer == Some(t)
                && t in w.slot.timers && w.slot.timers[t].phase == Armed ==>
                  t in Run(Init(grace), steps[..j]).slot.timers
                  && Run(Init(grace), steps[..j]).slot.timers[t].phase == Stopped)
  {
    hide Drops, Apply, Enabled;
    RunSplit(Init(grace), steps, j);
    RunSplit(Init(grace), steps[..j], i);
    assert steps[..j][..i] == steps[..i] && steps[..j][i..][0] == steps[i];
    var w := Run(Init(grace), steps[..i]);
    if Drops(w, steps[i]) && w.slot.endTimer == Some(t) && t in w.slot.timers && w.slot.timers[t].phase == Armed {
      DropStops(w, steps[i], t);
      StoppedStays(Apply(w, steps[i]), steps[..j][i..][1..], t);
    }
  }

  /**
    But a client that comes back is safe from older timers only if no timer other than the end timer was
    armed.
   */
  lemma NoTimerLeft(w: World, h: Pid)
    requires Enabled(w, Connect(h)) && Drops(w, Connect(h))
    ensures (forall t <- Apply(w, Connect(h)).slot.timers :: Apply(w, Connect(h)).slot.timers[t].phase != Armed)
            <==> forall t <- w.slot.timers :: w.slot.timers[t].phase == Armed ==> w.slot.endTimer == Some(t)
  {
    var after := Apply(w, Connect(h)).slot;
    assert EndTimerStopped(w.slot.timers, w.slot.endTimer, after.timers);
    forall t | t in w.slot.timers
      ensures after.timers[t].phase == Armed <==> w.slot.timers[t].phase == Armed && w.slot.endTimer != Some(t)
    {
    }
  }

  lemma {:induction false} RunJoin(w: World, a: seq<Step>, b: seq<Step>)
    requires ValidRun(w, a) && ValidRun(Run(w, a), b)
    ensures ValidRun(w, a + b) && Run(w, a + b) == Run(Run(w, a), b)
    decreases |a|
  {
    if a == [] {
      assert a + b == b;
    } else {
      assert (a + b)[1..] == a[1..] + b;
      RunJoin(Apply(w, a[0]), a[1..], b);
    }
  }

  lemma TwoSteps(w: World, a: Step, b: Step)
    requires Enabled(w, a) && Enabled(Apply(w, a), b)
    ensures ValidRun(w, [a, b]) && Run(w, [a, b]) == Apply(Apply(w, a), b)
  {
    hide Enabled, Apply;
    LastStep(Apply(w, a), b);
    assert [a, b][1..] == [b];
  }

  lemma LastStep(w: World, st: Step)
    requires Enabled(w, st)
    ensures ValidRun(w, [st]) && Run(w, [st]) == Apply(w, st)
  {
    hide Enabled, Apply;
    assert [st][1..] == [];
  }

  /** A waiting session without end timer. */
  function Alone(meta: SessionMeta, connected: bool): Slot {
    Slot(meta.sessionID, meta, connected, false, None, map[])
  }

  lemma ClientArrives(grace: nat, meta: SessionMeta)
    requires RealID(meta.sessionID)
    ensures ValidRun(Init(grace), [Connect(0), UpgradeOk(0)])
    ensures var w := Run(Init(grace), [Connect(0), UpgradeOk(0)]);
            && ValidRun(w, [CreateOk(0, meta), CommitStep(0)])
            && var w' := Run(w, [CreateOk(0, meta), CommitStep(0)]);
               && w'.slot == Alone(meta, true) && w'.grace == grace && w'.handlers == map[0 := Open(meta)]
  {
    hide ValidRun, Run;
    TwoSteps(Init(grace), Connect(0), UpgradeOk(0));
    TwoSteps(Apply(Apply(Init(grace), Connect(0)), UpgradeOk(0)), CreateOk(0, meta), CommitStep(0));
  }

  lemma ClientDrops(w: World, h: Pid, meta: SessionMeta)
    requires w.slot == Alone(meta, true) && w.grace > 0 && RealID(meta.sessionID)
    requires h in w.handlers && w.handlers[h] == Open(meta)
    ensures ValidRun(w, [Disconnect(h, false), CloseLock(h)])
    ensures var w' := Run(w, [Disconnect(h, false), CloseLock(h)]);
            && w'.slot == Alone(meta, false) && w'.grace == w.grace
            && w'.handlers == w.handlers[h := Gap(meta.sessionID)]
  {
    hide ValidRun, Run;
    TwoSteps(w, Disconnect(h, false), CloseLock(h));
  }

  lemma ClientReturns(w: World, h: Pid, meta: SessionMeta)
    requires w.slot == Alone(meta, false) && RealID(meta.sessionID) && meta.sessionID != "" && h !in w.handlers
    ensures ValidRun(w, [Connect(h), UpgradeOk(h)])
    ensures var w' := Run(w, [Connect(h), UpgradeOk(h)]);
            w'.slot == Alone(meta, true) && w'.grace == w.grace && w'.handlers == w.handlers[h := Open(meta)]
  {
    hide ValidRun, Run;
    TwoSteps(w, Connect(h), UpgradeOk(h));
  }

  lemma BothArm(w: World, meta: SessionMeta)
    requires w.slot == Alone(meta, false)
    requires w.handlers == map[0 := Gap(meta.sessionID), 1 := Gap(meta.sessionID)]
    ensures ValidRun(w, [GapLock(0, 0), GapLock(1, 1)])
    ensures var w' := Run(w, [GapLock(0, 0), GapLock(1, 1)]);
            && w'.slot == Slot(meta.sessionID, meta, false, false, Some(1),
                               map[0 := Timer(meta.sessionID, Armed), 1 := Timer(meta.sessionID, Armed)])
            && 2 !in w'.handlers
  {
    hide ValidRun, Run;
    TwoSteps(w, GapLock(0, 0), GapLock(1, 1));
  }

  /**
    The first client's handler is still between its two sections when the client has come back and gone
    again: both handlers then arm a timer, and the slot remembers only the second.
   */
  function TwoInTheGap(meta: SessionMeta): seq<Step> {
    [Connect(0), UpgradeOk(0)] + ([CreateOk(0, meta), CommitStep(0)] + ([Disconnect(0, false), CloseLock(0)]
    + ([Connect(1), UpgradeOk(1)] + ([Disconnect(1, false), CloseLock(1)] + [GapLock(0, 0), GapLock(1, 1)]))))
  }

  /** A client that comes back then has an armed timer behind it, which will find the session in its next absence. */
  lemma ResumedWithTimer(grace: nat, meta: SessionMeta)
    requires grace > 0 && RealID(meta.sessionID)
    ensures ValidRun(Init(grace), TwoInTheGap(meta))
    ensures var w := Run(Init(grace), TwoInTheGap(meta));
            && Enabled(w, Connect(2)) && TryBegin(w.slot).1 == Resume(meta)
            && var slot := Apply(w, Connect(2)).slot;
               && slot.connected && slot.endTimer == None
               && 0 in slot.timers && slot.timers[0] == Timer(meta.sessionID, Armed)
  {
    hide ValidRun, Run;
    var w0 := Init(grace);
    ClientArrives(grace, meta);
    var w1 := Run(w0, [Connect(0), UpgradeOk(0)]);
    var w2 := Run(w1, [CreateOk(0, meta), CommitStep(0)]);
    ClientDrops(w2, 0, meta);
    var w3 := Run(w2, [Disconnect(0, false), CloseLock(0)]);
    assert meta.sessionID != "";
    ClientReturns(w3, 1, meta);
    var w4 := Run(w3, [Connect(1), UpgradeOk(1)]);
    ClientDrops(w4, 1, meta);
    var w5 := Run(w4, [Disconnect(1, false), CloseLock(1)]);
    BothArm(w5, meta);
    var arm := [GapLock(0, 0), GapLock(1, 1)];
    RunJoin(w4, [Disconnect(1, false), CloseLock(1)], arm);
    RunJoin(w3, [Connect(1), UpgradeOk(1)], [Disconnect(1, false), CloseLock(1)] + arm);
    RunJoin(w2, [Disconnect(0, false), CloseLock(0)],
            [Connect(1), UpgradeOk(1)] + ([Disconnect(1, false), CloseLock(1)] + arm));
    RunJoin(w1, [CreateOk(0, meta), CommitStep(0)],
            [Disconnect(0, false), CloseLock(0)]
            + ([Connect(1), UpgradeOk(1)] + ([Disconnect(1, false), CloseLock(1)] + arm)));
    RunJoin(w0, [Connect(0), UpgradeOk(0)],
            [CreateOk(0, meta), CommitStep(0)] + ([Disconnect(0, false), CloseLock(0)]
            + ([Connect(1), UpgradeOk(1)] + ([Disconnect(1, false), CloseLock(1)] + arm))));
  }
}
