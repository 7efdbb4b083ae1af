/**
  The reference: one session at a time, each from creation to the end of its finalization.

  The automaton knows nothing of locks, timers or Redis. It allows no `LIgnore`, lets a connection
  be refused only while the slot is taken, and hands out only the meta of the current session.
 */
module SessionLifecycle {
  import opened Domain
  import opened MasterServer
  import opened SessionMachine

  datatype Life =
    | Idle
    | Held(h: Pid, made: Option<SessionMeta>)
    | Connected(meta: SessionMeta, h: Pid)
    | Waiting(meta: SessionMeta)
    | Ending(meta: SessionMeta, actor: Actor)

  /** `known` are the ids of created sessions, `ended` those whose finalization is over, in order. */
  datatype Record = Record(life: Life, known: set<string>, ended: seq<string>)

  const START := Record(Idle, {}, [])

  function Move(r: Record, l: Label): Option<Record> {
    match (l, r.life)
    case (Quiet, _) => Some(r)
    case (LRefuse(_), Held(_, _)) => Some(r)
    case (LRefuse(_), Connected(_, _)) => Some(r)
    case (LRefuse(_), Ending(_, _)) => Some(r)
    case (LReserve(h), Idle) => Some(r.(life := Held(h, None)))
    case (LCreate(h, meta), Held(h', None)) =>
      if h == h' && meta.sessionID !in r.known
      then Some(r.(life := Held(h, Some(meta)), known := r.known + {meta.sessionID})) else None
    case (LCommit(h, meta), Held(h', Some(made))) =>
      if h == h' && meta == made then Some(r.(life := Connected(meta, h))) else None
    case (LGiveUp(h), Held(h', None)) =>
      if h == h' then Some(r.(life := Idle)) else None
    case (LResume(h, meta), Waiting(current)) =>
      if meta == current then Some(r.(life := Connected(meta, h))) else None
    case (LDrop(h), Connected(meta, h')) =>
      if h == h' then Some(r.(life := Waiting(meta))) else None
    case (LEnd(Handler(h), id), Connected(meta, h')) =>
      if h == h' && id == meta.sessionID then Some(r.(life := Ending(meta, Handler(h)))) else None
    case (LEnd(Callback(t), id), Waiting(meta)) =>
      if id == meta.sessionID then Some(r.(life := Ending(meta, Callback(t)))) else None
    case (LEnded(a, id), Ending(meta, actor)) =>
      if a == actor && id == meta.sessionID then Some(Record(Idle, r.known, r.ended + [id])) else None
    case _ => None
  }

  /** The committed session whose finalization is not over. */
  function Current(r: Record): Option<SessionMeta> {
    match r.life
    case Connected(meta, _) => Some(meta)
    case Waiting(meta) => Some(meta)
    case Ending(meta, _) => Some(meta)
    case _ => None
  }

  // ---------------------------------------------------------------- simulation

  predicate HoldsSlot(p: Phase) {
    p.Reserved? || p.Starting? || p.Created? || p.Aborting? || p.Resumed? || p.Open? || p.Closing?
  }

  predicate IsGuard(w: World, id: string, t: TimerId) {
    && t in w.slot.timers && w.slot.timers[t].sessionID == id
    && (w.slot.timers[t].phase.Armed? || w.slot.timers[t].phase.Fired?)
  }

  predicate InGap(w: World, id: string, h: Pid) {
    h in w.handlers && w.handlers[h] == Gap(id)
  }

  /** Something is still due to end the session: a live timer, or a handler about to arm one. */
  ghost predicate Guarded(w: World, id: string) {
    (exists t :: IsGuard(w, id, t)) || (exists h :: InGap(w, id, h))
  }

  predicate RealID(id: string) {
    !IsBlank(id) && id != PENDING
  }

  /** The guarded fields show exactly the automaton's state. */
  ghost predicate SlotShows(w: World, life: Life) {
    var s := w.slot;
    match life
    case Idle => s.sessionID == "" && s.meta == NO_META && !s.connected && !s.closing
    case Held(h, made) =>
      && s.sessionID == PENDING && s.connected && !s.closing
      && h in w.handlers
      && (match made
          case None => w.handlers[h].Reserved? || w.handlers[h].Starting? || w.handlers[h].Aborting?
          case Some(meta) => w.handlers[h] == Created(meta))
    case Connected(meta, h) =>
      && s.sessionID == meta.sessionID && s.meta == meta && s.connected && !s.closing
      && h in w.handlers
      && (|| w.handlers[h] == Resumed(meta) || w.handlers[h] == Open(meta)
          || (w.handlers[h].Closing? && w.handlers[h].id == meta.sessionID))
    case Waiting(meta) =>
      && s.sessionID == meta.sessionID && s.meta == meta && !s.connected && !s.closing
      && Guarded(w, meta.sessionID)
    case Ending(meta, actor) =>
      && s.sessionID == meta.sessionID && s.meta == meta && !s.connected && s.closing
      && IsEnding(w, actor) && EndingID(w, actor) == meta.sessionID
  }

  /** Only the automaton's holder is in a holding phase, and only its finalizer finalizes. */
  predicate OnlyActors(w: World, life: Life) {
    && (forall h <- w.handlers | HoldsSlot(w.handlers[h]) ::
          (life.Held? || life.Connected?) && life.h == h)
    && (forall h <- w.handlers | w.handlers[h].Finalizing? :: life.Ending? && life.actor == Handler(h))
    && (forall t <- w.slot.timers | w.slot.timers[t].phase.Expiring? ::
          life.Ending? && life.actor == Callback(t))
    && (forall h <- w.handlers | w.handlers[h].Gap? :: RealID(w.handlers[h].id))
  }

  /** A referenced end timer belongs to the session that waits. */
  predicate EndTimerBelongs(w: World, life: Life) {
    w.slot.endTimer.Some? ==>
      && life.Waiting? && w.slot.endTimer.value in w.slot.timers
      && w.slot.timers[w.slot.endTimer.value].sessionID == life.meta.sessionID
  }

  predicate IDsKnown(w: World, r: Record) {
    && r.known <= w.used
    && (forall id <- r.ended :: id in r.known && RealID(id))
    && (r.life.Held? && r.life.made.Some? ==>
          RealID(r.life.made.value.sessionID) && r.life.made.value.sessionID in r.known
          && r.life.made.value.sessionID !in r.ended)
    && (Current(r).Some? ==>
          RealID(Current(r).value.sessionID) && Current(r).value.sessionID in r.known
          && Current(r).value.sessionID !in r.ended)
  }

  predicate NoKeys(k: Keys) {
    k == Keys(None, map[], {})
  }

  predicate OnlyKeysOf(k: Keys, meta: SessionMeta) {
    k == Keys(Some(meta.sessionID), map[meta.sessionID := meta], {meta.sessionID})
  }

  predicate KeysShow(w: World, life: Life)
    requires life.Ending? ==> IsEnding(w, life.actor)
  {
    match life
    case Idle => NoKeys(w.keys)
    case Held(_, None) => NoKeys(w.keys)
    case Held(_, Some(meta)) => OnlyKeysOf(w.keys, meta)
    case Connected(meta, _) => OnlyKeysOf(w.keys, meta)
    case Waiting(meta) => OnlyKeysOf(w.keys, meta)
    case Ending(meta, actor) =>
      if EndingStage(w, actor).Returned? then NoKeys(w.keys)
      else OnlyKeysOf(w.keys, meta)
           && (EndingStage(w, actor).Looked? ==> EndingStage(w, actor).active == Some(meta.sessionID))
  }

  ghost predicate Sim(w: World, r: Record) {
    && SlotShows(w, r.life)
    && OnlyActors(w, r.life)
    && EndTimerBelongs(w, r.life)
    && IDsKnown(w, r)
    && (!w.faulty ==> KeysShow(w, r.life))
  }

  lemma InitSim(grace: nat)
    ensures Sim(Init(grace), START)
  {
  }

  /** What one step does: the automaton allows its label, and the two stay in step. */
  ghost predicate Follows(w: World, r: Record, st: Step)
    requires Enabled(w, st)
  {
    Move(r, LabelOf(w, st)).Some? && Sim(Apply(w, st), Move(r, LabelOf(w, st)).value)
  }

  /** The part of it that is about actors. */
  ghost predicate ActorsFollow(w: World, r: Record, st: Step)
    requires Enabled(w, st)
  {
    Move(r, LabelOf(w, st)).Some? ==> OnlyActors(Apply(w, st), Move(r, LabelOf(w, st)).value.life)
  }

  lemma GuardedByTimer(w: World, id: string, t: TimerId)
    requires IsGuard(w, id, t)
    ensures Guarded(w, id)
  {
  }

  lemma GuardedByGap(w: World, id: string, h: Pid)
    requires InGap(w, id, h)
    ensures Guarded(w, id)
  {
  }

  /** A guard of the waiting session survives a step that leaves its timer or its handler alone. */
  lemma GuardSurvives(w: World, w': World, id: string)
    requires Guarded(w, id)
    requires forall t :: IsGuard(w, id, t) ==> IsGuard(w', id, t)
    requires forall h :: InGap(w, id, h) ==> InGap(w', id, h)
    ensures Guarded(w', id)
  {
    if t :| IsGuard(w, id, t) {
      GuardedByTimer(w', id, t);
    } else {
      var h :| InGap(w, id, h);
      GuardedByGap(w', id, h);
    }
  }

  lemma RefuseFollows(w: World, r: Record, h: Pid)
    requires Sim(w, r) && Enabled(w, Connect(h)) && TryBegin(w.slot).1.Refuse?
    ensures Follows(w, r, Connect(h))
  {
    assert !r.life.Idle? && !r.life.Waiting?;
  }

  lemma ReserveFollows(w: World, r: Record, h: Pid)
    requires Sim(w, r) && Enabled(w, Connect(h)) && TryBegin(w.slot).1.Reserve?
    ensures Follows(w, r, Connect(h))
  {
    assert r.life.Idle?;
  }

  lemma ResumeFollows(w: World, r: Record, h: Pid)
    requires Sim(w, r) && Enabled(w, Connect(h)) && TryBegin(w.slot).1.Resume?
    ensures Follows(w, r, Connect(h))
  {
    assert r.life.Waiting?;
  }

  /** A holder in the phase `p` is the automaton's holder. */
  lemma HolderIsActor(w: World, r: Record, h: Pid)
    requires Sim(w, r) && h in w.handlers && HoldsSlot(w.handlers[h])
    ensures (r.life.Held? || r.life.Connected?) && r.life.h == h
  {
  }

  lemma UpgradeOkFollows(w: World, r: Record, h: Pid)
    requires Sim(w, r) && Enabled(w, UpgradeOk(h))
    ensures Follows(w, r, UpgradeOk(h))
  {
    HolderIsActor(w, r, h);
    assert LabelOf(w, UpgradeOk(h)) == Quiet;
  }

  lemma UpgradeFailFollows(w: World, r: Record, h: Pid)
    requires Sim(w, r) && Enabled(w, UpgradeFail(h))
    ensures Follows(w, r, UpgradeFail(h))
  {
    HolderIsActor(w, r, h);
    assert LabelOf(w, UpgradeFail(h)) == Quiet;
  }

  lemma CreateFailFollows(w: World, r: Record, h: Pid, meta: SessionMeta, applied: bool)
    requires Sim(w, r) && Enabled(w, CreateFail(h, meta, applied))
    ensures Follows(w, r, CreateFail(h, meta, applied))
  {
    HolderIsActor(w, r, h);
    assert LabelOf(w, CreateFail(h, meta, applied)) == Quiet;
  }

  lemma DisconnectFollows(w: World, r: Record, h: Pid, explicit: bool)
    requires Sim(w, r) && Enabled(w, Disconnect(h, explicit))
    ensures Follows(w, r, Disconnect(h, explicit))
  {
    HolderIsActor(w, r, h);
    assert LabelOf(w, Disconnect(h, explicit)) == Quiet;
  }

  lemma CreateFollows(w: World, r: Record, h: Pid, meta: SessionMeta)
    requires Sim(w, r) && Enabled(w, CreateOk(h, meta))
    ensures Follows(w, r, CreateOk(h, meta))
  {
  }

  lemma CommitFollows(w: World, r: Record, h: Pid)
    requires Sim(w, r) && Enabled(w, CommitStep(h))
    ensures Follows(w, r, CommitStep(h))
  {
  }

  lemma AbortFollows(w: World, r: Record, h: Pid)
    requires Sim(w, r) && Enabled(w, AbortStep(h))
    ensures Follows(w, r, AbortStep(h))
  {
  }

  /** The holder's close is never ignored: it ends the session at once, or it lets go. */
  lemma CloseReleases(w: World, r: Record, h: Pid)
    requires Sim(w, r) && Enabled(w, CloseLock(h))
    ensures r.life.Connected? && r.life.h == h && w.handlers[h].id == r.life.meta.sessionID
    ensures LabelOf(w, CloseLock(h)) == if w.handlers[h].explicit || w.grace == 0
                                        then LEnd(Handler(h), r.life.meta.sessionID) else LDrop(h)
  {
    HolderIsActor(w, r, h);
  }

  lemma EndNowActors(w: World, r: Record, h: Pid)
    requires Sim(w, r) && Enabled(w, CloseLock(h)) && (w.handlers[h].explicit || w.grace == 0)
    ensures ActorsFollow(w, r, CloseLock(h))
  {
    hide IDsKnown, KeysShow, Guarded;
    CloseReleases(w, r, h);
  }

  lemma EndNowFollows(w: World, r: Record, h: Pid)
    requires Sim(w, r) && Enabled(w, CloseLock(h)) && (w.handlers[h].explicit || w.grace == 0)
    ensures Follows(w, r, CloseLock(h))
  {
    hide OnlyActors;
    EndNowActors(w, r, h);
    CloseReleases(w, r, h);
  }

  lemma DropFollows(w: World, r: Record, h: Pid)
    requires Sim(w, r) && Enabled(w, CloseLock(h)) && !(w.handlers[h].explicit || w.grace == 0)
    ensures Follows(w, r, CloseLock(h))
  {
    CloseReleases(w, r, h);
    GuardedByGap(Apply(w, CloseLock(h)), w.handlers[h].id, h);
  }

  /** The handler in the gap finds its session disconnected and arms the timer. */
  lemma ArmFollows(w: World, r: Record, h: Pid, t: TimerId)
    requires Sim(w, r) && Enabled(w, GapLock(h, t))
    requires r.life.Waiting? && r.life.meta.sessionID == w.handlers[h].id
    ensures Follows(w, r, GapLock(h, t))
  {
    GuardedByTimer(Apply(w, GapLock(h, t)), r.life.meta.sessionID, t);
  }

  lemma LeaveGapActors(w: World, r: Record, h: Pid, t: TimerId)
    requires Sim(w, r) && Enabled(w, GapLock(h, t))
    requires r.life.Waiting? ==> r.life.meta.sessionID != w.handlers[h].id
    ensures CloseSecond(w.slot, w.handlers[h].id, t) == w.slot
    ensures ActorsFollow(w, r, GapLock(h, t))
  {
    hide KeysShow, Guarded;
  }

  /** The handler in the gap finds anything else and does nothing. */
  lemma LeaveGapFollows(w: World, r: Record, h: Pid, t: TimerId)
    requires Sim(w, r) && Enabled(w, GapLock(h, t))
    requires r.life.Waiting? ==> r.life.meta.sessionID != w.handlers[h].id
    ensures Follows(w, r, GapLock(h, t))
  {
    hide OnlyActors;
    LeaveGapActors(w, r, h, t);
    if r.life.Waiting? {
      GuardSurvives(w, Apply(w, GapLock(h, t)), r.life.meta.sessionID);
    }
  }

  lemma FireActors(w: World, r: Record, t: TimerId)
    requires Sim(w, r) && Enabled(w, Fire(t))
    ensures ActorsFollow(w, r, Fire(t))
  {
    hide IDsKnown, KeysShow, Guarded;
  }

  lemma FireFollows(w: World, r: Record, t: TimerId)
    requires Sim(w, r) && Enabled(w, Fire(t))
    ensures Follows(w, r, Fire(t))
  {
    hide OnlyActors;
    FireActors(w, r, t);
    if r.life.Waiting? {
      GuardSurvives(w, Apply(w, Fire(t)), r.life.meta.sessionID);
    }
  }

  lemma ExpiryActors(w: World, r: Record, t: TimerId)
    requires Sim(w, r) && Enabled(w, TimerLock(t)) && FinishFirst(w.slot, w.slot.timers[t].sessionID).1
    ensures ActorsFollow(w, r, TimerLock(t))
  {
    hide IDsKnown, KeysShow, Guarded;
    assert r.life.Waiting?;
  }

  /** A callback that finds its session disconnected ends it. */
  lemma ExpiryFollows(w: World, r: Record, t: TimerId)
    requires Sim(w, r) && Enabled(w, TimerLock(t)) && FinishFirst(w.slot, w.slot.timers[t].sessionID).1
    ensures Follows(w, r, TimerLock(t))
  {
    hide OnlyActors;
    ExpiryActors(w, r, t);
    assert r.life.Waiting?;
    assert LabelOf(w, TimerLock(t)) == LEnd(Callback(t), r.life.meta.sessionID);
  }

  lemma StaleTimerActors(w: World, r: Record, t: TimerId)
    requires Sim(w, r) && Enabled(w, TimerLock(t)) && !FinishFirst(w.slot, w.slot.timers[t].sessionID).1
    ensures ActorsFollow(w, r, TimerLock(t))
  {
    hide IDsKnown, KeysShow, Guarded;
  }

  /** Any other callback leaves the slot alone, and some other guard keeps a waiting session. */
  lemma StaleTimerFollows(w: World, r: Record, t: TimerId)
    requires Sim(w, r) && Enabled(w, TimerLock(t)) && !FinishFirst(w.slot, w.slot.timers[t].sessionID).1
    ensures Follows(w, r, TimerLock(t))
  {
    hide OnlyActors;
    StaleTimerActors(w, r, t);
    assert LabelOf(w, TimerLock(t)) == Quiet;
    if r.life.Waiting? {
      assert w.slot.timers[t].sessionID != r.life.meta.sessionID;
      GuardSurvives(w, Apply(w, TimerLock(t)), r.life.meta.sessionID);
    }
  }

  lemma FinalizerIsActor(w: World, r: Record, a: Actor)
    requires Sim(w, r) && IsEnding(w, a)
    ensures r.life.Ending? && r.life.actor == a && EndingID(w, a) == r.life.meta.sessionID
  {
  }

  lemma MarkFollows(w: World, r: Record, a: Actor)
    requires Sim(w, r) && Enabled(w, MarkGone(a))
    ensures Follows(w, r, MarkGone(a))
  {
    FinalizerIsActor(w, r, a);
    assert LabelOf(w, MarkGone(a)) == Quiet;
  }

  lemma LookActors(w: World, r: Record, a: Actor)
    requires Sim(w, r) && Enabled(w, LookActive(a))
    ensures ActorsFollow(w, r, LookActive(a))
  {
    hide IDsKnown, KeysShow, Guarded;
    FinalizerIsActor(w, r, a);
  }

  lemma LookFollows(w: World, r: Record, a: Actor)
    requires Sim(w, r) && Enabled(w, LookActive(a))
    ensures Follows(w, r, LookActive(a))
  {
    hide OnlyActors;
    LookActors(w, r, a);
    FinalizerIsActor(w, r, a);
    assert LabelOf(w, LookActive(a)) == Quiet;
  }

  lemma EndFailFollows(w: World, r: Record, a: Actor)
    requires Sim(w, r) && Enabled(w, EndFail(a))
    ensures Follows(w, r, EndFail(a))
  {
    FinalizerIsActor(w, r, a);
    assert LabelOf(w, EndFail(a)) == Quiet;
  }

  lemma DeleteFollows(w: World, r: Record, a: Actor)
    requires Sim(w, r) && Enabled(w, DeleteKeys(a))
    ensures Follows(w, r, DeleteKeys(a))
  {
    FinalizerIsActor(w, r, a);
    var w' := Apply(w, DeleteKeys(a));
    if !w.faulty {
      assert NoKeys(w'.keys);
    }
  }

  lemma LastActors(w: World, r: Record, a: Actor)
    requires Sim(w, r) && Enabled(w, LastLock(a))
    ensures ActorsFollow(w, r, LastLock(a))
  {
    hide IDsKnown, KeysShow, Guarded;
    FinalizerIsActor(w, r, a);
  }

  lemma LastFollows(w: World, r: Record, a: Actor)
    requires Sim(w, r) && Enabled(w, LastLock(a))
    ensures Follows(w, r, LastLock(a))
  {
    hide OnlyActors;
    LastActors(w, r, a);
    FinalizerIsActor(w, r, a);
    assert LabelOf(w, LastLock(a)) == LEnded(a, r.life.meta.sessionID);
    assert FinalizeLast(w.slot, r.life.meta.sessionID).sessionID == "";
  }

  lemma StepFollows(w: World, r: Record, st: Step)
    requires Sim(w, r) && Enabled(w, st)
    ensures Follows(w, r, st)
  {
    hide Sim, Follows;
    match st
    case Connect(h) =>
      if TryBegin(w.slot).1.Refuse? {
        RefuseFollows(w, r, h);
      } else if TryBegin(w.slot).1.Resume? {
        ResumeFollows(w, r, h);
      } else {
        ReserveFollows(w, r, h);
      }
    case CreateOk(h, meta) => CreateFollows(w, r, h, meta);
    case CommitStep(h) => CommitFollows(w, r, h);
    case AbortStep(h) => AbortFollows(w, r, h);
    case CloseLock(h) =>
      if w.handlers[h].explicit || w.grace == 0 {
        EndNowFollows(w, r, h);
      } else {
        DropFollows(w, r, h);
      }
    case GapLock(h, t) =>
      if r.life.Waiting? && r.life.meta.sessionID == w.handlers[h].id {
        ArmFollows(w, r, h, t);
      } else {
        LeaveGapFollows(w, r, h, t);
      }
    case Fire(t) => FireFollows(w, r, t);
    case TimerLock(t) =>
      if FinishFirst(w.slot, w.slot.timers[t].sessionID).1 {
        ExpiryFollows(w, r, t);
      } else {
        StaleTimerFollows(w, r, t);
      }
    case LastLock(a) => LastFollows(w, r, a);
    case DeleteKeys(a) => DeleteFollows(w, r, a);
    case MarkGone(a) => MarkFollows(w, r, a);
    case LookActive(a) => LookFollows(w, r, a);
    case EndFail(a) => EndFailFollows(w, r, a);
    case UpgradeOk(h) => UpgradeOkFollows(w, r, h);
    case UpgradeFail(h) => UpgradeFailFollows(w, r, h);
    case CreateFail(h, meta, applied) => CreateFailFollows(w, r, h, meta, applied);
    case Disconnect(h, explicit) => DisconnectFollows(w, r, h, explicit);
  }
}
