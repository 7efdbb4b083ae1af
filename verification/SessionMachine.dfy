/**
  Every interleaving of websocket handlers, grace timers and finalizers over one `Slot` and the
  session keys in Redis. One step is one mutex section, one Redis command, or one event of the
  outside world.
 */
module SessionMachine {
  import opened Domain
  import opened MasterServer

  type Pid = nat

  datatype Phase =
    | Reserved                           // fresh slot, websocket upgrade not done
    | Starting                           // upgraded, session not created
    | Created(meta: SessionMeta)         // session in Redis, commit is next
    | Aborting                           // abortPendingSession is next
    | Resumed(meta: SessionMeta)         // resumed, websocket upgrade not done
    | Open(meta: SessionMeta)
    | Closing(id: string, explicit: bool)  // handleConnectionClosed is next
    | Gap(id: string)                    // between the two sections of handleConnectionClosed
    | Finalizing(id: string, stage: Stage)
    | Finished

  /** The session keys: the active pointer, the metas, and the sessions that have a metrics key. */
  datatype Keys = Keys(active: Option<string>, metas: map<string, SessionMeta>, metrics: set<string>)

  /**
    `used` holds every session id drawn so far and `faulty` records that some Redis command or the
    final metrics update has failed.
   */
  datatype World = World(
    slot: Slot,
    grace: nat,
    handlers: map<Pid, Phase>,
    keys: Keys,
    used: set<string>,
    faulty: bool)

  function Init(grace: nat): World {
    World(EMPTY_SLOT, grace, map[], Keys(None, map[], {}), {}, false)
  }

  /** Who runs `finalizeSession`: a handler, or the callback of a timer. */
  datatype Actor = Handler(h: Pid) | Callback(t: TimerId)

  datatype Step =
    | Connect(h: Pid)
    | UpgradeOk(h: Pid)
    | UpgradeFail(h: Pid)
    | CreateOk(h: Pid, meta: SessionMeta)
    | CreateFail(h: Pid, meta: SessionMeta, applied: bool)
    | CommitStep(h: Pid)
    | AbortStep(h: Pid)
    | Disconnect(h: Pid, explicit: bool)
    | CloseLock(h: Pid)
    | GapLock(h: Pid, t: TimerId)
    | Fire(t: TimerId)
    | TimerLock(t: TimerId)
    | MarkGone(a: Actor)
    | LookActive(a: Actor)
    | DeleteKeys(a: Actor)
    | EndFail(a: Actor)
    | LastLock(a: Actor)

  // ---------------------------------------------------------------- finalizers

  predicate IsEnding(w: World, a: Actor) {
    match a
    case Handler(h) => h in w.handlers && w.handlers[h].Finalizing?
    case Callback(t) => t in w.slot.timers && w.slot.timers[t].phase.Expiring?
  }

  function EndingID(w: World, a: Actor): string
    requires IsEnding(w, a)
  {
    match a
    case Handler(h) => w.handlers[h].id
    case Callback(t) => w.slot.timers[t].sessionID
  }

  function EndingStage(w: World, a: Actor): Stage
    requires IsEnding(w, a)
  {
    match a
    case Handler(h) => w.handlers[h].stage
    case Callback(t) => w.slot.timers[t].phase.stage
  }

  function SetPhase(w: World, h: Pid, p: Phase): World {
    w.(handlers := w.handlers[h := p])
  }

  function SetStage(w: World, a: Actor, stage: Stage): World
    requires IsEnding(w, a)
  {
    match a
    case Handler(h) => SetPhase(w, h, Finalizing(w.handlers[h].id, stage))
    case Callback(t) =>
      w.(slot := w.slot.(timers := w.slot.timers[t := w.slot.timers[t].(phase := Expiring(stage))]))
  }

  function Retire(w: World, a: Actor): World
    requires IsEnding(w, a)
  {
    match a
    case Handler(h) => SetPhase(w, h, Finished)
    case Callback(t) =>
      w.(slot := w.slot.(timers := w.slot.timers[t := w.slot.timers[t].(phase := Over)]))
  }

  // ---------------------------------------------------------------- steps

  function WithSession(k: Keys, meta: SessionMeta): Keys {
    Keys(Some(meta.sessionID), k.metas[meta.sessionID := meta], k.metrics + {meta.sessionID})
  }

  function WithoutSession(k: Keys, id: string, looked: Option<string>): Keys {
    Keys(if looked == Some(id) then None else k.active, k.metas - {id}, k.metrics - {id})
  }

  /** `uuid.NewString()` is not blank, is not the word for a pending slot, and was never drawn before. */
  predicate IsFreshID(w: World, id: string) {
    !IsBlank(id) && id != PENDING && id !in w.used
  }

  predicate Enabled(w: World, st: Step) {
    match st
    case Connect(h) => h !in w.handlers
    case UpgradeOk(h) => h in w.handlers && (w.handlers[h].Reserved? || w.handlers[h].Resumed?)
    case UpgradeFail(h) => h in w.handlers && (w.handlers[h].Reserved? || w.handlers[h].Resumed?)
    case CreateOk(h, meta) => h in w.handlers && w.handlers[h].Starting? && IsFreshID(w, meta.sessionID)
    case CreateFail(h, meta, _) => h in w.handlers && w.handlers[h].Starting? && IsFreshID(w, meta.sessionID)
    case CommitStep(h) => h in w.handlers && w.handlers[h].Created?
    case AbortStep(h) => h in w.handlers && w.handlers[h].Aborting?
    case Disconnect(h, _) => h in w.handlers && w.handlers[h].Open?
    case CloseLock(h) => h in w.handlers && w.handlers[h].Closing?
    case GapLock(h, t) => h in w.handlers && w.handlers[h].Gap? && t !in w.slot.timers
    case Fire(t) => t in w.slot.timers && w.slot.timers[t].phase.Armed?
    case TimerLock(t) => t in w.slot.timers && w.slot.timers[t].phase.Fired?
    case MarkGone(a) => IsEnding(w, a) && EndingStage(w, a).Marking?
    case LookActive(a) => IsEnding(w, a) && EndingStage(w, a).Listed?
    case DeleteKeys(a) => IsEnding(w, a) && EndingStage(w, a).Looked?
    case EndFail(a) => IsEnding(w, a) && !EndingStage(w, a).Returned?
    case LastLock(a) => IsEnding(w, a) && EndingStage(w, a).Returned?
  }

  function Apply(w: World, st: Step): World
    requires Enabled(w, st)
  {
    match st
    case Connect(h) =>
      var (slot, admission) := TryBegin(w.slot);
      var p := match admission
               case Refuse => Finished
               case Resume(meta) => Resumed(meta)
               case Reserve => Reserved;
      SetPhase(w.(slot := slot), h, p)
    case UpgradeOk(h) =>
      SetPhase(w, h, if w.handlers[h].Reserved? then Starting else Open(w.handlers[h].meta))
    case UpgradeFail(h) =>
      SetPhase(w, h, if w.handlers[h].Reserved? then Aborting
                     else Closing(w.handlers[h].meta.sessionID, false))
    case CreateOk(h, meta) =>
      SetPhase(w.(keys := WithSession(w.keys, meta), used := w.used + {meta.sessionID}), h, Created(meta))
    case CreateFail(h, meta, applied) =>
      SetPhase(w.(keys := if applied then WithSession(w.keys, meta) else w.keys,
                  used := w.used + {meta.sessionID}, faulty := true), h, Aborting)
    case CommitStep(h) =>
      var meta := w.handlers[h].meta;
      SetPhase(w.(slot := Commit(w.slot, meta)), h, Open(meta))
    case AbortStep(h) =>
      SetPhase(w.(slot := AbortPending(w.slot)), h, Finished)
    case Disconnect(h, explicit) =>
      SetPhase(w, h, Closing(w.handlers[h].meta.sessionID, explicit))
    case CloseLock(h) =>
      var Closing(id, explicit) := w.handlers[h];
      var (slot, outcome) := CloseFirst(w.slot, id, explicit, w.grace);
      var p := match outcome
               case FinalizeNow => Finalizing(id, Marking)
               case Released => Gap(id)
               case _ => Finished;
      SetPhase(w.(slot := slot), h, p)
    case GapLock(h, t) =>
      SetPhase(w.(slot := CloseSecond(w.slot, w.handlers[h].id, t)), h, Finished)
    case Fire(t) =>
      w.(slot := w.slot.(timers := w.slot.timers[t := w.slot.timers[t].(phase := Fired)]))
    case TimerLock(t) =>
      var (slot, finalize) := FinishFirst(w.slot, w.slot.timers[t].sessionID);
      var p := if finalize then Expiring(Marking) else Over;
      w.(slot := slot.(timers := slot.timers[t := Timer(w.slot.timers[t].sessionID, p)]))
    case MarkGone(a) => SetStage(w, a, Listed)
    case LookActive(a) => SetStage(w, a, Looked(w.keys.active))
    case DeleteKeys(a) =>
      SetStage(w.(keys := WithoutSession(w.keys, EndingID(w, a), EndingStage(w, a).active)), a, Returned)
    case EndFail(a) => SetStage(w.(faulty := true), a, Returned)
    case LastLock(a) => Retire(w.(slot := FinalizeLast(w.slot, EndingID(w, a))), a)
  }

  predicate ValidRun(w: World, steps: seq<Step>)
    decreases |steps|
  {
    steps == [] || (Enabled(w, steps[0]) && ValidRun(Apply(w, steps[0]), steps[1..]))
  }

  function Run(w: World, steps: seq<Step>): World
    requires ValidRun(w, steps)
    decreases |steps|
  {
    if steps == [] then w else Run(Apply(w, steps[0]), steps[1..])
  }

  // ---------------------------------------------------------------- what an observer sees

  datatype Label =
    | Quiet
    | LRefuse(h: Pid)
    | LReserve(h: Pid)
    | LResume(h: Pid, meta: SessionMeta)
    | LCreate(h: Pid, meta: SessionMeta)
    | LCommit(h: Pid, meta: SessionMeta)
    | LGiveUp(h: Pid)
    | LDrop(h: Pid)
    | LIgnore(h: Pid)                     // a close or an abort that changes nothing
    | LEnd(a: Actor, id: string)          // finalization begins
    | LEnded(a: Actor, id: string)        // finalization is over

  function LabelOf(w: World, st: Step): Label
    requires Enabled(w, st)
  {
    match st
    case Connect(h) =>
      (match TryBegin(w.slot).1
       case Refuse => LRefuse(h)
       case Resume(meta) => LResume(h, meta)
       case Reserve => LReserve(h))
    case CreateOk(h, meta) => LCreate(h, meta)
    case CommitStep(h) => LCommit(h, w.handlers[h].meta)
    case AbortStep(h) => if AbortPending(w.slot) == w.slot then LIgnore(h) else LGiveUp(h)
    case CloseLock(h) =>
      (match CloseFirst(w.slot, w.handlers[h].id, w.handlers[h].explicit, w.grace).1
       case FinalizeNow => LEnd(Handler(h), w.handlers[h].id)
       case Released => LDrop(h)
       case _ => LIgnore(h))
    case TimerLock(t) =>
      if FinishFirst(w.slot, w.slot.timers[t].sessionID).1
      then LEnd(Callback(t), w.slot.timers[t].sessionID) else Quiet
    case LastLock(a) => LEnded(a, EndingID(w, a))
    case _ => Quiet
  }
}
