/**
  The session slot of the master service.

  Each section that the source runs under its mutex is one function on the guarded fields; class
  `MasterServer` runs the same sections on mutable fields.
 */
module MasterServer {
  import opened Domain

  const PENDING := "pending"

  type TimerId = nat

  /** Stages of `endSession`, which runs without the mutex between two sections. */
  datatype Stage =
    | Marking                         // slaves are being marked gone
    | Listed                          // the final metrics are written
    | Looked(active: Option<string>)  // the active key has been read
    | Returned                        // endSession is back, the last section is next

  /** A grace timer. `Fired` is a callback that has started but has not entered its first section. */
  datatype TimerPhase = Armed | Fired | Stopped | Expiring(stage: Stage) | Over

  datatype Timer = Timer(sessionID: string, phase: TimerPhase)

  /** The fields guarded by the mutex, with the runtime's timers. */
  datatype Slot = Slot(
    sessionID: string,
    meta: SessionMeta,
    connected: bool,
    closing: bool,
    endTimer: Option<TimerId>,
    timers: map<TimerId, Timer>)

  const EMPTY_SLOT := Slot("", NO_META, false, false, None, map[])

  /** `Stop` keeps an armed timer from firing and does nothing to one that has fired. */
  function Stop(timers: map<TimerId, Timer>, t: Option<TimerId>): map<TimerId, Timer> {
    if t.Some? && t.value in timers && timers[t.value].phase.Armed?
    then timers[t.value := timers[t.value].(phase := Stopped)]
    else timers
  }

  function DropTimer(s: Slot): Slot {
    s.(timers := Stop(s.timers, s.endTimer), endTimer := None)
  }

  /** Of two states of the timers: the end timer has been stopped if it was armed, and no other has changed. */
  predicate EndTimerStopped(before: map<TimerId, Timer>, endTimer: Option<TimerId>, after: map<TimerId, Timer>) {
    && after.Keys == before.Keys
    && forall t <- before ::
         after[t] == if endTimer == Some(t) && before[t].phase == Armed then Timer(before[t].sessionID, Stopped)
                     else before[t]
  }

  datatype Admission = Refuse | Resume(meta: SessionMeta) | Reserve

  function TryBegin(s: Slot): (Slot, Admission) {
    if s.sessionID == PENDING || s.connected || s.closing then
      (s, Refuse)
    else
      var q := DropTimer(s);
      if q.sessionID != "" then
        (q.(connected := true), Resume(q.meta))
      else
        (q.(sessionID := PENDING, connected := true), Reserve)
  }

  function Commit(s: Slot, meta: SessionMeta): Slot {
    s.(sessionID := meta.sessionID, meta := meta, connected := true, closing := false)
  }

  function AbortPending(s: Slot): Slot {
    if s.sessionID == PENDING then s.(sessionID := "", meta := NO_META, connected := false) else s
  }

  datatype CloseOutcome = Aborted | Ignored | FinalizeNow | Released

  /** First section of `handleConnectionClosed`. */
  function CloseFirst(s: Slot, id: string, explicit: bool, grace: nat): (Slot, CloseOutcome) {
    if IsBlank(id) then
      (AbortPending(s), Aborted)
    else if s.sessionID != id || s.closing then
      (s, Ignored)
    else
      var q := DropTimer(s.(connected := false));
      if explicit || grace == 0 then (q.(closing := true), FinalizeNow) else (q, Released)
  }

  /** Second section of `handleConnectionClosed`; `t` is the timer that `AfterFunc` would create. */
  function CloseSecond(s: Slot, id: string, t: TimerId): Slot {
    if s.sessionID != id || s.closing || s.connected then
      s
    else
      s.(endTimer := Some(t), timers := s.timers[t := Timer(id, Armed)])
  }

  /** First section of `finishSession`; true when the session is to be finalized. */
  function FinishFirst(s: Slot, id: string): (Slot, bool) {
    if IsBlank(id) || s.sessionID != id || s.connected || s.closing then
      (s, false)
    else
      (DropTimer(s.(closing := true)), true)
  }

  /** Last section of `finalizeSession`. */
  function FinalizeLast(s: Slot, id: string): Slot {
    var q := DropTimer(s);
    var q := if q.sessionID == id then q.(sessionID := "", meta := NO_META) else q;
    q.(connected := false, closing := false)
  }

  class Server {
    var sessionID: string
    var sessionMeta: SessionMeta
    var clientConnected: bool
    var sessionClosing: bool
    var sessionEndTimer: Option<TimerId>
    var timers: map<TimerId, Timer>
    const sessionDisconnectGracePeriod: nat

    ghost function State(): Slot
      reads this
    {
      Slot(sessionID, sessionMeta, clientConnected, sessionClosing, sessionEndTimer, timers)
    }

    constructor (grace: nat)
      ensures State() == EMPTY_SLOT && sessionDisconnectGracePeriod == grace
    {
      sessionID, sessionMeta := "", NO_META;
      clientConnected, sessionClosing := false, false;
      sessionEndTimer, timers := None, map[];
      sessionDisconnectGracePeriod := grace;
    }

    method StopEndTimer()
      modifies this
      ensures State() == DropTimer(old(State()))
      ensures sessionEndTimer == None && EndTimerStopped(old(timers), old(sessionEndTimer), timers)
    {
      if sessionEndTimer.Some? {
        var t := sessionEndTimer.value;
        if t in timers && timers[t].phase.Armed? {
          timers := timers[t := timers[t].(phase := Stopped)];
        }
        sessionEndTimer := None;
      }
    }

    method TryBeginSessionConnection() returns (meta: SessionMeta, resumed: bool, ok: bool)
      modifies this
      ensures ok <==> old(sessionID) != "pending" && !old(clientConnected) && !old(sessionClosing)
      ensures !ok ==> !resumed && meta == NO_META && State() == old(State())
      ensures ok ==>
                && resumed == (old(sessionID) != "")
                && sessionID == (if resumed then old(sessionID) else "pending") && sessionMeta == old(sessionMeta)
                && meta == (if resumed then old(sessionMeta) else NO_META)
                && clientConnected && !sessionClosing && sessionEndTimer == None
                && EndTimerStopped(old(timers), old(sessionEndTimer), timers)
      ensures State() == TryBegin(old(State())).0
      ensures ok == !TryBegin(old(State())).1.Refuse?
      ensures resumed == TryBegin(old(State())).1.Resume?
      ensures meta == if resumed then TryBegin(old(State())).1.meta else NO_META
    {
      if sessionID == PENDING || clientConnected || sessionClosing {
        return NO_META, false, false;
      }
      StopEndTimer();
      if sessionID != "" {
        clientConnected := true;
        return sessionMeta, true, true;
      }
      sessionID := PENDING;
      clientConnected := true;
      return NO_META, false, true;
    }

    method CommitSession(meta: SessionMeta)
      modifies this
      ensures sessionID == meta.sessionID && sessionMeta == meta && clientConnected && !sessionClosing
      ensures sessionEndTimer == old(sessionEndTimer) && timers == old(timers)
      ensures State() == Commit(old(State()), meta)
    {
      sessionID := meta.sessionID;
      sessionMeta := meta;
      clientConnected := true;
      sessionClosing := false;
    }

    method AbortPendingSession()
      modifies this
      ensures old(sessionID) != "pending" ==> State() == old(State())
      ensures old(sessionID) == "pending" ==>
                && sessionID == "" && sessionMeta == NO_META && !clientConnected
                && sessionClosing == old(sessionClosing)
                && sessionEndTimer == old(sessionEndTimer) && timers == old(timers)
      ensures State() == AbortPending(old(State()))
    {
      if sessionID == PENDING {
        sessionID := "";
        sessionMeta := NO_META;
        clientConnected := false;
      }
    }

    method CloseFirstSection(id: string, explicit: bool) returns (outcome: CloseOutcome)
      modifies this
      ensures IsBlank(id) <==> outcome == Aborted
      ensures outcome == Ignored <==> !IsBlank(id) && (old(sessionID) != id || old(sessionClosing))
      ensures outcome == Ignored ==> State() == old(State())
      ensures outcome == FinalizeNow || outcome == Released ==>
                && (outcome == FinalizeNow <==> explicit || sessionDisconnectGracePeriod == 0)
                && sessionID == id && sessionMeta == old(sessionMeta) && !clientConnected
                && sessionClosing == (outcome == FinalizeNow) && sessionEndTimer == None
                && EndTimerStopped(old(timers), old(sessionEndTimer), timers)
      ensures (State(), outcome) == CloseFirst(old(State()), id, explicit, sessionDisconnectGracePeriod)
    {
      if IsBlank(id) {
        AbortPendingSession();
        return Aborted;
      }
      if sessionID != id || sessionClosing {
        return Ignored;
      }
      clientConnected := false;
      StopEndTimer();
      if explicit || sessionDisconnectGracePeriod == 0 {
        sessionClosing := true;
        return FinalizeNow;
      }
      return Released;
    }

    method CloseSecondSection(id: string, t: TimerId)
      modifies this
      ensures sessionID == old(sessionID) && sessionMeta == old(sessionMeta)
      ensures clientConnected == old(clientConnected) && sessionClosing == old(sessionClosing)
      ensures if old(sessionID) == id && !old(sessionClosing) && !old(clientConnected) then
                sessionEndTimer == Some(t) && timers == old(timers)[t := Timer(id, Armed)]
              else
                sessionEndTimer == old(sessionEndTimer) && timers == old(timers)
      ensures State() == CloseSecond(old(State()), id, t)
    {
      if sessionID != id || sessionClosing || clientConnected {
        return;
      }
      timers := timers[t := Timer(id, Armed)];
      sessionEndTimer := Some(t);
    }

    method FinishFirstSection(id: string) returns (finalize: bool)
      modifies this
      ensures finalize <==> !IsBlank(id) && old(sessionID) == id && !old(clientConnected) && !old(sessionClosing)
      ensures !finalize ==> State() == old(State())
      ensures finalize ==>
                && sessionID == id && sessionMeta == old(sessionMeta) && !clientConnected && sessionClosing
                && sessionEndTimer == None && EndTimerStopped(old(timers), old(sessionEndTimer), timers)
      ensures (State(), finalize) == FinishFirst(old(State()), id)
    {
      if IsBlank(id) || sessionID != id || clientConnected || sessionClosing {
        return false;
      }
      sessionClosing := true;
      StopEndTimer();
      return true;
    }

    method FinalizeLastSection(id: string)
      modifies this
      ensures sessionID == (if old(sessionID) == id then "" else old(sessionID))
      ensures sessionMeta == (if old(sessionID) == id then NO_META else old(sessionMeta))
      ensures !clientConnected && !sessionClosing && sessionEndTimer == None
      ensures EndTimerStopped(old(timers), old(sessionEndTimer), timers)
      ensures State() == FinalizeLast(old(State()), id)
    {
      StopEndTimer();
      if sessionID == id {
        sessionID := "";
        sessionMeta := NO_META;
      }
      clientConnected := false;
      sessionClosing := false;
    }
  }
}
