/**
  The handlers that move slave records and counters, as the services run them against Redis, one
  at a time: registration and event results in the controller, reports and the sweep in the master.
 */
module SlaveHandlers {
  import opened Domain
  import opened RedisKeys
  import opened RedisStore
  import opened SlaveAccounting

  /** A session's records and counters. */
  function BookOf(s: Session): Book
    requires s.metrics.Some?
  {
    Book(s.records, s.metrics.value.liveSlaves, s.metrics.value.goneSlaves)
  }

  lemma RecordIsOwn(keys: Keys, id: string, s: string)
    requires Typed(keys) && IsPlain(id) && s in Records(keys, id)
    ensures Records(keys, id)[s].slaveID == s && Records(keys, id)[s].sessionID == id
  {
    SlaveIDsAreKeyed(keys, id, s);
  }

  lemma BooksAreFiled(keys: Keys, id: string)
    requires Typed(keys) && IsPlain(id) && SessionAt(keys, id).metrics.Some?
    ensures Filed(BookOf(SessionAt(keys, id)))
  {
    forall s | s in Records(keys, id)
      ensures Records(keys, id)[s].slaveID == s
    {
      RecordIsOwn(keys, id, s);
    }
  }

  /** A session id as `uuid.NewString()` draws it. */
  predicate IsSessionID(id: string) {
    IsPlain(id) && !IsBlank(id)
  }

  datatype RegisterError = NoActiveSession | MetricsMissing

  /** A slave becomes terminating or gone that was neither. */
  predicate Ends(previous: SlaveStatus, current: SlaveStatus) {
    previous != Terminating && previous != Gone && (current == Terminating || current == Gone)
  }

  predicate HasLive(s: Session) {
    s.metrics.Some? && s.metrics.value.liveSlaves > 0
  }

  /** The metrics after live and gone slaves have been added, if there are any metrics. */
  predicate Counted(before: Option<SessionMetrics>, after: Option<SessionMetrics>, live: int, gone: int) {
    && (before.Some? <==> after.Some?)
    && (before.Some? ==>
          && after.value.liveSlaves == before.value.liveSlaves + live
          && after.value.goneSlaves == before.value.goneSlaves + gone)
  }

  method RegisterSlave(redis: Client, podName: string, podIP: string, slaveID: string, now: int)
    returns (r: Result<SlaveState, RegisterError>)
    requires redis.Valid()
    requires ActiveAt(redis.keys).Some? ==> IsSessionID(ActiveAt(redis.keys).value)
    modifies redis
    ensures redis.Valid()
    ensures r == Err(NoActiveSession) <==> old(ActiveAt(redis.keys)) == None
    ensures r == Err(NoActiveSession) ==> redis.keys == old(redis.keys)
    ensures old(ActiveAt(redis.keys)).Some? ==>
              var id := old(ActiveAt(redis.keys)).value;
              && (r == Err(MetricsMissing) <==> old(SessionAt(redis.keys, id)).metrics == None)
              && (r.Ok? <==> old(SessionAt(redis.keys, id)).metrics.Some?)
              && (r.Ok? ==>
                    && r.value == SlaveState(id, slaveID, podName, podIP, Live, NoReason)
                    && SessionAt(redis.keys, id).metrics.Some?
                    && BookOf(SessionAt(redis.keys, id)) == Register(BookOf(old(SessionAt(redis.keys, id))), r.value))
              && (r == Err(MetricsMissing) ==>
                    SessionAt(redis.keys, id) ==
                    WithRecord(old(SessionAt(redis.keys, id)), SlaveState(id, slaveID, podName, podIP, Live, NoReason)))
              && OthersKept(old(redis.keys), redis.keys, id)
    ensures old(ActiveAt(redis.keys)).Some? ==>
              var before := old(SessionAt(redis.keys, ActiveAt(redis.keys).value));
              var state := SlaveState(old(ActiveAt(redis.keys)).value, slaveID, podName, podIP, Live, NoReason);
              && Records(redis.keys, state.sessionID) == before.records[slaveID := state]
              && Counted(before.metrics, SessionAt(redis.keys, state.sessionID).metrics, 1, 0)
              && redis.published == old(redis.published) + [state]
    ensures old(ActiveAt(redis.keys)).None? ==> redis.published == old(redis.published)
    ensures ActiveAt(redis.keys) == old(ActiveAt(redis.keys))
  {
    var active := ActiveAt(redis.keys);
    if active.None? {
      return Err(NoActiveSession);
    }
    var id := active.value;
    var state := SlaveState(id, slaveID, podName, podIP, Live, NoReason);
    var published := redis.PublishSlaveState(state);
    var updated := redis.UpdateSessionMetrics(id, (m: SessionMetrics) => m.(liveSlaves := m.liveSlaves + 1), now);
    if updated.Err? {
      return Err(MetricsMissing);
    }
    return Ok(state);
  }

  method ApplySessionMetricsForStateChange(redis: Client, id: string, previous: SlaveState, current: SlaveState,
                                           now: int)
    returns (r: Result<(), StoreError>)
    requires redis.Valid() && IsPlain(id)
    modifies redis`keys
    ensures redis.Valid()
    ensures r.Err? <==> old(SessionAt(redis.keys, id)).metrics == None
                        && !IsTerminal(previous.status) && IsTerminal(current.status)
    ensures r.Err? ==> redis.keys == old(redis.keys)
    ensures old(SessionAt(redis.keys, id)).metrics.Some? ==>
              && SessionAt(redis.keys, id).metrics.Some?
              && BookOf(SessionAt(redis.keys, id)) ==
                 CountChange(BookOf(old(SessionAt(redis.keys, id))), previous.status, current.status)
    ensures Records(redis.keys, id) == old(Records(redis.keys, id))
    ensures var ends := Ends(previous.status, current.status);
            Counted(old(SessionAt(redis.keys, id)).metrics, SessionAt(redis.keys, id).metrics,
                    if ends && HasLive(old(SessionAt(redis.keys, id))) then -1 else 0, if ends then 1 else 0)
    ensures old(SessionAt(redis.keys, id)).metrics.None? ==> redis.keys == old(redis.keys)
    ensures ActiveAt(redis.keys) == old(ActiveAt(redis.keys))
    ensures OthersKept(old(redis.keys), redis.keys, id)
  {
    if IsTerminal(previous.status) || !IsTerminal(current.status) {
      return Ok(());
    }
    var updated := redis.UpdateSessionMetrics(
      id,
      (m: SessionMetrics) =>
        m.(liveSlaves := if m.liveSlaves > 0 then m.liveSlaves - 1 else m.liveSlaves, goneSlaves := m.goneSlaves + 1),
      now);
    r := if updated.Ok? then Ok(()) else Err(NotFound);
  }

  // ---------------------------------------------------------------- event results

  datatype EventError = NoStates | NoTarget | CallFailed | CountFailed

  predicate Answers(state: SlaveState, target: string) {
    state.slaveID == target || state.podName == target || state.podIP == target
  }

  /**
    The record an event is for. A named target is the first that answers to the name; without one
    it is the first that is not gone, or else the first; first by key.
   */
  ghost predicate IsTarget(keys: Keys, id: string, target: string, state: SlaveState) {
    && state.slaveID in Records(keys, id) && Records(keys, id)[state.slaveID] == state
    && var eligible := if target != "" then
                         (s: SlaveState) => s.slaveID == target || s.podName == target || s.podIP == target
                       else if exists s <- Records(keys, id) :: !Records(keys, id)[s].status.Gone?
                       then (s: SlaveState) => !s.status.Gone?
                       else (s: SlaveState) => true;
       && eligible(state)
       && forall s <- Records(keys, id) | eligible(Records(keys, id)[s]) ::
            StrLeq(SlaveKey(id, state.slaveID), SlaveKey(id, s))
  }

  predicate HasTarget(keys: Keys, id: string, target: string) {
    && Records(keys, id) != map[]
    && (target == "" || exists s <- Records(keys, id) ::
          var state := Records(keys, id)[s];
          state.slaveID == target || state.podName == target || state.podIP == target)
  }

  lemma {:induction false} StrReflexive(a: string)
    ensures StrLeq(a, a)
    decreases |a|
  {
    if a != "" {
      StrReflexive(a[1..]);
    }
  }

  /** In a listing by key, whatever comes at `i` or later is no earlier by key. */
  lemma ListedFirst(states: seq<SlaveState>, keys: Keys, id: string, i: nat, s: string)
    requires Lists(states, keys, id) && i < |states| && s in Records(keys, id)
    requires forall j :: 0 <= j < i ==> states[j].slaveID != s
    ensures StrLeq(SlaveKey(id, states[i].slaveID), SlaveKey(id, s))
  {
    var j :| 0 <= j < |states| && states[j].slaveID == s;
    if j == i {
      StrReflexive(SlaveKey(id, s));
    }
  }

  method ResolveTargetSlaveState(redis: Client, id: string, target: string)
    returns (r: Result<SlaveState, EventError>)
    requires redis.Valid() && IsPlain(id)
    ensures r.Ok? ==> IsTarget(redis.keys, id, target, r.value)
    ensures r == Err(NoStates) <==> Records(redis.keys, id) == map[]
    ensures r == Err(NoTarget) <==> Records(redis.keys, id) != map[] && !HasTarget(redis.keys, id, target)
    ensures r.Err? ==> r == Err(NoStates) || r == Err(NoTarget)
  {
    hide Records, Typed, StrLeq, SlaveKey;
    var listed, keys := redis.ListSlaveStates(id);
    var states := listed.value;
    ghost var records := Records(redis.keys, id);
    if |states| == 0 {
      return Err(NoStates);
    }
    assert states[0].slaveID in records;
    for i := 0 to |states|
      invariant forall j :: 0 <= j < i ==>
                  if target == "" then states[j].status.Gone? else !Answers(states[j], target)
    {
      if if target == "" then !states[i].status.Gone? else Answers(states[i], target) {
        forall s | s in records && (if target == "" then !records[s].status.Gone? else Answers(records[s], target))
          ensures StrLeq(SlaveKey(id, states[i].slaveID), SlaveKey(id, s))
        {
          ListedFirst(states, redis.keys, id, i, s);
        }
        return Ok(states[i]);
      }
    }
    forall s | s in records
      ensures exists i :: 0 <= i < |states| && states[i] == records[s]
      ensures StrLeq(SlaveKey(id, states[0].slaveID), SlaveKey(id, s))
    {
      var i :| 0 <= i < |states| && states[i].slaveID == s;
      ListedFirst(states, redis.keys, id, 0, s);
    }
    return if target == "" then Ok(states[0]) else Err(NoTarget);
  }

  /** What the slave behind a record answers to an event. */
  type Answer = SlaveState -> Result<SlaveState, ()>

  /** One pass of the controller's event loop; `previous` is the record found for the target. */
  method ProcessEvent(redis: Client, id: string, target: string, answer: Answer, now: int)
    returns (r: Result<SlaveState, EventError>, ghost previous: SlaveState)
    requires redis.Valid() && IsSessionID(id)
    modifies redis
    ensures redis.Valid() && OthersKept(old(redis.keys), redis.keys, id)
    ensures ActiveAt(redis.keys) == old(ActiveAt(redis.keys))
    ensures r == Err(NoStates) <==> old(Records(redis.keys, id)) == map[]
    ensures r == Err(NoTarget) <==> old(Records(redis.keys, id)) != map[] && !HasTarget(old(redis.keys), id, target)
    ensures HasTarget(old(redis.keys), id, target) ==> IsTarget(old(redis.keys), id, target, previous)
    ensures r == Err(CallFailed) <==> HasTarget(old(redis.keys), id, target) && answer(previous).Err?
    ensures r.Err? && r.error != CountFailed ==> redis.keys == old(redis.keys)
    ensures HasTarget(old(redis.keys), id, target) && answer(previous).Ok? ==>
              var before, state := old(SessionAt(redis.keys, id)), answer(previous).value.(sessionID := id);
              if before.metrics.Some? then
                && r == Ok(state) && SessionAt(redis.keys, id).metrics.Some?
                && BookOf(SessionAt(redis.keys, id)) == Observe(BookOf(before), previous, state)
              else
                && r == (if !IsTerminal(previous.status) && IsTerminal(state.status)
                         then Err(CountFailed) else Ok(state))
                && SessionAt(redis.keys, id) == WithRecord(before, state)
    ensures HasTarget(old(redis.keys), id, target) && answer(previous).Ok? ==>
              var before, state := old(SessionAt(redis.keys, id)), answer(previous).value.(sessionID := id);
              && Records(redis.keys, id) == before.records[state.slaveID := state]
              && Counted(before.metrics, SessionAt(redis.keys, id).metrics,
                         if Ends(previous.status, state.status) && HasLive(before) then -1 else 0,
                         if Ends(previous.status, state.status) then 1 else 0)
              && redis.published == old(redis.published) + [state]
    ensures r.Err? && r.error != CountFailed ==> redis.published == old(redis.published)
  {
    hide Typed, Records, IsTarget, StampMetrics;
    previous := SlaveState("", "", "", "", Unspecified, NoReason);
    var resolved := ResolveTargetSlaveState(redis, id, target);
    if resolved.Err? {
      return Err(resolved.error), previous;
    }
    previous := resolved.value;
    var reply := answer(resolved.value);
    if reply.Err? {
      return Err(CallFailed), previous;
    }
    var state := reply.value.(sessionID := id);
    var published := redis.PublishSlaveState(state);
    var counted := ApplySessionMetricsForStateChange(redis, id, resolved.value, state, now);
    if counted.Err? {
      return Err(CountFailed), previous;
    }
    return Ok(state), previous;
  }

  // ---------------------------------------------------------------- reports from the frontend

  datatype PodMessage = PodMessage(sessionID: string, slaveID: string, status: SlaveStatus, deathReason: DeathReason)

  datatype ReportError =
    SessionMismatch | SlaveIDRequired | UnsupportedStatus | UnsupportedReason | UnknownSlave | NotCounted

  function Objection(m: PodMessage, sessionID: string): Option<ReportError> {
    if m.sessionID != "" && m.sessionID != sessionID then Some(SessionMismatch)
    else if m.slaveID == "" then Some(SlaveIDRequired)
    else if !m.status.Gone? then Some(UnsupportedStatus)
    else if !m.deathReason.PodDown? && !m.deathReason.UserAction? then Some(UnsupportedReason)
    else None
  }

  method HandlePodStateUpdate(redis: Client, sessionID: string, m: PodMessage, now: int)
    returns (r: Result<SlaveState, ReportError>)
    requires redis.Valid() && IsSessionID(sessionID)
    modifies redis
    ensures redis.Valid()
    ensures Objection(m, sessionID).Some? ==> r == Err(Objection(m, sessionID).value)
    ensures Objection(m, sessionID).None? && m.slaveID !in old(Records(redis.keys, sessionID)) ==>
              r == Err(UnknownSlave)
    ensures r.Err? && r.error != NotCounted ==> redis.keys == old(redis.keys)
    ensures Objection(m, sessionID).None? && m.slaveID in old(Records(redis.keys, sessionID)) ==>
              var before := old(SessionAt(redis.keys, sessionID));
              var previous := old(Records(redis.keys, sessionID))[m.slaveID];
              var next := previous.(status := Gone, deathReason := m.deathReason);
              if before.metrics.Some? then
                && r == Ok(next) && SessionAt(redis.keys, sessionID).metrics.Some?
                && BookOf(SessionAt(redis.keys, sessionID)) == Report(BookOf(before), m.slaveID, m.deathReason)
              else
                && r == (if IsTerminal(previous.status) then Ok(next) else Err(NotCounted))
                && SessionAt(redis.keys, sessionID) == WithRecord(before, next)
    ensures r.Ok? ==> (m.sessionID == "" || m.sessionID == sessionID) && m.slaveID != "" && m.status == Gone
    ensures r.Ok? ==> m.deathReason == PodDown || m.deathReason == UserAction
    ensures r == Err(SessionMismatch) <==> m.sessionID != "" && m.sessionID != sessionID
    ensures r == Err(SlaveIDRequired) <==> (m.sessionID == "" || m.sessionID == sessionID) && m.slaveID == ""
    ensures r == Err(UnsupportedStatus) <==>
              (m.sessionID == "" || m.sessionID == sessionID) && m.slaveID != "" && m.status != Gone
    ensures r == Err(UnsupportedReason) <==>
              && (m.sessionID == "" || m.sessionID == sessionID) && m.slaveID != "" && m.status == Gone
              && m.deathReason != PodDown && m.deathReason != UserAction
    ensures r.Ok? || r == Err(NotCounted) ==>
              && m.slaveID in old(Records(redis.keys, sessionID))
              && var before := old(SessionAt(redis.keys, sessionID));
                 var next := before.records[m.slaveID].(status := Gone, deathReason := m.deathReason);
                 var ends := Ends(before.records[m.slaveID].status, Gone);
                 && Records(redis.keys, sessionID) == before.records[m.slaveID := next]
                 && Counted(before.metrics, SessionAt(redis.keys, sessionID).metrics,
                            if ends && HasLive(before) then -1 else 0, if ends then 1 else 0)
                 && redis.published == old(redis.published) + [next]
    ensures r.Err? && r != Err(NotCounted) ==> redis.published == old(redis.published)
    ensures OthersKept(old(redis.keys), redis.keys, sessionID) && ActiveAt(redis.keys) == old(ActiveAt(redis.keys))
  {
    hide Typed, Records, StampMetrics, ActiveAt, MetaAt, MetricsAt;
    if m.sessionID != "" && m.sessionID != sessionID {
      return Err(SessionMismatch);
    }
    if m.slaveID == "" {
      return Err(SlaveIDRequired);
    }
    if !m.status.Gone? {
      return Err(UnsupportedStatus);
    }
    if !m.deathReason.PodDown? && !m.deathReason.UserAction? {
      return Err(UnsupportedReason);
    }
    var found := redis.GetSlaveState(sessionID, m.slaveID);
    if found.Err? {
      return Err(UnknownSlave);
    }
    RecordIsOwn(redis.keys, sessionID, m.slaveID);
    var previous := found.value;
    var next := previous.(status := Gone, deathReason := m.deathReason);
    var published := redis.PublishSlaveState(next);
    var counted := ApplySessionMetricsForStateChange(redis, sessionID, previous, next, now);
    if counted.Err? {
      return Err(NotCounted);
    }
    return Ok(next);
  }

  // ---------------------------------------------------------------- the end of a session

  function MarkedGone(state: SlaveState): SlaveState {
    state.(status := Gone, deathReason := ProcessDown)
  }

  /** The records after the listed slaves have been published as gone, one after the other. */
  function SweptBy(records: map<string, SlaveState>, states: seq<SlaveState>): map<string, SlaveState> {
    if states == [] then records
    else
      var last := states[|states| - 1];
      SweptBy(records, states[..|states| - 1])[last.slaveID := MarkedGone(last)]
  }

  lemma {:induction false} SweptByAt(records: map<string, SlaveState>, states: seq<SlaveState>, s: string)
    requires forall i :: 0 <= i < |states| ==>
                states[i].slaveID in records && records[states[i].slaveID] == states[i]
    ensures SweptBy(records, states).Keys == records.Keys
    ensures s in records && (exists i :: 0 <= i < |states| && states[i].slaveID == s)
            ==> SweptBy(records, states)[s] == MarkedGone(records[s])
    ensures s in records && (forall i :: 0 <= i < |states| ==> states[i].slaveID != s)
            ==> SweptBy(records, states)[s] == records[s]
    decreases |states|
  {
    if states != [] {
      SweptByAt(records, states[..|states| - 1], s);
    }
  }

  lemma SweptByAll(states: seq<SlaveState>, keys: Keys, id: string)
    requires Lists(states, keys, id)
    ensures SweptBy(Records(keys, id), states) == SweepRecords(Records(keys, id))
  {
    hide Records, SweptBy;
    var records := Records(keys, id);
    SweptByAt(records, states, "");
    forall s | s in records
      ensures SweptBy(records, states)[s] == SweepRecords(records)[s]
    {
      SweptByAt(records, states, s);
    }
  }

  /** What the sweep publishes about the slaves that it finds. */
  function AllGone(states: seq<SlaveState>): seq<SlaveState> {
    seq(|states|, i requires 0 <= i < |states| => states[i].(status := Gone, deathReason := ProcessDown))
  }

  method PublishAllGone(redis: Client, id: string, states: seq<SlaveState>)
    requires redis.Valid() && IsSessionID(id)
    requires forall i :: 0 <= i < |states| ==> states[i].sessionID == id
    modifies redis
    ensures redis.Valid()
    ensures redis.published == old(redis.published) + AllGone(states)
    ensures SessionAt(redis.keys, id) ==
            old(SessionAt(redis.keys, id)).(records := SweptBy(old(SessionAt(redis.keys, id)).records, states))
    ensures ActiveAt(redis.keys) == old(ActiveAt(redis.keys)) && OthersKept(old(redis.keys), redis.keys, id)
  {
    ghost var before := SessionAt(redis.keys, id);
    for i := 0 to |states|
      invariant redis.Valid() && redis.published == old(redis.published) + AllGone(states[..i])
      invariant SessionAt(redis.keys, id) == before.(records := SweptBy(before.records, states[..i]))
      invariant ActiveAt(redis.keys) == old(ActiveAt(redis.keys)) && OthersKept(old(redis.keys), redis.keys, id)
    {
      assert states[..i + 1][..i] == states[..i];
      var published := redis.PublishSlaveState(MarkedGone(states[i]));
    }
    assert states[..|states|] == states;
  }

  /** Each slave has been published as gone once, in the order of the listing. */
  ghost predicate Announced(published: seq<SlaveState>, published': seq<SlaveState>, keys: Keys, id: string) {
    && |published'| == |published| + |Records(keys, id)| && published'[..|published|] == published
    && (forall s <- Records(keys, id) ::
          Records(keys, id)[s].(status := Gone, deathReason := ProcessDown) in published'[|published|..])
  }

  lemma SweptMeans(records: map<string, SlaveState>)
    ensures SweepRecords(records).Keys == records.Keys && |SweepRecords(records)| == |records|
    ensures forall s <- records :: SweepRecords(records)[s] == records[s].(status := Gone, deathReason := ProcessDown)
  {
    assert |SweepRecords(records)| == |SweepRecords(records).Keys| && |records| == |records.Keys|;
  }

  lemma ListedAreOwn(states: seq<SlaveState>, keys: Keys, id: string)
    requires Typed(keys) && IsPlain(id) && Lists(states, keys, id)
    ensures forall i :: 0 <= i < |states| ==> states[i].sessionID == id
  {
    forall i | 0 <= i < |states|
      ensures states[i].sessionID == id
    {
      RecordIsOwn(keys, id, states[i].slaveID);
    }
  }

  lemma ListingAnnounced(states: seq<SlaveState>, published: seq<SlaveState>, keys: Keys, id: string)
    requires Lists(states, keys, id)
    ensures Announced(published, published + AllGone(states), keys, id)
  {
    ListingSize(states, keys, id);
    forall s | s in Records(keys, id)
      ensures Records(keys, id)[s].(status := Gone, deathReason := ProcessDown) in AllGone(states)
    {
      var i :| 0 <= i < |states| && states[i].slaveID == s;
      assert AllGone(states)[i] == Records(keys, id)[s].(status := Gone, deathReason := ProcessDown);
    }
    assert (published + AllGone(states))[|published|..] == AllGone(states);
  }

  method MarkAllSlavesGone(redis: Client, id: string, now: int) returns (r: Result<(), StoreError>)
    requires redis.Valid() && IsSessionID(id)
    modifies redis
    ensures redis.Valid()
    ensures r.Err? <==> old(SessionAt(redis.keys, id)).metrics == None
    ensures r.Ok? ==>
              && SessionAt(redis.keys, id).metrics.Some?
              && BookOf(SessionAt(redis.keys, id)) == Sweep(BookOf(old(SessionAt(redis.keys, id))))
    ensures r.Err? ==>
              SessionAt(redis.keys, id) ==
              old(SessionAt(redis.keys, id)).(records := SweepRecords(old(SessionAt(redis.keys, id)).records))
    ensures Records(redis.keys, id).Keys == old(Records(redis.keys, id).Keys)
    ensures forall s <- Records(redis.keys, id) ::
              Records(redis.keys, id)[s] ==
              old(Records(redis.keys, id))[s].(status := Gone, deathReason := ProcessDown)
    ensures r.Ok? ==>
              && SessionAt(redis.keys, id).metrics.value.liveSlaves == 0
              && SessionAt(redis.keys, id).metrics.value.goneSlaves == |Records(redis.keys, id)|
    ensures Announced(old(redis.published), redis.published, old(redis.keys), id)
    ensures ActiveAt(redis.keys) == old(ActiveAt(redis.keys)) && OthersKept(old(redis.keys), redis.keys, id)
  {
    hide Typed, SweptBy, Announced, AllGone, Records, Lists, SweepRecords, ActiveAt, MetaAt, MetricsAt;
    SweptMeans(Records(redis.keys, id));
    var listed, keys := redis.ListSlaveStates(id);
    var states := listed.value;
    ListedAreOwn(states, redis.keys, id);
    SweptByAll(states, redis.keys, id);
    ListingSize(states, redis.keys, id);
    ListingAnnounced(states, redis.published, redis.keys, id);
    PublishAllGone(redis, id, states);
    var updated := redis.UpdateSessionMetrics(
      id, (m: SessionMetrics) => m.(liveSlaves := 0, goneSlaves := |states|), now);
    r := if updated.Ok? then Ok(()) else Err(NotFound);
  }

  lemma {:induction false} SizeOfImage(ids: seq<string>)
    requires Distinct(ids)
    ensures |set s | s in ids| == |ids|
    decreases |ids|
  {
    if ids != [] {
      var last := |ids| - 1;
      SizeOfImage(ids[..last]);
      assert ids == ids[..last] + [ids[last]];
      assert (set s | s in ids) == (set s | s in ids[..last]) + {ids[last]};
    }
  }

  lemma ListingSize(states: seq<SlaveState>, keys: Keys, id: string)
    requires Lists(states, keys, id)
    ensures |states| == |Records(keys, id)|
  {
    var ids := seq(|states|, i requires 0 <= i < |states| => states[i].slaveID);
    SizeOfImage(ids);
    forall s | s in Records(keys, id)
      ensures s in ids
    {
      var i :| 0 <= i < |states| && states[i].slaveID == s;
      assert ids[i] == s;
    }
    assert (set s | s in ids) == Records(keys, id).Keys;
  }

  method EndSession(redis: Client, id: string, now: int) returns (r: Result<(), StoreError>)
    requires redis.Valid() && IsPlain(id)
    modifies redis
    ensures redis.Valid()
    ensures IsBlank(id) ==> r.Ok? && redis.keys == old(redis.keys)
    ensures !IsBlank(id) ==> (r.Err? <==> old(SessionAt(redis.keys, id)).metrics == None)
    ensures !IsBlank(id) && r.Ok? ==>
              && SessionAt(redis.keys, id) == NO_SESSION
              && ActiveAt(redis.keys)
                 == if old(ActiveAt(redis.keys)) == Some(id) then None else old(ActiveAt(redis.keys))
    ensures !IsBlank(id) && r.Err? ==>
              && ActiveAt(redis.keys) == old(ActiveAt(redis.keys))
              && SessionAt(redis.keys, id) ==
                 old(SessionAt(redis.keys, id)).(records := SweepRecords(old(SessionAt(redis.keys, id)).records))
    ensures IsBlank(id) ==> redis.published == old(redis.published)
    ensures !IsBlank(id) ==> Announced(old(redis.published), redis.published, old(redis.keys), id)
    ensures OthersKept(old(redis.keys), redis.keys, id)
  {
    if IsBlank(id) {
      return Ok(());
    }
    r := MarkAllSlavesGone(redis, id, now);
    if r.Err? {
      return r;
    }
    redis.DeleteSession(id);
  }

  // ---------------------------------------------------------------- serial runs

  datatype HandlerCall =
    | Registration(podName: string, podIP: string, slaveID: string)
    | EventResult(target: string, answer: Answer)
    | FrontendReport(message: PodMessage)
    | FinalSweep

  /** The slave ids that the calls register. */
  function Registered(calls: seq<HandlerCall>): seq<string> {
    if calls == [] then []
    else
      var last := calls[|calls| - 1];
      Registered(calls[..|calls| - 1]) + if last.Registration? then [last.slaveID] else []
  }

  /** A slave names the record it is asked about, and does not bring a terminal one back. */
  ghost predicate FairAnswer(call: HandlerCall) {
    call.EventResult? ==>
      forall p: SlaveState :: call.answer(p).Ok? ==>
        && call.answer(p).value.slaveID == p.slaveID
        && (IsTerminal(p.status) ==> IsTerminal(call.answer(p).value.status))
  }

  /** Counters and records of the session in Redis agree. */
  predicate BalancedAt(keys: Keys, id: string) {
    SessionAt(keys, id).metrics.Some? && Balanced(BookOf(SessionAt(keys, id)))
  }

  /** One call of a handler, on a balanced session that is active. */
  method Handle(redis: Client, id: string, call: HandlerCall, now: int)
    requires redis.Valid() && IsSessionID(id) && ActiveAt(redis.keys) == Some(id) && BalancedAt(redis.keys, id)
    requires FairAnswer(call) && (call.Registration? ==> call.slaveID !in Records(redis.keys, id))
    modifies redis
    ensures redis.Valid() && ActiveAt(redis.keys) == Some(id) && BalancedAt(redis.keys, id)
    ensures Records(redis.keys, id).Keys ==
              old(Records(redis.keys, id).Keys) + if call.Registration? then {call.slaveID} else {}
    ensures OthersKept(old(redis.keys), redis.keys, id)
  {
    hide Typed, OthersKept, Balanced, Records, Terminals, NonTerminals, Register, Observe, Report, Sweep, WithRecord;
    hide Counted, Announced, Ends, HasLive;
    ghost var book := BookOf(SessionAt(redis.keys, id));
    BooksAreFiled(redis.keys, id);
    match call
    case Registration(podName, podIP, slaveID) =>
      var r := RegisterSlave(redis, podName, podIP, slaveID, now);
      RegisterBalances(book, r.value);
      RecordsAfter(book, r.value, r.value);
    case EventResult(target, answer) =>
      var r, previous := ProcessEvent(redis, id, target, answer, now);
      if r.Ok? {
        NamedReplyExact(book, previous.slaveID, r.value);
        RecordsAfter(book, previous, r.value);
      }
    case FrontendReport(message) =>
      var r := HandlePodStateUpdate(redis, id, message, now);
      ReportBalances(book, message.slaveID, message.deathReason);
    case FinalSweep =>
      var r := MarkAllSlavesGone(redis, id, now);
      SweepBalances(book);
  }

  /**
    However the handlers are called, one after the other, the counters in Redis say what the records
    in Redis say, and live plus gone is the number of slaves registered.
   */
  method Serve(redis: Client, id: string, calls: seq<HandlerCall>, now: nat -> int)
    requires redis.Valid() && IsSessionID(id) && ActiveAt(redis.keys) == Some(id) && BalancedAt(redis.keys, id)
    requires forall call <- calls :: FairAnswer(call)
    requires Distinct(Registered(calls)) && forall s <- Registered(calls) :: s !in Records(redis.keys, id)
    modifies redis
    ensures redis.Valid() && ActiveAt(redis.keys) == Some(id) && BalancedAt(redis.keys, id)
    ensures var book := BookOf(SessionAt(redis.keys, id));
            book.live + book.gone == |old(Records(redis.keys, id))| + |Registered(calls)|
    ensures OthersKept(old(redis.keys), redis.keys, id)
  {
    hide Typed, Balanced, Records, FairAnswer;
    ghost var known := Records(redis.keys, id).Keys;
    for i := 0 to |calls|
      invariant redis.Valid() && ActiveAt(redis.keys) == Some(id) && BalancedAt(redis.keys, id)
      invariant Records(redis.keys, id).Keys == known + SetOf(Registered(calls[..i]))
      invariant OthersKept(old(redis.keys), redis.keys, id)
    {
      RegisteredStep(calls, i);
      Handle(redis, id, calls[i], now(i));
    }
    assert calls[..|calls|] == calls;
    CountRegistered(known, Registered(calls));
    BookAddsUp(BookOf(SessionAt(redis.keys, id)));
  }

  function SetOf(ids: seq<string>): set<string> {
    set s | s in ids
  }

  lemma {:induction false} RegisteredStep(calls: seq<HandlerCall>, i: nat)
    requires i < |calls| && Distinct(Registered(calls))
    ensures var more := if calls[i].Registration? then {calls[i].slaveID} else {};
            && SetOf(Registered(calls[..i + 1])) == SetOf(Registered(calls[..i])) + more
            && more !! SetOf(Registered(calls[..i])) && more <= SetOf(Registered(calls))
  {
    assert calls[..i + 1][..i] == calls[..i];
    RegisteredPrefix(calls, i + 1);
    var r, n := Registered(calls), |Registered(calls[..i])|;
    if calls[i].Registration? {
      assert r[n] == calls[i].slaveID;
      assert forall k :: 0 <= k < n ==> r[k] == Registered(calls[..i])[k];
    }
  }

  lemma {:induction false} RegisteredPrefix(calls: seq<HandlerCall>, i: nat)
    requires i <= |calls|
    ensures Registered(calls[..i]) <= Registered(calls)
    decreases |calls|
  {
    if i == |calls| {
      assert calls[..i] == calls;
    } else {
      RegisteredPrefix(calls[..|calls| - 1], i);
      assert calls[..|calls| - 1][..i] == calls[..i];
    }
  }

  lemma CountRegistered(known: set<string>, ids: seq<string>)
    requires Distinct(ids) && known !! SetOf(ids)
    ensures |known + SetOf(ids)| == |known| + |ids|
  {
    SizeOfImage(ids);
  }

  lemma BookAddsUp(b: Book)
    requires Balanced(b)
    ensures b.live + b.gone == |b.records.Keys|
  {
    PartsCover(b.records);
    assert |b.records| == |b.records.Keys|;
  }

  /** From its creation on, for a session id that has just been drawn. */
  method ServeNewSession(redis: Client, meta: SessionMeta, calls: seq<HandlerCall>, now: nat -> int)
    requires redis.Valid() && IsSessionID(meta.sessionID) && Records(redis.keys, meta.sessionID) == map[]
    requires forall call <- calls :: FairAnswer(call)
    requires Distinct(Registered(calls))
    modifies redis
    ensures redis.Valid() && BalancedAt(redis.keys, meta.sessionID)
    ensures var book := BookOf(SessionAt(redis.keys, meta.sessionID)); book.live + book.gone == |Registered(calls)|
    ensures OthersKept(old(redis.keys), redis.keys, meta.sessionID)
  {
    hide Typed, FairAnswer;
    var created := redis.CreateSession(meta, now(0));
    SessionBalances([]);
    Serve(redis, meta.sessionID, calls, now);
  }
}
