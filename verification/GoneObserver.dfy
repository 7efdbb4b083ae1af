/**
  The controller watches the states channel and asks a slave to shut down when it sees its pod
  become gone.
 */
module GoneObserver {
  import opened Domain
  import RedisKeys
  import opened SlaveService

  function KeyOf(s: SlaveState): string {
    s.sessionID + ":" + s.slaveID
  }

  predicate IsGoneTransition(previous: SlaveStatus, current: SlaveStatus) {
    !previous.Gone? && current.Gone?
  }

  /** The status last remembered under a key; the zero record's when there is none. */
  function Remembered(states: map<string, SlaveState>, key: string): SlaveStatus {
    if key in states then states[key].status else Unspecified
  }

  /** What one message dispatches. */
  function Dispatch(states: map<string, SlaveState>, s: SlaveState): seq<SlaveState> {
    if IsGoneTransition(Remembered(states, KeyOf(s)), s.status) && s.podIP != "" then [s] else []
  }

  /** The store after the messages; one that fails to decode is skipped. */
  function Store(messages: seq<Option<SlaveState>>): map<string, SlaveState> {
    if messages == [] then map[]
    else
      var last := messages[|messages| - 1];
      var before := Store(messages[..|messages| - 1]);
      if last.None? then before else before[KeyOf(last.value) := last.value]
  }

  /** The shutdown requests that the messages dispatch, in order. */
  function Dispatched(messages: seq<Option<SlaveState>>): seq<SlaveState> {
    if messages == [] then []
    else
      var last := messages[|messages| - 1];
      var before := messages[..|messages| - 1];
      Dispatched(before) + (if last.None? then [] else Dispatch(Store(before), last.value))
  }

  // ---------------------------------------------------------------- one slave's view

  /** A slave's own messages. */
  function Own(messages: seq<Option<SlaveState>>, key: string): seq<SlaveState> {
    if messages == [] then []
    else
      var last := messages[|messages| - 1];
      Own(messages[..|messages| - 1], key) + (if last.Some? && KeyOf(last.value) == key then [last.value] else [])
  }

  function OfKey(requests: seq<SlaveState>, key: string): seq<SlaveState> {
    if requests == [] then []
    else
      var last := requests[|requests| - 1];
      OfKey(requests[..|requests| - 1], key) + (if KeyOf(last) == key then [last] else [])
  }

  /** The messages of a sequence that enter Gone; a first message that is Gone counts. */
  function Entries(own: seq<SlaveState>): seq<SlaveState> {
    if own == [] then []
    else
      var last := own[|own| - 1];
      var before := own[..|own| - 1];
      var was := if before == [] then Unspecified else before[|before| - 1].status;
      Entries(before) + (if IsGoneTransition(was, last.status) && last.podIP != "" then [last] else [])
  }

  lemma {:induction false} StoreHoldsLastOwn(messages: seq<Option<SlaveState>>, key: string)
    ensures var own := Own(messages, key);
            && (key in Store(messages) <==> own != [])
            && (own != [] ==> Store(messages)[key] == own[|own| - 1])
    decreases |messages|
  {
    if messages != [] {
      StoreHoldsLastOwn(messages[..|messages| - 1], key);
    }
  }

  lemma OfKeyAppend(requests: seq<SlaveState>, s: SlaveState, key: string)
    ensures OfKey(requests + [s], key) == OfKey(requests, key) + (if KeyOf(s) == key then [s] else [])
  {
    assert (requests + [s])[..|requests|] == requests;
  }

  /** The status a slave last had in its own messages. */
  function LastStatus(own: seq<SlaveState>): SlaveStatus {
    if own == [] then Unspecified else own[|own| - 1].status
  }

  lemma EntriesAppend(own: seq<SlaveState>, s: SlaveState)
    ensures Entries(own + [s]) ==
            Entries(own) + (if IsGoneTransition(LastStatus(own), s.status) && s.podIP != "" then [s] else [])
  {
    assert (own + [s])[..|own|] == own;
  }

  /** One more message, for this slave or for another. */
  lemma DispatchOne(states: map<string, SlaveState>, requests: seq<SlaveState>, own: seq<SlaveState>, s: SlaveState,
                    key: string)
    requires OfKey(requests, key) == Entries(own)
    requires KeyOf(s) == key ==> Remembered(states, key) == LastStatus(own)
    ensures OfKey(requests + Dispatch(states, s), key) == Entries(own + (if KeyOf(s) == key then [s] else []))
  {
    if Dispatch(states, s) == [] {
      assert requests + Dispatch(states, s) == requests;
    } else {
      OfKeyAppend(requests, s, key);
    }
    if KeyOf(s) == key {
      EntriesAppend(own, s);
    } else {
      assert own + [] == own;
    }
  }

  /**
    The shutdowns dispatched for a slave are exactly the entries into Gone of its own messages, so
    they do not depend on how those are interleaved with the messages of other slaves.
   */
  lemma {:induction false} DispatchedAreEntries(messages: seq<Option<SlaveState>>, key: string)
    ensures OfKey(Dispatched(messages), key) == Entries(Own(messages, key))
    decreases |messages|
  {
    if messages != [] {
      var last := messages[|messages| - 1];
      var before := messages[..|messages| - 1];
      DispatchedAreEntries(before, key);
      StoreHoldsLastOwn(before, key);
      if last.Some? {
        DispatchOne(Store(before), Dispatched(before), Own(before, key), last.value, key);
      } else {
        assert Dispatched(before) + [] == Dispatched(before) && Own(before, key) + [] == Own(before, key);
      }
    }
  }

  // ---------------------------------------------------------------- which messages those are

  /** The message at `i` says that the pod is gone, the one before did not, and it has a pod address. */
  predicate BecomesGone(own: seq<SlaveState>, i: nat)
    requires i < |own|
  {
    own[i].status == Gone && own[i].podIP != "" && (i == 0 || own[i - 1].status != Gone)
  }

  /** `at` are the positions in increasing order, and `requests` the messages there. */
  ghost predicate Picks(own: seq<SlaveState>, requests: seq<SlaveState>, at: seq<nat>) {
    && |at| == |requests|
    && Increasing(at)
    && (forall k :: 0 <= k < |at| ==> at[k] < |own| && requests[k] == own[at[k]])
    && (forall i: nat :: i < |own| ==> (i in at <==> BecomesGone(own, i)))
  }

  function Positions(own: seq<SlaveState>): seq<nat> {
    if own == [] then []
    else
      var last := |own| - 1;
      Positions(own[..last]) + if BecomesGone(own, last) then [last] else []
  }

  lemma {:induction false} EntriesArePicked(own: seq<SlaveState>)
    ensures Picks(own, Entries(own), Positions(own))
    decreases |own|
  {
    if own != [] {
      var last := |own| - 1;
      var before := own[..last];
      EntriesArePicked(before);
      assert forall i: nat :: i < last ==> (BecomesGone(own, i) <==> BecomesGone(before, i));
      assert last > 0 ==> before[|before| - 1] == own[last - 1];
      forall k | 0 <= k < |Positions(before)|
        ensures Positions(before)[k] < last
      {
        assert Positions(before)[k] in Positions(before);
      }
      assert forall i: nat :: i in Positions(own) <==> i in Positions(before) || (i == last && BecomesGone(own, last));
    }
  }

  /** The shutdowns sent for a slave are its own messages at exactly the positions where its pod becomes gone. */
  lemma RequestsArePicked(messages: seq<Option<SlaveState>>, key: string)
    ensures Picks(Own(messages, key), OfKey(Dispatched(messages), key), Positions(Own(messages, key)))
    ensures |OfKey(Dispatched(messages), key)| ==
            |set i: nat | i < |Own(messages, key)| && BecomesGone(Own(messages, key), i)|
  {
    var own := Own(messages, key);
    DispatchedAreEntries(messages, key);
    EntriesArePicked(own);
    IncreasingCount(Positions(own));
    assert Members(Positions(own)) == set i: nat | i < |own| && BecomesGone(own, i);
  }

  predicate Increasing(at: seq<nat>) {
    forall j, k :: 0 <= j < k < |at| ==> at[j] < at[k]
  }

  function Members(at: seq<nat>): set<nat> {
    set i | i in at
  }

  lemma {:induction false} IncreasingCount(at: seq<nat>)
    requires Increasing(at)
    ensures |Members(at)| == |at|
    decreases |at|
  {
    if at != [] {
      var last := |at| - 1;
      IncreasingCount(at[..last]);
      OneMoreMember(at);
    }
  }

  lemma OneMoreMember(at: seq<nat>)
    requires Increasing(at) && at != []
    ensures var last := |at| - 1;
            Members(at) == Members(at[..last]) + {at[last]} && at[last] !in Members(at[..last])
  {
    assert at == at[..|at| - 1] + [at[|at| - 1]];
  }

  /** For session ids without a colon the store never mixes up two slaves. */
  lemma KeyNamesSlave(a: SlaveState, b: SlaveState)
    requires ':' !in a.sessionID && ':' !in b.sessionID && KeyOf(a) == KeyOf(b)
    ensures a.sessionID == b.sessionID && a.slaveID == b.slaveID
  {
    RedisKeys.CutAtColon(a.sessionID, a.slaveID, b.sessionID, b.slaveID);
  }

  /** What the slave's callback has been started with after these shutdown requests. */
  function Callbacks(requests: seq<SlaveState>, hasCallback: bool): seq<DeathReason> {
    if hasCallback && requests != [] then [requests[0].deathReason] else []
  }

  /** The shutdown requests that are dialled to an address. */
  function SentTo(requests: seq<SlaveState>, address: string): seq<SlaveState> {
    if requests == [] then []
    else
      var last := requests[|requests| - 1];
      SentTo(requests[..|requests| - 1], address) + (if last.podIP == address then [last] else [])
  }

  lemma {:induction false} SentIsOfKey(requests: seq<SlaveState>, key: string, address: string)
    requires forall r <- requests :: r.podIP == address <==> KeyOf(r) == key
    ensures SentTo(requests, address) == OfKey(requests, key)
    decreases |requests|
  {
    if requests != [] {
      SentIsOfKey(requests[..|requests| - 1], key, address);
    }
  }

  /** While an address is one slave's alone, what is sent there are that slave's entries into gone. */
  lemma SentAreEntries(messages: seq<Option<SlaveState>>, key: string, address: string)
    requires forall r <- Dispatched(messages) :: r.podIP == address <==> KeyOf(r) == key
    ensures SentTo(Dispatched(messages), address) == Entries(Own(messages, key))
  {
    SentIsOfKey(Dispatched(messages), key, address);
    DispatchedAreEntries(messages, key);
  }

  // ---------------------------------------------------------------- the running services

  class ObservedStateStore {
    var states: map<string, SlaveState>

    constructor ()
      ensures states == map[]
    {
      states := map[];
    }

    method Remember(state: SlaveState) returns (previous: Option<SlaveState>)
      modifies this
      ensures states == old(states)[KeyOf(state) := state]
      ensures previous == if KeyOf(state) in old(states) then Some(old(states)[KeyOf(state)]) else None
    {
      var key := KeyOf(state);
      previous := if key in states then Some(states[key]) else None;
      states := states[key := state];
    }
  }

  /**
    The subscription loop over a whole sequence of messages. `slave` is the process at `address`; what is
    dialled to other addresses goes elsewhere.
   */
  method SubscribeStateUpdates(messages: seq<Option<SlaveState>>, store: ObservedStateStore, address: string,
                               slave: Service)
    returns (dispatched: seq<SlaveState>)
    requires store.states == map[] && !slave.shutdownDone && slave.callbacks == []
    modifies store, slave`shutdownDone, slave`callbacks
    ensures store.states == Store(messages) && dispatched == Dispatched(messages)
    ensures forall key :: Picks(Own(messages, key), OfKey(dispatched, key), Positions(Own(messages, key)))
    ensures slave.callbacks == Callbacks(SentTo(dispatched, address), slave.onShutdown)
  {
    hide Picks;
    dispatched := [];
    for i := 0 to |messages|
      invariant store.states == Store(messages[..i]) && dispatched == Dispatched(messages[..i])
      invariant slave.callbacks == Callbacks(SentTo(dispatched, address), slave.onShutdown)
      invariant slave.shutdownDone == (slave.callbacks != [])
    {
      assert messages[..i + 1][..i] == messages[..i];
      if messages[i].Some? {
        var state := messages[i].value;
        var previous := store.Remember(state);
        var was := if previous.Some? then previous.value.status else Unspecified;
        if IsGoneTransition(was, state.status) && state.podIP != "" {
          assert (dispatched + [state])[..|dispatched|] == dispatched;
          dispatched := dispatched + [state];
          if state.podIP == address {
            slave.Shutdown(state.deathReason);
          }
        }
      }
    }
    assert messages[..|messages|] == messages;
    forall key
      ensures Picks(Own(messages, key), OfKey(dispatched, key), Positions(Own(messages, key)))
    {
      RequestsArePicked(messages, key);
    }
  }
}
