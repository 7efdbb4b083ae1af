/**
  The Redis client on its flat key space, one command at a time, and the sessions that the keys
  spell out.
 */
module RedisStore {
  import opened Domain
  import opened RedisKeys

  /** A stored string: a bare session id, or one of the JSON records. */
  datatype Value =
    | Text(text: string)
    | MetaValue(meta: SessionMeta)
    | MetricsValue(metrics: SessionMetrics)
    | SlaveValue(state: SlaveState)

  type Keys = map<string, Value>

  datatype StoreError = SessionIDRequired | NotFound | DecodeFailed

  // ---------------------------------------------------------------- decoding

  /** The records are JSON objects that share `session_id`, so each kind decodes as any other. */
  function DecodeSlave(v: Value): Option<SlaveState> {
    match v
    case Text(_) => None
    case SlaveValue(state) => Some(state)
    case MetaValue(meta) => Some(SlaveState(meta.sessionID, "", "", "", Unspecified, NoReason))
    case MetricsValue(metrics) => Some(SlaveState(metrics.sessionID, "", "", "", Unspecified, NoReason))
  }

  function DecodeMetrics(v: Value): Option<SessionMetrics> {
    match v
    case Text(_) => None
    case SlaveValue(state) => Some(SessionMetrics(state.sessionID, 0, 0, 0))
    case MetaValue(meta) => Some(SessionMetrics(meta.sessionID, 0, 0, 0))
    case MetricsValue(metrics) => Some(metrics)
  }

  // ---------------------------------------------------------------- the sessions in the keys

  function ActiveAt(keys: Keys): Option<string> {
    if ACTIVE_KEY in keys && keys[ACTIVE_KEY].Text? then Some(keys[ACTIVE_KEY].text) else None
  }

  function MetaAt(keys: Keys, id: string): Option<SessionMeta> {
    if MetaKey(id) in keys && keys[MetaKey(id)].MetaValue? then Some(keys[MetaKey(id)].meta) else None
  }

  function MetricsAt(keys: Keys, id: string): Option<SessionMetrics> {
    if MetricsKey(id) in keys && keys[MetricsKey(id)].MetricsValue?
    then Some(keys[MetricsKey(id)].metrics) else None
  }

  /** The slave keys of a session, as KEYS returns them. */
  function SlaveKeys(keys: Keys, id: string): set<string> {
    set k <- keys | Matches(SlavePattern(id), k)
  }

  function SlaveIDs(keys: Keys, id: string): set<string> {
    set k <- keys | SlavePrefix(id) <= k :: k[|SlavePrefix(id)|..]
  }

  function RecordAt(keys: Keys, id: string, slaveID: string): SlaveState
    requires SlaveKey(id, slaveID) in keys && keys[SlaveKey(id, slaveID)].SlaveValue?
  {
    keys[SlaveKey(id, slaveID)].state
  }

  /** The slave records of a session by slave id. */
  function Records(keys: Keys, id: string): map<string, SlaveState> {
    map s <- SlaveIDs(keys, id)
      | SlaveKey(id, s) in keys && keys[SlaveKey(id, s)].SlaveValue? :: RecordAt(keys, id, s)
  }

  lemma SlaveIDsAreKeyed(keys: Keys, id: string, s: string)
    ensures s in SlaveIDs(keys, id) <==> SlaveKey(id, s) in keys
    ensures s in Records(keys, id) <==> SlaveKey(id, s) in keys && keys[SlaveKey(id, s)].SlaveValue?
    ensures s in Records(keys, id) ==> Records(keys, id)[s] == RecordAt(keys, id, s)
  {
    if SlaveKey(id, s) in keys {
      assert SlaveKey(id, s)[|SlavePrefix(id)|..] == s;
    }
    if s in SlaveIDs(keys, id) {
      var k :| k in keys && SlavePrefix(id) <= k && s == k[|SlavePrefix(id)|..];
      assert k == SlaveKey(id, s);
    }
  }

  /** Every key of a plain session holds the kind of value that its name says. */
  ghost predicate Typed(keys: Keys) {
    && (ACTIVE_KEY in keys ==> keys[ACTIVE_KEY].Text?)
    && (forall id: string :: IsPlain(id) && MetaKey(id) in keys ==> keys[MetaKey(id)].MetaValue?)
    && (forall id: string :: IsPlain(id) && MetricsKey(id) in keys ==> keys[MetricsKey(id)].MetricsValue?)
    && (forall id: string, s: string :: IsPlain(id) && SlaveKey(id, s) in keys ==>
          && keys[SlaveKey(id, s)].SlaveValue?
          && keys[SlaveKey(id, s)].state.sessionID == id && keys[SlaveKey(id, s)].state.slaveID == s)
  }

  /** All that the keys say of one session. */
  datatype Session = Session(
    meta: Option<SessionMeta>,
    metrics: Option<SessionMetrics>,
    records: map<string, SlaveState>)

  const NO_SESSION := Session(None, None, map[])

  function SessionAt(keys: Keys, id: string): Session {
    Session(MetaAt(keys, id), MetricsAt(keys, id), Records(keys, id))
  }

  /** Every session but one is as it was. */
  ghost predicate OthersKept(keys: Keys, keys': Keys, id: string) {
    forall x: string :: IsPlain(x) && x != id ==> SessionAt(keys', x) == SessionAt(keys, x)
  }

  lemma SameRecords(keys: Keys, keys': Keys, id: string)
    requires forall s :: SlaveKey(id, s) in keys <==> SlaveKey(id, s) in keys'
    requires forall s :: SlaveKey(id, s) in keys ==> keys'[SlaveKey(id, s)] == keys[SlaveKey(id, s)]
    ensures Records(keys, id) == Records(keys', id)
  {
    forall s
      ensures s in Records(keys, id) <==> s in Records(keys', id)
      ensures s in Records(keys, id) ==> Records(keys, id)[s] == Records(keys', id)[s]
    {
      SlaveIDsAreKeyed(keys, id, s);
      SlaveIDsAreKeyed(keys', id, s);
    }
  }

  // ---------------------------------------------------------------- single writes

  function WithRecord(s: Session, state: SlaveState): Session {
    s.(records := s.records[state.slaveID := state])
  }

  lemma SlaveWriteTyped(keys: Keys, state: SlaveState)
    requires Typed(keys) && IsPlain(state.sessionID)
    ensures Typed(keys[SlaveKey(state.sessionID, state.slaveID) := SlaveValue(state)])
  {
    var x, t := state.sessionID, state.slaveID;
    var keys' := keys[SlaveKey(x, t) := SlaveValue(state)];
    forall id: string | IsPlain(id)
      ensures MetaKey(id) in keys' ==> keys'[MetaKey(id)].MetaValue?
      ensures MetricsKey(id) in keys' ==> keys'[MetricsKey(id)].MetricsValue?
    {
      KeysDistinct(id, x, "", t);
      KeysDistinct(x, id, t, "");
    }
    forall id: string, s: string | IsPlain(id) && SlaveKey(id, s) in keys'
      ensures keys'[SlaveKey(id, s)].SlaveValue?
      ensures keys'[SlaveKey(id, s)].state.sessionID == id && keys'[SlaveKey(id, s)].state.slaveID == s
    {
      KeysDistinct(id, x, s, t);
      KeysDistinct(x, id, t, s);
    }
    KeysDistinct(x, x, t, t);
  }

  /** Writing one slave record changes that record of that session and nothing else. */
  lemma SetSlave(keys: Keys, state: SlaveState)
    requires Typed(keys) && IsPlain(state.sessionID)
    ensures var keys' := keys[SlaveKey(state.sessionID, state.slaveID) := SlaveValue(state)];
            && Typed(keys') && ActiveAt(keys') == ActiveAt(keys)
            && SessionAt(keys', state.sessionID) == WithRecord(SessionAt(keys, state.sessionID), state)
            && OthersKept(keys, keys', state.sessionID)
  {
    hide Typed;
    var x, t := state.sessionID, state.slaveID;
    var keys' := keys[SlaveKey(x, t) := SlaveValue(state)];
    SlaveWriteTyped(keys, state);
    KeysDistinct(x, x, t, t);
    forall id: string | IsPlain(id) && id != x
      ensures SessionAt(keys', id) == SessionAt(keys, id)
    {
      KeysDistinct(id, x, t, t);
      forall s: string
        ensures SlaveKey(id, s) != SlaveKey(x, t)
      {
        KeysDistinct(id, x, s, t);
      }
      SameRecords(keys, keys', id);
    }
    forall s
      ensures s in Records(keys', x) <==> s in Records(keys, x)[t := state]
      ensures s in Records(keys', x) ==> Records(keys', x)[s] == Records(keys, x)[t := state][s]
    {
      SlaveIDsAreKeyed(keys, x, s);
      SlaveIDsAreKeyed(keys', x, s);
      KeysDistinct(x, x, s, t);
    }
  }

  lemma MetricsWriteTyped(keys: Keys, x: string, metrics: SessionMetrics)
    requires Typed(keys) && IsPlain(x)
    ensures Typed(keys[MetricsKey(x) := MetricsValue(metrics)])
  {
    var keys' := keys[MetricsKey(x) := MetricsValue(metrics)];
    forall id: string | IsPlain(id)
      ensures MetaKey(id) in keys' ==> keys'[MetaKey(id)].MetaValue?
      ensures MetricsKey(id) in keys' ==> keys'[MetricsKey(id)].MetricsValue?
    {
      KeysDistinct(id, x, "", "");
      KeysDistinct(x, id, "", "");
    }
    forall id: string, s: string | IsPlain(id) && SlaveKey(id, s) in keys'
      ensures keys'[SlaveKey(id, s)].SlaveValue?
      ensures keys'[SlaveKey(id, s)].state.sessionID == id && keys'[SlaveKey(id, s)].state.slaveID == s
    {
      KeysDistinct(id, x, s, "");
      KeysDistinct(x, id, "", s);
    }
    KeysDistinct(x, x, "", "");
  }

  lemma SetMetrics(keys: Keys, x: string, metrics: SessionMetrics)
    requires Typed(keys) && IsPlain(x)
    ensures var keys' := keys[MetricsKey(x) := MetricsValue(metrics)];
            && Typed(keys') && ActiveAt(keys') == ActiveAt(keys)
            && SessionAt(keys', x) == SessionAt(keys, x).(metrics := Some(metrics))
            && OthersKept(keys, keys', x)
  {
    hide Typed;
    MetricsWriteTyped(keys, x, metrics);
    var keys' := keys[MetricsKey(x) := MetricsValue(metrics)];
    KeysDistinct(x, x, "", "");
    forall id: string | IsPlain(id)
      ensures MetaAt(keys', id) == MetaAt(keys, id) && Records(keys', id) == Records(keys, id)
      ensures id != x ==> MetricsAt(keys', id) == MetricsAt(keys, id)
    {
      KeysDistinct(id, x, "", "");
      forall s: string
        ensures SlaveKey(id, s) != MetricsKey(x)
      {
        KeysDistinct(id, x, s, s);
        KeysDistinct(x, id, s, s);
      }
      KeysDistinct(x, id, "", "");
      SameRecords(keys, keys', id);
    }
  }

  lemma MetaWriteTyped(keys: Keys, x: string, meta: SessionMeta)
    requires Typed(keys) && IsPlain(x)
    ensures Typed(keys[MetaKey(x) := MetaValue(meta)])
  {
    var keys' := keys[MetaKey(x) := MetaValue(meta)];
    forall id: string | IsPlain(id)
      ensures MetaKey(id) in keys' ==> keys'[MetaKey(id)].MetaValue?
      ensures MetricsKey(id) in keys' ==> keys'[MetricsKey(id)].MetricsValue?
    {
      KeysDistinct(id, x, "", "");
      KeysDistinct(x, id, "", "");
    }
    forall id: string, s: string | IsPlain(id) && SlaveKey(id, s) in keys'
      ensures keys'[SlaveKey(id, s)].SlaveValue?
      ensures keys'[SlaveKey(id, s)].state.sessionID == id && keys'[SlaveKey(id, s)].state.slaveID == s
    {
      KeysDistinct(id, x, s, "");
      KeysDistinct(x, id, "", s);
    }
    KeysDistinct(x, x, "", "");
  }

  lemma SetMeta(keys: Keys, x: string, meta: SessionMeta)
    requires Typed(keys) && IsPlain(x)
    ensures var keys' := keys[MetaKey(x) := MetaValue(meta)];
            && Typed(keys') && ActiveAt(keys') == ActiveAt(keys)
            && SessionAt(keys', x) == SessionAt(keys, x).(meta := Some(meta))
            && OthersKept(keys, keys', x)
  {
    hide Typed;
    MetaWriteTyped(keys, x, meta);
    var keys' := keys[MetaKey(x) := MetaValue(meta)];
    KeysDistinct(x, x, "", "");
    forall id: string | IsPlain(id)
      ensures MetricsAt(keys', id) == MetricsAt(keys, id) && Records(keys', id) == Records(keys, id)
      ensures id != x ==> MetaAt(keys', id) == MetaAt(keys, id)
    {
      KeysDistinct(id, x, "", "");
      forall s: string
        ensures SlaveKey(id, s) != MetaKey(x)
      {
        KeysDistinct(id, x, s, s);
        KeysDistinct(x, id, s, s);
      }
      KeysDistinct(x, id, "", "");
      SameRecords(keys, keys', id);
    }
  }

  lemma SetActive(keys: Keys, x: string)
    requires Typed(keys)
    ensures var keys' := keys[ACTIVE_KEY := Text(x)];
            && Typed(keys') && ActiveAt(keys') == Some(x)
            && forall id: string :: IsPlain(id) ==> SessionAt(keys', id) == SessionAt(keys, id)
  {
    var keys' := keys[ACTIVE_KEY := Text(x)];
    forall id: string, s: string | IsPlain(id)
      ensures MetaKey(id) != ACTIVE_KEY && MetricsKey(id) != ACTIVE_KEY && SlaveKey(id, s) != ACTIVE_KEY
    {
      KeysDistinct(id, id, s, s);
    }
    forall id: string | IsPlain(id)
      ensures SessionAt(keys', id) == SessionAt(keys, id)
    {
      SameRecords(keys, keys', id);
    }
  }

  /** The keys that the pipeline of `DeleteSession` deletes. */
  function Doomed(keys: Keys, x: string): set<string> {
    (if ActiveAt(keys) == Some(x) then {ACTIVE_KEY} else {}) + {MetaKey(x), MetricsKey(x)} + SlaveKeys(keys, x)
  }

  /** Deleting a session leaves nothing of it behind and touches no other session. */
  lemma DropSession(keys: Keys, x: string)
    requires Typed(keys) && IsPlain(x)
    ensures var keys' := keys - Doomed(keys, x);
            && Typed(keys')
            && ActiveAt(keys') == (if ActiveAt(keys) == Some(x) then None else ActiveAt(keys))
            && SessionAt(keys', x) == NO_SESSION && OthersKept(keys, keys', x)
  {
    var keys' := keys - Doomed(keys, x);
    forall k
      ensures k in SlaveKeys(keys, x) <==> k in keys && SlavePrefix(x) <= k
    {
      PatternFindsSlaves(x, k);
    }
    forall id: string | IsPlain(id) && id != x
      ensures SessionAt(keys', id) == SessionAt(keys, id)
    {
      NotSwept(keys, x, id, "");
      forall s: string
        ensures SlaveKey(id, s) !in Doomed(keys, x)
      {
        NotSwept(keys, x, id, s);
      }
      SameRecords(keys, keys', id);
    }
    forall s
      ensures s !in Records(keys', x)
    {
      SlaveIDsAreKeyed(keys', x, s);
      assert SlavePrefix(x) <= SlaveKey(x, s);
    }
    assert ACTIVE_KEY !in SlaveKeys(keys, x) && ACTIVE_KEY != MetaKey(x) && ACTIVE_KEY != MetricsKey(x) by {
      NotSwept(keys, x, x, "");
      KeysDistinct(x, x, "", "");
    }
  }

  lemma NotSwept(keys: Keys, x: string, id: string, s: string)
    requires IsPlain(x) && IsPlain(id)
    ensures MetaKey(id) !in SlaveKeys(keys, x) && MetricsKey(id) !in SlaveKeys(keys, x)
    ensures ACTIVE_KEY !in SlaveKeys(keys, x)
    ensures id != x ==> MetaKey(id) !in Doomed(keys, x) && MetricsKey(id) !in Doomed(keys, x)
                        && SlaveKey(id, s) !in Doomed(keys, x)
  {
    forall k | k in SlaveKeys(keys, x)
      ensures k != MetaKey(id) && k != MetricsKey(id) && k != ACTIVE_KEY
      ensures k == SlaveKey(id, s) ==> id == x
    {
      PatternFindsSlaves(x, k);
      var t := k[|SlavePrefix(x)|..];
      assert k == SlaveKey(x, t);
      KeysDistinct(id, x, s, t);
      KeysDistinct(x, id, t, s);
    }
    KeysDistinct(id, x, s, s);
    KeysDistinct(x, id, s, s);
  }

  // ---------------------------------------------------------------- sort.Strings

  predicate StrLeq(a: string, b: string) {
    a == "" || (b != "" && (a[0] < b[0] || (a[0] == b[0] && StrLeq(a[1..], b[1..]))))
  }

  lemma {:induction false} StrTotal(a: string, b: string)
    ensures StrLeq(a, b) || StrLeq(b, a)
    decreases |a|
  {
    if a != "" && b != "" {
      StrTotal(a[1..], b[1..]);
    }
  }

  /** The first difference of the two is at `i`, and there the first is smaller. */
  predicate Smaller(a: string, b: string, i: int) {
    0 <= i < |a| && i < |b| && a[..i] == b[..i] && a[i] < b[i]
  }

  /** Lexicographic order: the one begins the other, or is smaller at the first difference. */
  lemma {:induction false} StrLeqMeans(a: string, b: string)
    ensures StrLeq(a, b) <==> a <= b || exists i :: Smaller(a, b, i)
    decreases |a|
  {
    if a != "" && b != "" {
      if a[0] == b[0] {
        StrLeqMeans(a[1..], b[1..]);
        SmallerRest(a, b);
      } else {
        assert a[0] < b[0] ==> Smaller(a, b, 0);
        forall i
          ensures Smaller(a, b, i) ==> i <= 0
        {
          SameStart(a, b, i);
        }
      }
    }
  }

  lemma SameStart(a: string, b: string, i: int)
    ensures Smaller(a, b, i) && i > 0 ==> a[0] == b[0]
  {
    if Smaller(a, b, i) && i > 0 {
      assert a[0] == a[..i][0] == b[..i][0] == b[0];
    }
  }

  lemma SmallerRest(a: string, b: string)
    requires a != "" && b != "" && a[0] == b[0]
    ensures a <= b <==> a[1..] <= b[1..]
    ensures (exists i :: Smaller(a, b, i)) <==> exists i :: Smaller(a[1..], b[1..], i)
  {
    var s, t := a[1..], b[1..];
    assert a == [a[0]] + s && b == [b[0]] + t;
    forall i | Smaller(s, t, i)
      ensures Smaller(a, b, i + 1)
    {
      assert a[..i + 1] == [a[0]] + s[..i] && b[..i + 1] == [b[0]] + t[..i];
    }
    forall i | Smaller(a, b, i)
      ensures i > 0 && Smaller(s, t, i - 1)
    {
      assert i > 0;
      assert s[..i - 1] == a[..i][1..] && t[..i - 1] == b[..i][1..];
    }
  }

  lemma {:induction false} StrTransitive(a: string, b: string, c: string)
    requires StrLeq(a, b) && StrLeq(b, c)
    ensures StrLeq(a, c)
    decreases |a|
  {
    if a != "" && a[0] == b[0] && b[0] == c[0] {
      StrTransitive(a[1..], b[1..], c[1..]);
    }
  }

  predicate Sorted(s: seq<string>) {
    forall i, j :: 0 <= i < j < |s| ==> StrLeq(s[i], s[j])
  }

  predicate Distinct(s: seq<string>) {
    forall i, j :: 0 <= i < j < |s| ==> s[i] != s[j]
  }

  /** Insertion into a sorted sequence. */
  method Insert(s: seq<string>, k: string) returns (r: seq<string>)
    requires Sorted(s) && Distinct(s) && k !in s
    ensures Sorted(r) && Distinct(r)
    ensures forall x :: x in r <==> x in s || x == k
  {
    var i := 0;
    while i < |s| && StrLeq(s[i], k)
      invariant i <= |s|
      invariant forall j :: 0 <= j < i ==> StrLeq(s[j], k)
    {
      i := i + 1;
    }
    forall j | i <= j < |s|
      ensures StrLeq(k, s[j])
    {
      StrTotal(k, s[i]);
      if i < j {
        StrTransitive(k, s[i], s[j]);
      }
    }
    r := s[..i] + [k] + s[i..];
  }

  method SortedKeys(ks: set<string>) returns (r: seq<string>)
    ensures Sorted(r) && Distinct(r)
    ensures forall x :: x in r <==> x in ks
  {
    r := [];
    var rest := ks;
    while rest != {}
      invariant rest <= ks && Sorted(r) && Distinct(r)
      invariant forall x :: x in r <==> x in ks - rest
      decreases rest
    {
      var k :| k in rest;
      r := Insert(r, k);
      rest := rest - {k};
    }
  }

  // ---------------------------------------------------------------- the client

  /** `states` lists the records of the session once each, by ascending key. */
  ghost predicate Lists(states: seq<SlaveState>, keys: Keys, id: string) {
    && (forall i :: 0 <= i < |states| ==>
          states[i].slaveID in Records(keys, id) && Records(keys, id)[states[i].slaveID] == states[i])
    && (forall s <- Records(keys, id) :: exists i :: 0 <= i < |states| && states[i].slaveID == s)
    && (forall i, j :: 0 <= i < j < |states| ==>
          states[i].slaveID != states[j].slaveID
          && StrLeq(SlaveKey(id, states[i].slaveID), SlaveKey(id, states[j].slaveID)))
  }

  /** What the transaction of `CreateSession` writes. */
  function Created(keys: Keys, meta: SessionMeta): Keys {
    var id := meta.sessionID;
    keys[MetaKey(id) := MetaValue(meta)]
        [MetricsKey(id) := MetricsValue(SessionMetrics(id, 0, 0, meta.startedAt))][ACTIVE_KEY := Text(id)]
  }

  /** The session that `CreateSession` leaves. */
  function NewSession(meta: SessionMeta, records: map<string, SlaveState>): Session {
    Session(Some(meta), Some(SessionMetrics(meta.sessionID, 0, 0, meta.startedAt)), records)
  }

  lemma CreatedSession(keys: Keys, meta: SessionMeta)
    requires Typed(keys) && IsPlain(meta.sessionID)
    ensures var keys' := Created(keys, meta);
            && Typed(keys') && ActiveAt(keys') == Some(meta.sessionID)
            && SessionAt(keys', meta.sessionID) == NewSession(meta, Records(keys, meta.sessionID))
            && OthersKept(keys, keys', meta.sessionID)
  {
    hide Typed;
    var id, metrics := meta.sessionID, SessionMetrics(meta.sessionID, 0, 0, meta.startedAt);
    SetMeta(keys, id, meta);
    var k1 := keys[MetaKey(id) := MetaValue(meta)];
    SetMetrics(k1, id, metrics);
    SetActive(k1[MetricsKey(id) := MetricsValue(metrics)], id);
  }

  /** A key that the deletion of a literal id deletes is one of its session, or the active key. */
  lemma DoomedIsOwn(keys: Keys, a: string, key: string)
    requires IsLiteral(a)
    ensures key in SlaveKeys(keys, a) <==> key in keys && SlavePrefix(a) <= key
    ensures key in Doomed(keys, a) ==> key == ACTIVE_KEY || IsKeyOf(a, key)
  {
    LiteralThenStar(SlavePrefix(a), key);
  }

  lemma ActiveIsNobodys(id: string)
    ensures !IsKeyOf(id, ACTIVE_KEY)
  {
    KeyForms(id, "");
    ActiveIsNoKey(id, "meta");
    ActiveIsNoKey(id, "metrics");
    forall s
      ensures SlaveKey(id, s) != ACTIVE_KEY
    {
      KeyForms(id, s);
      ActiveIsNoKey(id, "slave:" + s);
    }
    PrefixedIsSlaveKey(id, ACTIVE_KEY);
  }

  /** Deleting one session can delete a key of another if and only if one id is nested in the other. */
  lemma DeletionReaches(a: string, b: string)
    requires a != b && IsLiteral(a)
    ensures (exists keys: Keys, key :: key in Doomed(keys, a) && IsKeyOf(b, key)) <==> Nested(a, b) || Nested(b, a)
  {
    hide IsKeyOf, Nested, Doomed, IsLiteral;
    SessionsShareKey(a, b);
    forall keys: Keys, key | key in Doomed(keys, a) && IsKeyOf(b, key)
      ensures Nested(a, b) || Nested(b, a)
    {
      DoomedIsOwn(keys, a, key);
      ActiveIsNobodys(b);
    }
    var keys: Keys := map[MetaKey(b) := Text("")];
    MetaDeleted(keys, a, b);
  }

  /** The meta key of the longer id goes with the shorter one, and the other way round. */
  lemma MetaDeleted(keys: Keys, a: string, b: string)
    requires a != b && IsLiteral(a) && MetaKey(b) in keys
    ensures Nested(a, b) ==> MetaKey(b) in Doomed(keys, a) && IsKeyOf(b, MetaKey(b))
    ensures Nested(b, a) ==> MetaKey(a) in Doomed(keys, a) && IsKeyOf(b, MetaKey(a))
  {
    hide Nested;
    KeyForms(a, "");
    KeyForms(b, "");
    PrefixOfOther(a, b, "meta");
    PrefixOfOther(b, a, "meta");
    DoomedIsOwn(keys, a, MetaKey(b));
  }

  /**
    What is deleted then: everything of the session whose id is nested in the deleted one; and if the
    deleted one is nested in the other, only slave keys of the other, all those of the deleted session.
   */
  lemma DeletionTakes(keys: Keys, a: string, b: string)
    requires a != b && IsLiteral(a)
    ensures Nested(a, b) ==> forall key <- keys :: IsKeyOf(b, key) ==> key in Doomed(keys, a)
    ensures Nested(b, a) ==> forall key <- Doomed(keys, a) :: key == ACTIVE_KEY || SlavePrefix(b) <= key
  {
    KeyForms(a, "");
    KeyForms(b, "");
    PrefixOfOther(a, b, "meta");
    PrefixOfOther(a, b, "metrics");
    PrefixOfOther(a, b, "slave:");
    PrefixOfOther(b, a, "meta");
    PrefixOfOther(b, a, "metrics");
    PrefixOfOther(b, a, "slave:");
    hide Nested;
    forall key | key in keys && Nested(a, b) && IsKeyOf(b, key)
      ensures key in Doomed(keys, a)
    {
      DoomedIsOwn(keys, a, key);
      if SlavePrefix(b) <= key {
        PrefixOfPrefix(SlavePrefix(a), SlavePrefix(b), key);
      }
    }
    forall key | key in Doomed(keys, a) && key != ACTIVE_KEY && Nested(b, a)
      ensures SlavePrefix(b) <= key
    {
      DoomedIsOwn(keys, a, key);
      if SlavePrefix(a) <= key {
        PrefixOfPrefix(SlavePrefix(b), SlavePrefix(a), key);
      }
    }
  }

  lemma PrefixOfPrefix(x: string, y: string, z: string)
    requires x <= y <= z
    ensures x <= z
  {
    assert x == y[..|x|] == z[..|x|];
  }

  /** Each method says what it does to the keys; for plain ids also what that means for the sessions. */
  class Client {
    var keys: Keys
    var published: seq<SlaveState>  // messages sent on the states channel

    ghost predicate Valid()
      reads this
    {
      Typed(keys)
    }

    method CreateSession(meta: SessionMeta, now: int) returns (r: Result<SessionMeta, StoreError>)
      modifies this`keys
      ensures r.Err? <==> IsBlank(meta.sessionID)
      ensures r.Err? ==> keys == old(keys)
      ensures r.Ok? ==> r.value == if meta.startedAt == 0 then meta.(startedAt := now) else meta
      ensures r.Ok? ==> keys == Created(old(keys), r.value)
      ensures old(Valid()) && IsPlain(meta.sessionID) ==> Valid() && OthersKept(old(keys), keys, meta.sessionID)
      ensures old(Valid()) && IsPlain(meta.sessionID) && r.Ok? ==>
                && ActiveAt(keys) == Some(meta.sessionID)
                && SessionAt(keys, meta.sessionID) ==
                   Session(Some(r.value), Some(SessionMetrics(meta.sessionID, 0, 0, r.value.startedAt)),
                           old(Records(keys, meta.sessionID)))
    {
      hide Typed;
      if IsBlank(meta.sessionID) {
        return Err(SessionIDRequired);
      }
      var meta' := if meta.startedAt == 0 then meta.(startedAt := now) else meta;
      var id := meta.sessionID;
      if IsPlain(id) && Typed(keys) {
        CreatedSession(keys, meta');
      }
      keys := keys[MetaKey(id) := MetaValue(meta')];
      keys := keys[MetricsKey(id) := MetricsValue(SessionMetrics(id, 0, 0, meta'.startedAt))];
      keys := keys[ACTIVE_KEY := Text(id)];
      return Ok(meta');
    }

    method DeleteSession(id: string)
      modifies this`keys
      ensures keys == old(keys) - Doomed(old(keys), id)
      ensures old(Valid()) && IsPlain(id) ==>
                && Valid() && SessionAt(keys, id) == NO_SESSION && OthersKept(old(keys), keys, id)
                && ActiveAt(keys) == if old(ActiveAt(keys)) == Some(id) then None else old(ActiveAt(keys))
    {
      hide Typed;
      var slaveKeys := SlaveKeys(keys, id);
      var active := ActiveAt(keys);
      var doomed := {MetaKey(id), MetricsKey(id)} + slaveKeys;
      if active == Some(id) {
        doomed := {ACTIVE_KEY} + doomed;
      }
      assert doomed == Doomed(keys, id);
      if IsPlain(id) && Typed(keys) {
        DropSession(keys, id);
      }
      keys := keys - doomed;
    }

    method PublishSlaveState(state: SlaveState) returns (r: Result<(), StoreError>)
      modifies this
      ensures r.Err? <==> IsBlank(state.sessionID)
      ensures r.Err? ==> keys == old(keys) && published == old(published)
      ensures r.Ok? ==>
                && published == old(published) + [state]
                && keys == old(keys)[SlaveKey(state.sessionID, state.slaveID) := SlaveValue(state)]
      ensures old(Valid()) && IsPlain(state.sessionID) ==> Valid() && OthersKept(old(keys), keys, state.sessionID)
      ensures old(Valid()) && IsPlain(state.sessionID) && r.Ok? ==>
                && ActiveAt(keys) == old(ActiveAt(keys))
                && SessionAt(keys, state.sessionID) == WithRecord(old(SessionAt(keys, state.sessionID)), state)
                && Records(keys, state.sessionID) == old(Records(keys, state.sessionID))[state.slaveID := state]
    {
      hide Typed;
      if IsBlank(state.sessionID) {
        return Err(SessionIDRequired);
      }
      if Typed(keys) && IsPlain(state.sessionID) {
        SetSlave(keys, state);
      }
      keys := keys[SlaveKey(state.sessionID, state.slaveID) := SlaveValue(state)];
      published := published + [state];
      return Ok(());
    }

    method GetSlaveState(id: string, slaveID: string) returns (r: Result<SlaveState, StoreError>)
      ensures SlaveKey(id, slaveID) !in keys ==> r == Err(NotFound)
      ensures SlaveKey(id, slaveID) in keys ==>
                var decoded := DecodeSlave(keys[SlaveKey(id, slaveID)]);
                r == if decoded.Some? then Ok(decoded.value) else Err(DecodeFailed)
      ensures Valid() && IsPlain(id) ==>
                r == if slaveID in Records(keys, id) then Ok(Records(keys, id)[slaveID]) else Err(NotFound)
    {
      SlaveIDsAreKeyed(keys, id, slaveID);
      var key := SlaveKey(id, slaveID);
      if key !in keys {
        return Err(NotFound);
      }
      var decoded := DecodeSlave(keys[key]);
      return if decoded.Some? then Ok(decoded.value) else Err(DecodeFailed);
    }

    /** KEYS, sort, and one GET per key; `sorted` are the keys found. */
    method ListSlaveStates(id: string) returns (r: Result<seq<SlaveState>, StoreError>, ghost sorted: seq<string>)
      ensures Sorted(sorted) && Distinct(sorted) && forall k :: k in sorted <==> k in SlaveKeys(keys, id)
      ensures r.Ok? ==> Decoded(keys, sorted, r.value)
      ensures r.Err? ==> r == Err(DecodeFailed) && exists k <- SlaveKeys(keys, id) :: DecodeSlave(keys[k]).None?
      ensures Valid() && IsPlain(id) ==> r.Ok? && Lists(r.value, keys, id)
    {
      hide Typed, Lists;
      var found := SortedKeys(SlaveKeys(keys, id));
      sorted := found;
      var states := [];
      if IsPlain(id) && Typed(keys) {
        SlavesDecode(keys, id);
      }
      for i := 0 to |found|
        invariant Decoded(keys, found[..i], states)
      {
        var key := found[i];
        assert key in found;
        var decoded := DecodeSlave(keys[key]);
        if decoded.None? {
          return Err(DecodeFailed), sorted;
        }
        states := states + [decoded.value];
      }
      assert found[..|found|] == found;
      if IsPlain(id) && Typed(keys) {
        DecodedLists(keys, id, found, states);
      }
      return Ok(states), sorted;
    }

    /** `UpdateSessionMetrics` when nobody else writes the key: one read, one change, one write. */
    method UpdateSessionMetrics(id: string, fn: SessionMetrics -> SessionMetrics, now: int)
      returns (r: Result<SessionMetrics, StoreError>)
      modifies this`keys
      ensures r == Err(NotFound) <==> MetricsKey(id) !in old(keys)
      ensures r.Err? ==> keys == old(keys)
      ensures r.Ok? <==> MetricsKey(id) in old(keys) && DecodeMetrics(old(keys)[MetricsKey(id)]).Some?
      ensures r.Ok? ==>
                var changed := fn(DecodeMetrics(old(keys)[MetricsKey(id)]).value);
                && r.value == SessionMetrics(if changed.sessionID == "" then id else changed.sessionID,
                                             changed.liveSlaves, changed.goneSlaves, now)
                && keys == old(keys)[MetricsKey(id) := MetricsValue(r.value)]
      ensures old(Valid()) && IsPlain(id) ==>
                && Valid() && OthersKept(old(keys), keys, id) && ActiveAt(keys) == old(ActiveAt(keys))
                && (r.Err? <==> old(SessionAt(keys, id)).metrics == None)
      ensures old(Valid()) && IsPlain(id) && r.Ok? ==>
                var changed := fn(old(SessionAt(keys, id)).metrics.value);
                && r.value.liveSlaves == changed.liveSlaves && r.value.goneSlaves == changed.goneSlaves
                && r.value.sessionID == (if changed.sessionID == "" then id else changed.sessionID)
                && r.value.updatedAt == now
                && SessionAt(keys, id) == old(SessionAt(keys, id)).(metrics := Some(r.value))
    {
      if MetricsKey(id) !in keys {
        return Err(NotFound);
      }
      var decoded := DecodeMetrics(keys[MetricsKey(id)]);
      if decoded.None? {
        return Err(DecodeFailed);
      }
      var metrics := StampMetrics(fn(decoded.value), id, now);
      if IsPlain(id) && Typed(keys) {
        SetMetrics(keys, id, metrics);
      }
      keys := keys[MetricsKey(id) := MetricsValue(metrics)];
      return Ok(metrics);
    }
  }

  /** `states` are what the keys hold, in their order. */
  predicate Decoded(keys: Keys, sorted: seq<string>, states: seq<SlaveState>) {
    && |states| == |sorted|
    && forall i :: 0 <= i < |sorted| ==> sorted[i] in keys && DecodeSlave(keys[sorted[i]]) == Some(states[i])
  }

  lemma SlavesDecode(keys: Keys, id: string)
    requires Typed(keys) && IsPlain(id)
    ensures forall k <- SlaveKeys(keys, id) :: keys[k].SlaveValue?
  {
    forall k | k in SlaveKeys(keys, id)
      ensures keys[k].SlaveValue?
    {
      PatternFindsSlaves(id, k);
      assert k == SlaveKey(id, k[|SlavePrefix(id)|..]);
    }
  }

  lemma DecodedLists(keys: Keys, id: string, sorted: seq<string>, states: seq<SlaveState>)
    requires Typed(keys) && IsPlain(id) && Decoded(keys, sorted, states)
    requires Sorted(sorted) && Distinct(sorted) && forall k :: k in sorted <==> k in SlaveKeys(keys, id)
    ensures Lists(states, keys, id)
  {
    forall i | 0 <= i < |states|
      ensures states[i].slaveID in Records(keys, id) && Records(keys, id)[states[i].slaveID] == states[i]
      ensures SlaveKey(id, states[i].slaveID) == sorted[i]
    {
      assert sorted[i] in sorted;
      PatternFindsSlaves(id, sorted[i]);
      var s := sorted[i][|SlavePrefix(id)|..];
      assert sorted[i] == SlaveKey(id, s);
      SlaveIDsAreKeyed(keys, id, s);
    }
    forall s | s in Records(keys, id)
      ensures exists i :: 0 <= i < |states| && states[i].slaveID == s
    {
      SlaveIDsAreKeyed(keys, id, s);
      PatternFindsSlaves(id, SlaveKey(id, s));
      assert SlaveKey(id, s) in sorted;
      var i :| 0 <= i < |sorted| && sorted[i] == SlaveKey(id, s);
      KeysDistinct(id, id, s, states[i].slaveID);
      assert states[i].slaveID == s;
    }
  }
}
