/**
  Every interleaving of calls of `signingKey` over one cache: each look is a read section, each
  refresh, with its fetch, a write section, and the clock never goes back.
 */
module JwksMachine {
  import opened Domain
  import opened JwksCache

  type CallID = nat

  datatype Phase =
    | Looking(round: nat)        // about to look for the first, second or third time
    | Refreshing(force: bool)
    | Found(key: PublicKey)
    | NotFound
    | Failed

  /**
    `forcedAt` is when the call's forced refresh stored its keys; `look` is the time of its latest
    look with the expiry that the cache then had.
   */
  datatype Call = Call(kid: string, phase: Phase, fetches: nat, forcedAt: Option<int>, look: Option<(int, int)>)

  /** `good` is the latest successful fetch, with the time at which it was stored. */
  datatype World = World(
    ttl: int,
    cache: Cache,
    now: int,
    good: Option<(KeySet, int)>,
    calls: map<CallID, Call>)

  function Init(ttl: int, now: int): World {
    World(ttl, Cache(map[], 0), now, None, map[])
  }

  datatype Step =
    | Begin(c: CallID, kid: string)
    | LookStep(c: CallID, now: int)
    | RefreshStep(c: CallID, now: int, reply: Reply, stored: int)

  predicate Enabled(w: World, st: Step) {
    match st
    case Begin(c, _) => c !in w.calls
    case LookStep(c, now) => c in w.calls && w.calls[c].phase.Looking? && w.now <= now
    case RefreshStep(c, now, _, stored) => c in w.calls && w.calls[c].phase.Refreshing? && w.now <= now <= stored
  }

  function Apply(w: World, st: Step): World
    requires Enabled(w, st)
  {
    match st
    case Begin(c, kid) => w.(calls := w.calls[c := Call(kid, Looking(0), 0, None, None)])
    case LookStep(c, now) =>
      var call := w.calls[c];
      var key := Look(w.cache, call.kid, now);
      var phase := if key.Some? then Found(key.value)
                   else if call.phase.round == 0 then Refreshing(false)
                   else if call.phase.round == 1 then Refreshing(true)
                   else NotFound;
      w.(now := now, calls := w.calls[c := call.(phase := phase, look := Some((now, w.cache.expires)))])
    case RefreshStep(c, now, reply, stored) =>
      var call := w.calls[c];
      var force := call.phase.force;
      var (cache, ok) := Refresh(w.cache, w.ttl, force, now, reply, stored);
      var fetched := NeedsFetch(w.cache, force, now);
      var phase := if !ok then Failed else Looking(if force then 2 else 1);
      var call' := call.(phase := phase,
                         fetches := call.fetches + if fetched then 1 else 0,
                         forcedAt := if force && ok then Some(stored) else call.forcedAt);
      w.(cache := cache,
         now := if fetched then stored else now,
         good := if fetched && ok then Some((cache.keys, stored)) else w.good,
         calls := w.calls[c := call'])
  }

  predicate ValidRun(w: World, steps: seq<Step>)
    decreases |steps|
  {
    steps == [] || (Enabled(w, steps[0]) && ValidRun(Apply(w, steps[0]), steps[1..]))
  }

  function Run(w: World, steps: seq<Step>): World
    requires ValidRun(w, steps)
    decreases |steps|
  {
    if steps == [] then w else Run(Apply(w, steps[0]), steps[1..])
  }

  // ---------------------------------------------------------------- any issuer

  predicate CallInv(call: Call) {
    match call.phase
    case Looking(round) => round <= 2 && call.fetches <= round && (round == 2 <==> call.forcedAt.Some?)
    case Refreshing(force) => call.fetches <= (if force then 1 else 0) && call.forcedAt.None?
    case _ => call.fetches <= 2
  }

  /** The cache holds exactly the latest successful fetch, until its time-to-live has passed. */
  predicate Inv(w: World) {
    && (match w.good
        case None => w.cache.keys == map[]
        case Some(g) => w.cache == Cache(g.0, g.1 + w.ttl) && g.0 != map[] && g.1 <= w.now)
    && (forall c <- w.calls :: CallInv(w.calls[c]))
  }

  lemma StepKeepsInv(w: World, st: Step)
    requires Inv(w) && Enabled(w, st)
    ensures Inv(Apply(w, st))
  {
  }

  lemma {:induction false} RunKeepsInv(w: World, steps: seq<Step>)
    requires Inv(w) && ValidRun(w, steps)
    ensures Inv(Run(w, steps))
    decreases |steps|
  {
    if steps != [] {
      StepKeepsInv(w, steps[0]);
      RunKeepsInv(Apply(w, steps[0]), steps[1..]);
    }
  }

  /**
    Whatever the issuer serves: a returned key is that of the latest successful fetch, stored no
    more than the time-to-live before the look, and no call has fetched more than twice.
   */
  lemma ReturnedKeyIsRecent(ttl: int, start: int, steps: seq<Step>, c: CallID, now: int)
    requires ValidRun(Init(ttl, start), steps)
    requires Enabled(Run(Init(ttl, start), steps), LookStep(c, now))
    ensures var w := Run(Init(ttl, start), steps);
            var w' := Apply(w, LookStep(c, now));
            && w'.calls[c].fetches <= 2
            && (w'.calls[c].phase.Found? ==>
                  && w.good.Some? && w.calls[c].kid in w.good.value.0
                  && w'.calls[c].phase.key == w.good.value.0[w.calls[c].kid]
                  && w.good.value.1 <= now <= w.good.value.1 + w.ttl)
  {
    RunKeepsInv(Init(ttl, start), steps);
    RunTTL(Init(ttl, start), steps);
  }

  lemma AtMostTwoFetches(ttl: int, start: int, steps: seq<Step>, c: CallID)
    requires ValidRun(Init(ttl, start), steps) && c in Run(Init(ttl, start), steps).calls
    ensures Run(Init(ttl, start), steps).calls[c].fetches <= 2
  {
    RunKeepsInv(Init(ttl, start), steps);
    assert CallInv(Run(Init(ttl, start), steps).calls[c]);
  }

  lemma {:induction false} RunTTL(w: World, steps: seq<Step>)
    requires ValidRun(w, steps)
    ensures Run(w, steps).ttl == w.ttl
    decreases |steps|
  {
    if steps != [] {
      RunTTL(Apply(w, steps[0]), steps[1..]);
    }
  }

  // ---------------------------------------------------------------- an issuer that does not change

  predicate Serves(steps: seq<Step>, reply: Reply) {
    forall i :: 0 <= i < |steps| && steps[i].RefreshStep? ==> steps[i].reply == reply
  }

  /** The call's latest look came after the cache had expired. */
  predicate LookedLate(call: Call) {
    call.look.Some? && call.look.value.0 > call.look.value.1
  }

  predicate SameCall(call: Call, keys: KeySet, w: World) {
    match call.phase
    case Looking(round) => round == 2 && call.forcedAt.Some? ==> w.good.Some? && call.forcedAt.value <= w.good.value.1
    case Found(key) => call.kid in keys && key == keys[call.kid] && !LookedLate(call)
    case NotFound =>
      call.kid in keys ==>
        LookedLate(call) && call.forcedAt.Some? && call.look.value.0 > call.forcedAt.value + w.ttl
    case Failed => false
    case _ => true
  }

  predicate SameInv(w: World, keys: KeySet) {
    && Inv(w)
    && (w.good.Some? ==> w.good.value.0 == keys)
    && (forall c <- w.calls :: SameCall(w.calls[c], keys, w))
  }

  lemma StepKeepsSame(w: World, st: Step, keys: KeySet)
    requires SameInv(w, keys) && Enabled(w, st)
    requires st.RefreshStep? ==> Fetched(st.reply) == Some(keys)
    ensures SameInv(Apply(w, st), keys)
  {
    StepKeepsInv(w, st);
  }

  lemma {:induction false} RunKeepsSame(w: World, steps: seq<Step>, reply: Reply, keys: KeySet)
    requires SameInv(w, keys) && ValidRun(w, steps) && Serves(steps, reply) && Fetched(reply) == Some(keys)
    ensures SameInv(Run(w, steps), keys)
    decreases |steps|
  {
    if steps != [] {
      StepKeepsSame(w, steps[0], keys);
      RunKeepsSame(Apply(w, steps[0]), steps[1..], reply, keys);
    }
  }

  datatype Answer = Key(key: PublicKey) | NoKey

  function FreshLookup(keys: KeySet, kid: string): Answer {
    if kid in keys then Key(keys[kid]) else NoKey
  }

  function AnswerOf(p: Phase): Answer
    requires p.Found? || p.NotFound?
  {
    if p.Found? then Key(p.key) else NoKey
  }

  /**
    With an issuer that always serves the same good key set no call fails, and a finished call
    answers exactly as a fresh fetch and lookup would if and only if it did not look for a key of
    the set after the cache had expired. That takes a clock that passes the whole time-to-live
    between the call's own forced refresh and its last look.
   */
  lemma CacheIsTransparent(ttl: int, start: int, steps: seq<Step>, reply: Reply, keys: KeySet, c: CallID)
    requires ValidRun(Init(ttl, start), steps) && Serves(steps, reply) && Fetched(reply) == Some(keys)
    requires c in Run(Init(ttl, start), steps).calls
    ensures var call := Run(Init(ttl, start), steps).calls[c];
            && !call.phase.Failed?
            && (call.phase.Found? || call.phase.NotFound? ==>
                  && (AnswerOf(call.phase) == FreshLookup(keys, call.kid)
                      <==> !(call.kid in keys && LookedLate(call)))
                  && (call.kid in keys && LookedLate(call) ==>
                        call.forcedAt.Some? && call.look.value.0 > call.forcedAt.value + ttl))
  {
    RunKeepsSame(Init(ttl, start), steps, reply, keys);
    RunTTL(Init(ttl, start), steps);
    var w := Run(Init(ttl, start), steps);
    assert SameCall(w.calls[c], keys, w);
  }

  /** A run in which that happens to a key that the issuer serves throughout. */
  function SlowCall(ttl: nat, start: int, reply: Reply, kid: string): seq<Step> {
    var late, later := start + ttl + 1, start + 2 * ttl + 2;
    [Begin(0, kid), LookStep(0, start), RefreshStep(0, start, reply, start), LookStep(0, late)]
    + [RefreshStep(0, late, reply, late), LookStep(0, later)]
  }

  /** So the answer can differ from a fresh one, whatever the time-to-live, the issuer and the key. */
  lemma SlowCallMisses(ttl: nat, start: int, reply: Reply, keys: KeySet, kid: string)
    requires Fetched(reply) == Some(keys) && kid in keys
    ensures var steps := SlowCall(ttl, start, reply, kid);
            && ValidRun(Init(ttl, start), steps) && Serves(steps, reply)
            && 0 in Run(Init(ttl, start), steps).calls
            && var call := Run(Init(ttl, start), steps).calls[0];
               && call.phase == NotFound && call.kid == kid && LookedLate(call)
               && AnswerOf(call.phase) != FreshLookup(keys, kid)
  {
    var steps := SlowCall(ttl, start, reply, kid);
    var w0 := Init(ttl, start);
    var w1 := Apply(w0, steps[0]);
    var w2 := Apply(w1, steps[1]);
    var w3 := Apply(w2, steps[2]);
    var w4 := Apply(w3, steps[3]);
    var w5 := Apply(w4, steps[4]);
    var w6 := Apply(w5, steps[5]);
    assert w4.calls[0].phase == Refreshing(true) && w6.calls[0].phase == NotFound;
    RunFrom(w6, steps, 6);
    RunFrom(w5, steps, 5);
    RunFrom(w4, steps, 4);
    RunFrom(w3, steps, 3);
    RunFrom(w2, steps, 2);
    RunFrom(w1, steps, 1);
    RunFrom(w0, steps, 0);
    assert steps[0..] == steps;
  }

  lemma RunFrom(w: World, steps: seq<Step>, i: nat)
    requires i <= |steps|
    ensures i == |steps| ==> ValidRun(w, steps[i..]) && Run(w, steps[i..]) == w
    ensures i < |steps| && Enabled(w, steps[i]) && ValidRun(Apply(w, steps[i]), steps[i + 1..]) ==>
              ValidRun(w, steps[i..]) && Run(w, steps[i..]) == Run(Apply(w, steps[i]), steps[i + 1..])
  {
    if i < |steps| {
      assert steps[i..][1..] == steps[i + 1..];
    }
  }
}
