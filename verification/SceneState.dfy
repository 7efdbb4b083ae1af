/**
  The bookkeeping of the pod scene: which mesh, physics entry, hand, gust and pool each thing is in,
  what must always hold of it, and the operations on it that need no loop.
 */
module SceneState {
  import opened Domain

  type MeshID = nat
  type GustID = nat

  datatype Hand = Left | Right

  /** `serial` is the entry's identity: no two entries ever created share one. */
  datatype Physics = Physics(
    serial: nat,
    handle: nat,
    kinematic: bool,
    fallReported: bool,
    crushProgress: real,
    crushReported: bool)

  /**
    `pinchActive` stands also for the pinch midpoints, which are set exactly then, and `palmCenterSet`
    for the palm centre being known.
   */
  datatype HandState = HandState(
    grabbedPodId: Option<string>,
    pinchActive: bool,
    pinchCandidateId: Option<string>,
    lastGrabAt: int,
    openPalm: bool,
    gustPoseActive: bool,
    palmCenterSet: bool)

  const IDLE_HAND := HandState(None, false, None, 0, false, false, false)

  /** `meshById` and `podMeshCache`; `built` meshes were ever built, and `status` is what their user data says. */
  datatype Shelf = Shelf(
    shown: map<string, MeshID>,
    cache: seq<MeshID>,
    built: nat,
    status: map<MeshID, SlaveStatus>)

  /** `podPhysicsById`, `podGrabOwnerById` and `handPhysics`. */
  datatype Grip = Grip(
    physics: map<string, Physics>,
    owner: map<string, Hand>,
    hands: map<Hand, HandState>)

  /** `gusts` and `gustPool`; `built` gusts were ever built, with that much time left. */
  datatype Rack = Rack(
    active: seq<GustID>,
    pool: seq<GustID>,
    built: nat,
    remaining: map<GustID, real>)

  /** A callback about the entry with that serial, called with the id of its pod. */
  datatype Report = Report(serial: nat, id: string)

  /**
    What was ever done: `made` physics entries, the hit and fall callbacks that have been called, and
    the hit callbacks that are `due` at the end of the current frame.
   */
  datatype Log = Log(made: nat, due: seq<Report>, hits: seq<Report>, falls: seq<Report>)

  /** `index` is `podIdByColliderHandle`. */
  datatype Scene = Scene(physicsOn: bool, shelf: Shelf, grip: Grip, index: map<nat, string>, rack: Rack, log: Log)

  const EMPTY_SCENE :=
    Scene(false, Shelf(map[], [], 0, map[]), Grip(map[], map[], map[]), map[], Rack([], [], 0, map[]),
          Log(0, [], [], []))

  // ---------------------------------------------------------------- the invariant

  predicate Crushing(e: Physics) {
    e.crushProgress > 0.0 || e.crushReported
  }

  /** The owner map and the hands' grabs are exact inverses. */
  predicate Owners(owner: map<string, Hand>, hands: map<Hand, HandState>) {
    && (forall p <- owner :: owner[p] in hands && hands[owner[p]].grabbedPodId == Some(p))
    && (forall h <- hands :: hands[h].grabbedPodId.Some? ==>
          hands[h].grabbedPodId.value in owner && owner[hands[h].grabbedPodId.value] == h)
  }

  predicate BodyOK(e: Physics, owned: bool) {
    && (e.kinematic <==> owned || Crushing(e))
    && !(owned && Crushing(e))
    && 0.0 <= e.crushProgress <= 1.0 && (e.crushReported <==> e.crushProgress == 1.0)
  }

  /** A body is kinematic exactly when it is owned or its crush has begun, and never both. */
  predicate Bodies(physics: map<string, Physics>, owner: map<string, Hand>) {
    && owner.Keys <= physics.Keys
    && (forall p <- physics :: BodyOK(physics[p], p in owner))
  }

  predicate GripOK(g: Grip) {
    Owners(g.owner, g.hands) && Bodies(g.physics, g.owner)
  }

  /** Each mesh shown or cached was built, and is there only once. */
  predicate MeshesApart(f: Shelf) {
    && (forall p <- f.shown :: f.shown[p] < f.built && f.shown[p] !in f.cache)
    && (forall p <- f.shown, q <- f.shown :: f.shown[p] == f.shown[q] ==> p == q)
    && (forall i :: 0 <= i < |f.cache| ==> f.cache[i] < f.built)
    && (forall i, j :: 0 <= i < j < |f.cache| ==> f.cache[i] != f.cache[j])
  }

  /** Every mesh ever built is shown under one id, or once in the cache, and never both; none shows a gone pod. */
  predicate ShelfOK(f: Shelf) {
    && MeshesApart(f)
    && (forall m: nat :: m < f.built ==> m in f.cache || m in f.shown.Values)
    && (forall m <- f.status :: !f.status[m].Gone?)
  }

  function Upto(n: nat): (r: set<nat>)
    ensures forall g :: g in r <==> 0 <= g < n
  {
    if n == 0 then {} else Upto(n - 1) + {n - 1}
  }

  /** Every gust ever built is in exactly one of the active list and the pool, once. */
  predicate RackOK(k: Rack) {
    multiset(k.active) + multiset(k.pool) == multiset(Upto(k.built)) && Upto(k.built) <= k.remaining.Keys
  }

  /** The collider index is the exact inverse of the physics map's handles. */
  predicate Handles(physics: map<string, Physics>, index: map<nat, string>) {
    && (forall p <- physics :: physics[p].handle in index && index[physics[p].handle] == p)
    && (forall h <- index :: index[h] in physics && physics[index[h]].handle == h)
  }

  predicate DistinctNats(s: seq<nat>) {
    forall i, j :: 0 <= i < j < |s| ==> s[i] != s[j]
  }

  predicate OnceEach(reports: seq<Report>) {
    forall i, j :: 0 <= i < j < |reports| ==> reports[i].serial != reports[j].serial
  }

  /** Reports are about entries that were made, each about another one, and name the pod of an entry that is there. */
  predicate Told(reports: seq<Report>, physics: map<string, Physics>, made: nat) {
    && (forall r <- reports :: r.serial < made)
    && (forall r <- reports, p <- physics :: physics[p].serial == r.serial ==> p == r.id)
    && OnceEach(reports)
  }

  /** An entry has been reported as hit, or is due to be, exactly if its crush is complete; falls likewise. */
  predicate Fired(physics: map<string, Physics>, log: Log) {
    var reported := log.hits + log.due;
    && (forall p <- physics :: physics[p].serial < log.made)
    && (forall p <- physics, q <- physics :: physics[p].serial == physics[q].serial ==> p == q)
    && (forall p <- physics ::
          && (Report(physics[p].serial, p) in reported <==> physics[p].crushReported)
          && (Report(physics[p].serial, p) in log.falls <==> physics[p].fallReported))
    && Told(reported, physics, log.made) && Told(log.falls, physics, log.made)
  }

  /** With physics running the mesh map and the physics map have the same keys. */
  predicate KeySets(s: Scene) {
    if s.physicsOn then s.shelf.shown.Keys == s.grip.physics.Keys
    else s.grip == Grip(map[], map[], map[]) && s.rack.active == [] && s.rack.pool == []
  }

  predicate Inv(s: Scene) {
    && GripOK(s.grip) && ShelfOK(s.shelf) && RackOK(s.rack)
    && Handles(s.grip.physics, s.index) && Fired(s.grip.physics, s.log)
    && KeySets(s)
  }

  // ---------------------------------------------------------------- what later states keep

  const POD_CRUSH_DURATION: real := 0.22

  function Capped(x: real): real {
    if x < 1.0 then x else 1.0
  }

  /** The same entry, `t` seconds of frame time on: reports stay, and a begun crush advances with the time. */
  predicate Aged(e: Physics, e': Physics, t: real) {
    && e'.serial == e.serial && e'.handle == e.handle
    && (e.fallReported ==> e'.fallReported) && (e.crushReported ==> e'.crushReported)
    && e.crushProgress <= e'.crushProgress
    && (e.crushProgress > 0.0 ==> e'.crushProgress == Capped(e.crushProgress + t / POD_CRUSH_DURATION))
  }

  /** Every entry with an old serial is the old one, under its old pod, `t` seconds on. */
  predicate AgedAll(physics: map<string, Physics>, physics': map<string, Physics>, made: nat, t: real) {
    forall p <- physics' :: physics'[p].serial < made ==> p in physics && Aged(physics[p], physics'[p], t)
  }

  /** `s'` comes after `s` by `t` seconds of frame time, and nothing reported has been taken back. */
  predicate Later(s: Scene, s': Scene, t: real) {
    && s.log.made <= s'.log.made && s.shelf.built <= s'.shelf.built && s.rack.built <= s'.rack.built
    && s.log.hits <= s'.log.hits && s.log.falls <= s'.log.falls && (s.physicsOn ==> s'.physicsOn)
    && AgedAll(s.grip.physics, s'.grip.physics, s.log.made, t)
  }

  lemma LaterTransitive(s: Scene, s': Scene, s'': Scene, t: real, u: real)
    requires Later(s, s', t) && Later(s', s'', u) && u >= 0.0
    ensures Later(s, s'', t + u)
  {
    forall p | p in s''.grip.physics && s''.grip.physics[p].serial < s.log.made
      ensures p in s.grip.physics && Aged(s.grip.physics[p], s''.grip.physics[p], t + u)
    {
      assert (t + u) / POD_CRUSH_DURATION == t / POD_CRUSH_DURATION + u / POD_CRUSH_DURATION;
    }
  }

  /** What every operation that takes no frame time does: it keeps the invariant and leads to a later state. */
  predicate Fine(s: Scene, s': Scene) {
    Inv(s') && Later(s, s', 0.0)
  }

  lemma FineTransitive(s: Scene, s': Scene, s'': Scene)
    requires Fine(s, s') && Fine(s', s'')
    ensures Fine(s, s'')
  {
    hide Inv, Later;
    LaterTransitive(s, s', s'', 0.0, 0.0);
  }

  /** The two maps have the same entries, apart from what concerns bodies and the begin of a crush. */
  predicate SameEntries(physics: map<string, Physics>, physics': map<string, Physics>) {
    && physics.Keys == physics'.Keys
    && (forall p <- physics ::
          && physics'[p].handle == physics[p].handle && physics'[p].serial == physics[p].serial
          && physics'[p].crushReported == physics[p].crushReported
          && physics'[p].fallReported == physics[p].fallReported
          && (physics[p].crushProgress > 0.0 ==> physics'[p].crushProgress == physics[p].crushProgress)
          && physics[p].crushProgress <= physics'[p].crushProgress)
  }

  lemma SameEntriesReflexive(physics: map<string, Physics>)
    ensures SameEntries(physics, physics)
  {
  }

  lemma SameEntriesFiled(physics: map<string, Physics>, physics': map<string, Physics>, index: map<nat, string>,
                         log: Log)
    requires Handles(physics, index) && Fired(physics, log) && SameEntries(physics, physics')
    ensures Handles(physics', index) && Fired(physics', log)
  {
  }

  lemma SameEntriesAged(physics: map<string, Physics>, physics': map<string, Physics>, owner: map<string, Hand>,
                        made: nat)
    requires Bodies(physics, owner) && SameEntries(physics, physics')
    ensures AgedAll(physics, physics', made, 0.0)
  {
    forall p | p in physics
      ensures Aged(physics[p], physics'[p], 0.0)
    {
      assert BodyOK(physics[p], p in owner);
    }
  }

  /** Whatever moves only bodies, owners and hands, and keeps the grip in order, is fine. */
  lemma GripMoved(s: Scene, g: Grip)
    requires Inv(s) && GripOK(g) && SameEntries(s.grip.physics, g.physics) && (s.physicsOn || g.hands == map[])
    ensures Fine(s, s.(grip := g))
  {
    hide Owners, Bodies, ShelfOK, RackOK, Handles, Fired, AgedAll;
    SameEntriesFiled(s.grip.physics, g.physics, s.index, s.log);
    SameEntriesAged(s.grip.physics, g.physics, s.grip.owner, s.log.made);
    if !s.physicsOn {
      EmptyGrip(g);
    }
  }

  lemma EmptyGrip(g: Grip)
    requires GripOK(g) && g.physics.Keys == {} && g.hands == map[]
    ensures g == Grip(map[], map[], map[])
  {
  }

  // ---------------------------------------------------------------- hands

  function SetHand(g: Grip, h: Hand, state: HandState): Grip {
    g.(hands := g.hands[h := state])
  }

  lemma SetHandKeeps(g: Grip, h: Hand, state: HandState)
    requires GripOK(g) && h in g.hands && g.hands[h].grabbedPodId == state.grabbedPodId
    ensures GripOK(SetHand(g, h, state)) && SameEntries(g.physics, SetHand(g, h, state).physics)
  {
  }

  function Freed(physics: map<string, Physics>, p: string): map<string, Physics> {
    if p in physics then physics[p := physics[p].(kinematic := false)] else physics
  }

  function ReleaseGrab(g: Grip, h: Hand): Grip {
    if h !in g.hands || g.hands[h].grabbedPodId.None? then g
    else
      Grip(Freed(g.physics, g.hands[h].grabbedPodId.value), g.owner - {g.hands[h].grabbedPodId.value},
           g.hands[h := g.hands[h].(grabbedPodId := None, lastGrabAt := 0)])
  }

  lemma ReleasedOwners(owner: map<string, Hand>, hands: map<Hand, HandState>, h: Hand, p: string)
    requires Owners(owner, hands) && h in hands && hands[h].grabbedPodId == Some(p)
    ensures p in owner && Owners(owner - {p}, hands[h := hands[h].(grabbedPodId := None, lastGrabAt := 0)])
  {
  }

  lemma ReleaseGrabKeeps(g: Grip, h: Hand)
    requires GripOK(g)
    ensures GripOK(ReleaseGrab(g, h)) && SameEntries(g.physics, ReleaseGrab(g, h).physics)
    ensures ReleaseGrab(g, h).hands.Keys == g.hands.Keys
  {
    hide Owners;
    if h in g.hands && g.hands[h].grabbedPodId.Some? {
      var p := g.hands[h].grabbedPodId.value;
      ReleasedOwners(g.owner, g.hands, h, p);
      assert BodyOK(g.physics[p], true);
    }
  }

  function ClearHand(g: Grip, h: Hand): Grip {
    if h !in g.hands then g else SetHand(ReleaseGrab(g, h), h, IDLE_HAND)
  }

  lemma ClearHandKeeps(g: Grip, h: Hand)
    requires GripOK(g)
    ensures GripOK(ClearHand(g, h)) && SameEntries(g.physics, ClearHand(g, h).physics)
    ensures ClearHand(g, h).hands.Keys == g.hands.Keys
  {
    hide GripOK;
    ReleaseGrabKeeps(g, h);
    if h in g.hands {
      SetHandKeeps(ReleaseGrab(g, h), h, IDLE_HAND);
    }
  }

  // ---------------------------------------------------------------- grabbing and crushing

  /** A pod that is shown, not gone, and not being crushed. */
  predicate IsPodInteractable(shelf: Shelf, physics: map<string, Physics>, p: string) {
    && p in shelf.shown
    && !(shelf.shown[p] in shelf.status && shelf.status[shelf.shown[p]].Gone?)
    && !(p in physics && Crushing(physics[p]))
  }

  const GRAB_RELEASE_GRACE_MS := 180

  function Grab(g: Grip, h: Hand, p: string, now: int): Grip
    requires h in g.hands && p in g.physics
  {
    Grip(g.physics[p := g.physics[p].(kinematic := true)], g.owner[p := h],
         g.hands[h := g.hands[h].(grabbedPodId := Some(p), lastGrabAt := now)])
  }

  /** `slider` is the hand on the table height slider. */
  function UpdateGrab(g: Grip, h: Hand, slider: Option<Hand>, now: int): Grip {
    if h !in g.hands then g
    else
      var hand := g.hands[h];
      if slider == Some(h) then ReleaseGrab(g, h)
      else if hand.grabbedPodId.Some? then
        if hand.grabbedPodId.value !in g.physics then ReleaseGrab(g, h)
        else if hand.pinchActive then SetHand(g, h, hand.(lastGrabAt := now))
        else if now - hand.lastGrabAt > GRAB_RELEASE_GRACE_MS then ReleaseGrab(g, h)
        else g
      else if !hand.pinchActive || hand.pinchCandidateId.None? then g
      else
        var p := hand.pinchCandidateId.value;
        if (p in g.owner && g.owner[p] != h) || p !in g.physics then g else Grab(g, h, p, now)
  }

  /** A hand's pinch candidate, if it has one, is not being crushed. */
  predicate CandidateOK(g: Grip, h: Hand) {
    h in g.hands && g.hands[h].pinchCandidateId.Some? && g.hands[h].pinchCandidateId.value in g.physics ==>
      !Crushing(g.physics[g.hands[h].pinchCandidateId.value])
  }

  lemma GrabbedOwners(owner: map<string, Hand>, hands: map<Hand, HandState>, h: Hand, p: string, state: HandState)
    requires Owners(owner, hands) && h in hands && hands[h].grabbedPodId.None? && state.grabbedPodId == Some(p)
    requires p in owner ==> owner[p] == h
    ensures p !in owner && Owners(owner[p := h], hands[h := state])
  {
  }

  lemma GrabKeeps(g: Grip, h: Hand, p: string, now: int)
    requires GripOK(g) && h in g.hands && g.hands[h].grabbedPodId.None?
    requires p in g.physics && !Crushing(g.physics[p])
    requires p in g.owner ==> g.owner[p] == h
    ensures GripOK(Grab(g, h, p, now)) && SameEntries(g.physics, Grab(g, h, p, now).physics)
  {
    hide Owners;
    GrabbedOwners(g.owner, g.hands, h, p, Grab(g, h, p, now).hands[h]);
    assert BodyOK(g.physics[p], false);
  }

  lemma UpdateGrabKeeps(g: Grip, h: Hand, slider: Option<Hand>, now: int)
    requires GripOK(g) && CandidateOK(g, h)
    ensures GripOK(UpdateGrab(g, h, slider, now)) && SameEntries(g.physics, UpdateGrab(g, h, slider, now).physics)
    ensures UpdateGrab(g, h, slider, now).hands.Keys == g.hands.Keys
  {
    hide GripOK, SameEntries, ReleaseGrab;
    ReleaseGrabKeeps(g, h);
    SameEntriesReflexive(g.physics);
    if h in g.hands {
      var hand := g.hands[h];
      SetHandKeeps(g, h, hand.(lastGrabAt := now));
      if hand.grabbedPodId.None? && hand.pinchCandidateId.Some? {
        var p := hand.pinchCandidateId.value;
        if p in g.physics && (p in g.owner ==> g.owner[p] == h) {
          GrabKeeps(g, h, p, now);
        }
      }
    }
  }

  /** One hand's grab leaves the other hand's candidate as fit as it was. */
  lemma OtherCandidateKept(g: Grip, h: Hand, k: Hand, slider: Option<Hand>, now: int)
    requires k != h && CandidateOK(g, k)
    ensures CandidateOK(UpdateGrab(g, h, slider, now), k)
  {
  }

  /** The gap between 1 and the next double, which is how a crush that has only begun is marked. */
  const EPSILON: real := 1.0 / 4503599627370496.0

  /** Whoever holds the pod lets go of it. */
  function LetGo(g: Grip, p: string): Grip {
    if p in g.owner then ReleaseGrab(g, g.owner[p]) else g
  }

  lemma LetGoKeeps(g: Grip, p: string)
    requires GripOK(g)
    ensures var q := LetGo(g, p);
            && GripOK(q) && SameEntries(g.physics, q.physics) && p !in q.owner && q.hands.Keys == g.hands.Keys
            && (p in g.physics ==> Crushing(q.physics[p]) == Crushing(g.physics[p]))
  {
    if p in g.owner {
      ReleaseGrabKeeps(g, g.owner[p]);
    }
  }

  function BeginCrush(physics: map<string, Physics>, p: string): map<string, Physics>
    requires p in physics
  {
    physics[p := physics[p].(kinematic := true, crushProgress := EPSILON, crushReported := false)]
  }

  function StartCrush(shelf: Shelf, g: Grip, p: string): Grip {
    if p !in shelf.shown || p !in g.physics || !IsPodInteractable(shelf, g.physics, p) then g
    else LetGo(g, p).(physics := BeginCrush(LetGo(g, p).physics, p))
  }

  lemma BeginCrushKeeps(g: Grip, p: string)
    requires GripOK(g) && p in g.physics && p !in g.owner && !Crushing(g.physics[p])
    ensures GripOK(g.(physics := BeginCrush(g.physics, p))) && SameEntries(g.physics, BeginCrush(g.physics, p))
  {
    assert BodyOK(g.physics[p], false);
  }

  lemma StartCrushKeeps(shelf: Shelf, g: Grip, p: string)
    requires GripOK(g)
    ensures GripOK(StartCrush(shelf, g, p)) && SameEntries(g.physics, StartCrush(shelf, g, p).physics)
    ensures StartCrush(shelf, g, p).hands.Keys == g.hands.Keys
  {
    hide GripOK, LetGo;
    if p in shelf.shown && p in g.physics && IsPodInteractable(shelf, g.physics, p) {
      LetGoKeeps(g, p);
      BeginCrushKeeps(LetGo(g, p), p);
    }
  }
}
