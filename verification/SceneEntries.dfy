/** Pods coming and going: meshes, physics entries and gusts, and how each leaves the scene in order. */
module SceneEntries {
  import opened Domain
  import opened SceneState

  // ---------------------------------------------------------------- meshes

  /** Takes a mesh from the cache, or builds one, and shows it under `p`. */
  function ShowMesh(f: Shelf, p: string): Shelf {
    if f.cache != [] then f.(shown := f.shown[p := f.cache[|f.cache| - 1]], cache := f.cache[..|f.cache| - 1])
    else f.(shown := f.shown[p := f.built], built := f.built + 1)
  }

  function HideMesh(f: Shelf, p: string): Shelf
    requires p in f.shown
  {
    f.(shown := f.shown - {p}, cache := f.cache + [f.shown[p]])
  }

  lemma ShowMeshKeeps(f: Shelf, p: string)
    requires ShelfOK(f) && p !in f.shown
    ensures ShelfOK(ShowMesh(f, p)) && ShowMesh(f, p).shown.Keys == f.shown.Keys + {p}
  {
    hide MeshesApart;
    ShownApart(f, p);
    var t := ShowMesh(f, p);
    forall m: nat | m < t.built
      ensures m in t.cache || m in t.shown.Values
    {
      if m < f.built && m !in f.cache {
        StillShown(f, t, m);
      } else if m !in t.cache {
        assert t.shown[p] == m;
      }
    }
  }

  lemma ShownApart(f: Shelf, p: string)
    requires MeshesApart(f) && p !in f.shown
    ensures MeshesApart(ShowMesh(f, p))
  {
    if f.cache != [] {
      assert f.cache == ShowMesh(f, p).cache + [f.cache[|f.cache| - 1]];
    }
  }

  lemma StillShown(f: Shelf, t: Shelf, m: MeshID)
    requires m in f.shown.Values && forall q <- f.shown :: q in t.shown && t.shown[q] == f.shown[q]
    ensures m in t.shown.Values
  {
    var q :| q in f.shown && f.shown[q] == m;
    assert t.shown[q] == m;
  }

  lemma HideMeshKeeps(f: Shelf, p: string)
    requires ShelfOK(f) && p in f.shown
    ensures ShelfOK(HideMesh(f, p))
  {
    hide MeshesApart;
    HiddenApart(f, p);
    var t := HideMesh(f, p);
    forall m: nat | m < t.built
      ensures m in t.cache || m in t.shown.Values
    {
      if m in f.cache {
        assert m in t.cache;
      } else if m == f.shown[p] {
        assert t.cache[|f.cache|] == m;
      } else {
        var q :| q in f.shown && f.shown[q] == m;
        assert t.shown[q] == m;
      }
    }
  }

  lemma HiddenApart(f: Shelf, p: string)
    requires MeshesApart(f) && p in f.shown
    ensures MeshesApart(HideMesh(f, p))
  {
  }

  function SetStatus(f: Shelf, p: string, status: SlaveStatus): Shelf
    requires p in f.shown
  {
    f.(status := f.status[f.shown[p] := status])
  }

  // ---------------------------------------------------------------- physics entries

  /** `handle` is the collider's, as the physics engine hands it out. */
  function CreatePhysics(s: Scene, p: string, handle: nat): Scene {
    if !s.physicsOn || p in s.grip.physics then s
    else
      s.(grip := s.grip.(physics := s.grip.physics[p := Physics(s.log.made, handle, false, false, 0.0, false)]),
         index := s.index[handle := p], log := s.log.(made := s.log.made + 1))
  }

  function Without(g: Grip, p: string): Grip {
    if p in g.physics then g.(physics := g.physics - {p}) else g
  }

  function Unindexed(index: map<nat, string>, g: Grip, p: string): map<nat, string> {
    if p in g.physics then index - {g.physics[p].handle} else index
  }

  function RemovePhysics(s: Scene, p: string): Scene {
    s.(index := Unindexed(s.index, s.grip, p), grip := Without(s.grip, p))
  }

  /** All of `Inv` but the equality of the two key sets. */
  predicate Filed(s: Scene) {
    && GripOK(s.grip) && ShelfOK(s.shelf) && RackOK(s.rack)
    && Handles(s.grip.physics, s.index) && Fired(s.grip.physics, s.log)
  }

  lemma CreatedBodies(s: Scene, p: string, handle: nat)
    requires GripOK(s.grip)
    ensures GripOK(CreatePhysics(s, p, handle).grip)
  {
  }

  lemma CreatedHandles(s: Scene, p: string, handle: nat)
    requires Handles(s.grip.physics, s.index) && handle !in s.index
    ensures Handles(CreatePhysics(s, p, handle).grip.physics, CreatePhysics(s, p, handle).index)
  {
  }

  lemma CreatedFired(s: Scene, p: string, handle: nat)
    requires Fired(s.grip.physics, s.log)
    ensures Fired(CreatePhysics(s, p, handle).grip.physics, CreatePhysics(s, p, handle).log)
  {
    hide Told;
    var physics', log' := CreatePhysics(s, p, handle).grip.physics, CreatePhysics(s, p, handle).log;
    ToldStays(s.log.hits + s.log.due, s.grip.physics, physics', s.log.made, log'.made, p);
    ToldStays(s.log.falls, s.grip.physics, physics', s.log.made, log'.made, p);
  }

  /** Reports stay true when no older entry appears or moves to another pod; none is about what is yet to be made. */
  lemma ToldStays(reports: seq<Report>, physics: map<string, Physics>, physics': map<string, Physics>, made: nat,
                  made': nat, q: string)
    requires Told(reports, physics, made) && made <= made'
    requires forall p <- physics' :: physics'[p].serial < made ==>
               p in physics && physics'[p].serial == physics[p].serial
    ensures Told(reports, physics', made') && Report(made, q) !in reports
  {
  }

  lemma CreatedLater(s: Scene, p: string, handle: nat)
    requires GripOK(s.grip)
    ensures Later(s, CreatePhysics(s, p, handle), 0.0)
  {
    SameEntriesReflexive(s.grip.physics);
    SameEntriesAged(s.grip.physics, s.grip.physics, s.grip.owner, s.log.made);
  }

  lemma CreatePhysicsKeeps(s: Scene, p: string, handle: nat)
    requires Filed(s) && handle !in s.index
    ensures Filed(CreatePhysics(s, p, handle)) && Later(s, CreatePhysics(s, p, handle), 0.0)
    ensures CreatePhysics(s, p, handle).grip.physics.Keys == s.grip.physics.Keys + if s.physicsOn then {p} else {}
  {
    hide GripOK, ShelfOK, RackOK, Handles, Fired, Later;
    CreatedBodies(s, p, handle);
    CreatedHandles(s, p, handle);
    CreatedFired(s, p, handle);
    CreatedLater(s, p, handle);
  }

  lemma RemovedHandles(physics: map<string, Physics>, index: map<nat, string>, p: string)
    requires Handles(physics, index) && p in physics
    ensures Handles(physics - {p}, index - {physics[p].handle})
  {
  }

  lemma RemovedFired(physics: map<string, Physics>, log: Log, p: string)
    requires Fired(physics, log)
    ensures Fired(physics - {p}, log)
  {
    hide Told;
    ToldStays(log.hits + log.due, physics, physics - {p}, log.made, log.made, p);
    ToldStays(log.falls, physics, physics - {p}, log.made, log.made, p);
  }

  lemma RemovedBodies(g: Grip, p: string)
    requires GripOK(g) && p !in g.owner
    ensures GripOK(g.(physics := g.physics - {p}))
  {
  }

  lemma RemovedAged(physics: map<string, Physics>, owner: map<string, Hand>, made: nat, p: string)
    requires Bodies(physics, owner)
    ensures AgedAll(physics, physics - {p}, made, 0.0)
  {
    SameEntriesReflexive(physics);
    SameEntriesAged(physics, physics, owner, made);
  }

  lemma RemovePhysicsKeeps(s: Scene, p: string)
    requires Filed(s) && p !in s.grip.owner
    ensures Filed(RemovePhysics(s, p)) && Later(s, RemovePhysics(s, p), 0.0)
    ensures RemovePhysics(s, p).grip.physics.Keys == s.grip.physics.Keys - {p}
  {
    hide ShelfOK, RackOK, Handles, Fired, Owners, Bodies, AgedAll;
    RemovedAged(s.grip.physics, s.grip.owner, s.log.made, p);
    assert p !in s.grip.physics ==> s.grip.physics - {p} == s.grip.physics;
    if p in s.grip.physics {
      RemovedHandles(s.grip.physics, s.index, p);
      RemovedFired(s.grip.physics, s.log, p);
      RemovedBodies(s.grip, p);
    }
  }

  // ---------------------------------------------------------------- pods

  /** A new pod: a mesh and, when physics runs, an entry. */
  function AddPod(s: Scene, p: string, handle: nat): Scene {
    CreatePhysics(s.(shelf := ShowMesh(s.shelf, p)), p, handle)
  }

  lemma ShelfMoved(s: Scene, f: Shelf)
    requires Filed(s) && ShelfOK(f) && s.shelf.built <= f.built
    ensures Filed(s.(shelf := f)) && Later(s, s.(shelf := f), 0.0)
  {
    hide Owners, ShelfOK, RackOK, Handles, Fired;
    SameEntriesReflexive(s.grip.physics);
    SameEntriesAged(s.grip.physics, s.grip.physics, s.grip.owner, s.log.made);
  }

  lemma AddPodKeeps(s: Scene, p: string, handle: nat)
    requires Inv(s) && p !in s.shelf.shown && handle !in s.index
    ensures Fine(s, AddPod(s, p, handle))
    ensures AddPod(s, p, handle).shelf.shown.Keys == s.shelf.shown.Keys + {p}
  {
    hide GripOK, ShelfOK, RackOK, Handles, Fired, Later;
    var f := ShowMesh(s.shelf, p);
    ShowMeshKeeps(s.shelf, p);
    ShelfMoved(s, f);
    CreatePhysicsKeeps(s.(shelf := f), p, handle);
    LaterTransitive(s, s.(shelf := f), AddPod(s, p, handle), 0.0, 0.0);
  }

  function DropCandidates(hands: map<Hand, HandState>, p: string): map<Hand, HandState> {
    map h <- hands :: if hands[h].pinchCandidateId == Some(p) then hands[h].(pinchCandidateId := None) else hands[h]
  }

  function Unheld(g: Grip, p: string): Grip {
    g.(owner := g.owner - {p}, hands := DropCandidates(g.hands, p))
  }

  /** `removePodEntry`: the hand lets go, the physics entry goes, and the mesh returns to the cache. */
  function RemovePod(s: Scene, p: string): Scene
    requires p in s.shelf.shown
  {
    Scene(s.physicsOn, HideMesh(s.shelf, p), Unheld(Without(LetGo(s.grip, p), p), p),
          Unindexed(s.index, LetGo(s.grip, p), p), s.rack, s.log)
  }

  lemma DropCandidatesKeeps(g: Grip, p: string)
    requires GripOK(g) && p !in g.owner
    ensures g.owner - {p} == g.owner
    ensures GripOK(g.(hands := DropCandidates(g.hands, p))) && DropCandidates(g.hands, p).Keys == g.hands.Keys
  {
  }

  lemma RemovePodKeeps(s: Scene, p: string)
    requires Inv(s) && p in s.shelf.shown
    ensures Fine(s, RemovePod(s, p))
    ensures RemovePod(s, p).shelf.shown.Keys == s.shelf.shown.Keys - {p}
  {
    hide GripOK, ShelfOK, RackOK, Handles, Fired, Later, LetGo, Without, Unindexed, Unheld, SameEntries;
    LetGoKeeps(s.grip, p);
    EmptyHands(s.grip.hands, LetGo(s.grip, p).hands);
    GripMoved(s, LetGo(s.grip, p));
    var q := s.(grip := LetGo(s.grip, p));
    WithoutOwner(q.grip, p);
    RemovePhysicsKeeps(q, p);
    var r := RemovePhysics(q, p);
    UnheldKeeps(r.grip, p);
    HideMeshKeeps(s.shelf, p);
    RemovedLast(q, r, p);
    LaterTransitive(s, q, RemovePod(s, p), 0.0, 0.0);
    if !s.physicsOn {
      RemovedWhileOff(s, p);
    }
  }

  lemma WithoutOwner(g: Grip, p: string)
    ensures Without(g, p).owner == g.owner
  {
  }

  lemma UnheldKeeps(g: Grip, p: string)
    requires GripOK(g) && p !in g.owner
    ensures GripOK(Unheld(g, p)) && Unheld(g, p).physics == g.physics
  {
    DropCandidatesKeeps(g, p);
  }

  lemma RemovedWhileOff(s: Scene, p: string)
    requires s.grip == Grip(map[], map[], map[]) && p in s.shelf.shown
    ensures RemovePod(s, p) == s.(shelf := HideMesh(s.shelf, p))
  {
    assert DropCandidates(map[], p) == map[];
  }

  lemma EmptyHands(hands: map<Hand, HandState>, hands': map<Hand, HandState>)
    requires hands'.Keys == hands.Keys
    ensures hands' == map[] <==> hands == map[]
  {
    assert hands == map[] <==> hands.Keys == {};
    assert hands' == map[] <==> hands'.Keys == {};
  }

  lemma RemovedLast(q: Scene, r: Scene, p: string)
    requires p in q.shelf.shown && r.shelf == q.shelf && Later(q, r, 0.0)
    ensures Later(q, r.(grip := Unheld(r.grip, p), shelf := HideMesh(q.shelf, p)), 0.0)
  {
  }

  lemma SetStatusKeeps(s: Scene, p: string, status: SlaveStatus)
    requires Inv(s) && p in s.shelf.shown && !status.Gone?
    ensures Fine(s, s.(shelf := SetStatus(s.shelf, p, status)))
  {
    hide GripOK, RackOK, Handles, Fired, Later;
    ShelfMoved(s, SetStatus(s.shelf, p, status));
  }

  lemma SamePodTransitive(s: Scene, s': Scene, s'': Scene, p: string)
    requires SamePod(s, s', p) && SamePod(s', s'', p)
    ensures SamePod(s, s'', p)
  {
  }

  /** What a pod has that is neither removed nor new: its mesh, its entry and its owner. */
  predicate SamePod(s: Scene, s': Scene, p: string) {
    && (p in s.shelf.shown <==> p in s'.shelf.shown)
    && (p in s.shelf.shown ==> s'.shelf.shown[p] == s.shelf.shown[p])
    && (p in s.grip.physics <==> p in s'.grip.physics)
    && (p in s.grip.physics ==> s'.grip.physics[p] == s.grip.physics[p])
    && (p in s.grip.owner <==> p in s'.grip.owner)
    && (p in s.grip.owner ==> s'.grip.owner[p] == s.grip.owner[p])
  }

  lemma LetGoOthers(g: Grip, q: string, p: string)
    requires Owners(g.owner, g.hands) && p != q
    ensures var g' := LetGo(g, q);
            && (p in g.physics <==> p in g'.physics) && (p in g.physics ==> g'.physics[p] == g.physics[p])
            && (p in g.owner <==> p in g'.owner) && (p in g.owner ==> g'.owner[p] == g.owner[p])
  {
  }

  lemma RemovePodOthers(s: Scene, q: string, p: string)
    requires Inv(s) && q in s.shelf.shown && p != q
    ensures SamePod(s, RemovePod(s, q), p)
  {
    hide LetGo, ShelfOK, RackOK, Handles, Fired, KeySets;
    LetGoOthers(s.grip, q, p);
  }

  lemma AddPodOthers(s: Scene, q: string, handle: nat, p: string)
    requires p != q
    ensures SamePod(s, AddPod(s, q, handle), p)
  {
  }

  // ---------------------------------------------------------------- gusts

  const GUST_LIFETIME: real := 0.28

  /** A gust from the pool, or a new one, becomes active. */
  function LaunchGust(k: Rack): Rack {
    var pooled := k.pool != [];
    var g := if pooled then k.pool[|k.pool| - 1] else k.built;
    Rack(k.active + [g], if pooled then k.pool[..|k.pool| - 1] else k.pool, if pooled then k.built else k.built + 1,
         k.remaining[g := GUST_LIFETIME])
  }

  lemma LaunchGustKeeps(k: Rack)
    requires RackOK(k)
    ensures RackOK(LaunchGust(k))
  {
    var g := if k.pool != [] then k.pool[|k.pool| - 1] else k.built;
    assert multiset(k.active + [g]) == multiset(k.active) + multiset{g};
    if k.pool != [] {
      assert k.pool == k.pool[..|k.pool| - 1] + [g];
    } else {
      OneMore(k.built);
    }
  }

  lemma OneMore(n: nat)
    ensures multiset(Upto(n + 1)) == multiset(Upto(n)) + multiset{n}
  {
    assert n !in Upto(n) && Upto(n + 1) == Upto(n) + {n};
  }

  /** Removes the active gust at position `i` and returns it to the pool. */
  function RemoveGustAt(k: Rack, i: nat): Rack
    requires i < |k.active|
  {
    k.(active := k.active[..i] + k.active[i + 1..], pool := k.pool + [k.active[i]],
       remaining := k.remaining[k.active[i] := 0.0])
  }

  lemma RemoveGustKeeps(k: Rack, i: nat)
    requires RackOK(k) && i < |k.active|
    ensures RackOK(RemoveGustAt(k, i))
  {
    assert k.active == k.active[..i] + [k.active[i]] + k.active[i + 1..];
  }

  lemma RackMoved(s: Scene, k: Rack)
    requires Inv(s) && RackOK(k) && s.rack.built <= k.built && (s.physicsOn || k.active == k.pool == [])
    ensures Fine(s, s.(rack := k))
  {
    hide Owners, ShelfOK, RackOK, Handles, Fired;
    SameEntriesReflexive(s.grip.physics);
    SameEntriesAged(s.grip.physics, s.grip.physics, s.grip.owner, s.log.made);
  }

  /** The gusts of a list that are not among `gone`, in their order. */
  function Dropping(gusts: seq<GustID>, gone: set<GustID>): seq<GustID> {
    if gusts == [] then []
    else
      var g := gusts[|gusts| - 1];
      if g in gone then Dropping(gusts[..|gusts| - 1], gone) else Dropping(gusts[..|gusts| - 1], gone) + [g]
  }

  lemma {:induction false} DroppingHas(gusts: seq<GustID>, gone: set<GustID>, g: GustID)
    ensures g in Dropping(gusts, gone) <==> g in gusts && g !in gone
  {
    if gusts != [] {
      DroppingHas(gusts[..|gusts| - 1], gone, g);
      assert gusts == gusts[..|gusts| - 1] + [gusts[|gusts| - 1]];
    }
  }

  lemma DroppingEmpty(gone: set<GustID>)
    ensures Dropping([], gone) == []
  {
  }

  lemma {:induction false} DroppingNone(gusts: seq<GustID>)
    ensures Dropping(gusts, {}) == gusts
  {
    if gusts != [] {
      DroppingNone(gusts[..|gusts| - 1]);
      assert gusts == gusts[..|gusts| - 1] + [gusts[|gusts| - 1]];
    }
  }

  /** Taking one gust out of a list without repetitions is dropping it as well. */
  lemma {:induction false} DropOneMore(gusts: seq<GustID>, gone: set<GustID>, i: nat)
    requires DistinctNats(gusts) && i < |Dropping(gusts, gone)|
    ensures var d := Dropping(gusts, gone); Dropping(gusts, gone + {d[i]}) == d[..i] + d[i + 1..]
  {
    var n := |gusts| - 1;
    var init, last := gusts[..n], gusts[n];
    var d := Dropping(init, gone);
    if i == |d| {
      DropAbsent(init, gone, last);
      assert (d + [last])[..i] + [] == d;
    } else {
      DropOneMore(init, gone, i);
      DroppingHas(init, gone, d[i]);
      assert d[i] in init && d[i] != last;
      assert (d + [last])[..i] == d[..i] && (d + [last])[i + 1..] == d[i + 1..] + [last];
    }
  }

  lemma {:induction false} DropAbsent(gusts: seq<GustID>, gone: set<GustID>, g: GustID)
    requires g !in gusts
    ensures Dropping(gusts, gone + {g}) == Dropping(gusts, gone)
  {
    if gusts != [] {
      DropAbsent(gusts[..|gusts| - 1], gone, g);
    }
  }

  function SetOf(s: seq<GustID>): set<GustID> {
    set g | g in s
  }

  /** The active gusts that have no time left after `delta` more. */
  function Expiring(k: Rack, delta: real): set<GustID> {
    set g | g in k.active && g in k.remaining && k.remaining[g] - delta <= 0.0
  }

  lemma ActiveGusts(s: Scene)
    requires Inv(s)
    ensures DistinctNats(s.rack.active) && SetOf(s.rack.active) <= s.rack.remaining.Keys
  {
    hide GripOK, ShelfOK, Handles, Fired, KeySets;
    var k := s.rack;
    assert multiset(k.active) <= multiset(Upto(k.built));
    forall g | g in k.active
      ensures g in k.remaining
    {
      assert g in multiset(k.active);
    }
    forall i, j | 0 <= i < j < |k.active|
      ensures k.active[i] != k.active[j]
    {
      assert k.active == k.active[..j] + k.active[j..];
      assert k.active[i] in multiset(k.active[..j]) && k.active[j] in multiset(k.active[j..]);
      assert multiset(k.active)[k.active[j]] <= 1;
    }
  }

  lemma GustLaunched(s: Scene, s': Scene)
    requires Inv(s) && s.physicsOn && s' == s.(rack := LaunchGust(s.rack))
    ensures Inv(s') && Fine(s, s')
  {
    hide Inv, LaunchGust, Later;
    RackOf(s);
    LaunchGustKeeps(s.rack);
    LaunchedBuilt(s.rack);
    RackMoved(s, s'.rack);
  }

  lemma LaunchedBuilt(k: Rack)
    ensures k.built <= LaunchGust(k).built
  {
  }

  lemma RackOf(s: Scene)
    requires Inv(s)
    ensures RackOK(s.rack) && (s.physicsOn || s.rack.active == s.rack.pool == [])
  {
    hide GripOK, ShelfOK, Handles, Fired;
  }

  lemma GustRemoved(s: Scene, s': Scene, i: nat)
    requires Inv(s) && i < |s.rack.active| && s' == s.(rack := RemoveGustAt(s.rack, i))
    ensures Inv(s') && Fine(s, s')
  {
    hide Inv, Later;
    RackOf(s);
    RemoveGustKeeps(s.rack, i);
    RackMoved(s, s'.rack);
  }

  lemma GustsAged(s: Scene, s': Scene)
    requires Inv(s) && s' == s.(rack := s.rack.(remaining := s'.rack.remaining))
    requires s'.rack.remaining.Keys == s.rack.remaining.Keys
    ensures Inv(s') && Fine(s, s')
  {
    hide Inv, Later;
    RackOf(s);
    RackMoved(s, s'.rack);
  }

  // ---------------------------------------------------------------- a crush as time passes

  function AdvanceCrush(e: Physics, delta: real): Physics {
    if e.crushProgress > 0.0 && !e.crushReported then
      var progress := Capped(e.crushProgress + delta / POD_CRUSH_DURATION);
      e.(crushProgress := progress, crushReported := progress >= 1.0)
    else e
  }

  /** One entry's turn in the first loop of `updateSimulation`. */
  function AdvanceOne(s: Scene, p: string, delta: real): Scene
    requires p in s.grip.physics
  {
    var e := s.grip.physics[p];
    s.(grip := s.grip.(physics := s.grip.physics[p := AdvanceCrush(e, delta)]),
       log := if AdvanceCrush(e, delta).crushReported && !e.crushReported
              then s.log.(due := s.log.due + [Report(e.serial, p)])
              else s.log)
  }

  lemma AdvancedBodies(g: Grip, p: string, delta: real)
    requires GripOK(g) && p in g.physics && delta >= 0.0
    ensures GripOK(g.(physics := g.physics[p := AdvanceCrush(g.physics[p], delta)]))
  {
    assert BodyOK(g.physics[p], p in g.owner);
    assert BodyOK(AdvanceCrush(g.physics[p], delta), p in g.owner);
  }

  lemma AdvancedHandles(physics: map<string, Physics>, index: map<nat, string>, p: string, delta: real)
    requires Handles(physics, index) && p in physics
    ensures Handles(physics[p := AdvanceCrush(physics[p], delta)], index)
  {
  }

  lemma AdvancedFired(s: Scene, p: string, delta: real)
    requires Fired(s.grip.physics, s.log) && p in s.grip.physics
    ensures Fired(AdvanceOne(s, p, delta).grip.physics, AdvanceOne(s, p, delta).log)
  {
    hide Fired;
    var e := s.grip.physics[p];
    if AdvanceCrush(e, delta).crushReported == e.crushReported {
      FiredAlike(s.grip.physics, s.log, p, AdvanceCrush(e, delta));
    } else {
      FiredMore(s.grip.physics, s.log, p, AdvanceCrush(e, delta));
    }
  }

  lemma FiredAlike(physics: map<string, Physics>, log: Log, p: string, e: Physics)
    requires Fired(physics, log) && p in physics && e.serial == physics[p].serial
    requires e.fallReported == physics[p].fallReported && e.crushReported == physics[p].crushReported
    ensures Fired(physics[p := e], log)
  {
    hide Told;
    ToldStays(log.hits + log.due, physics, physics[p := e], log.made, log.made, p);
    ToldStays(log.falls, physics, physics[p := e], log.made, log.made, p);
  }

  lemma FiredMore(physics: map<string, Physics>, log: Log, p: string, e: Physics)
    requires Fired(physics, log) && p in physics && e.serial == physics[p].serial
    requires e.fallReported == physics[p].fallReported && e.crushReported && !physics[p].crushReported
    ensures Fired(physics[p := e], log.(due := log.due + [Report(e.serial, p)]))
  {
    hide Told;
    var physics' := physics[p := e];
    ToldStays(log.hits + log.due, physics, physics', log.made, log.made, p);
    ToldStays(log.falls, physics, physics', log.made, log.made, p);
    OneMoreTold(log.hits + log.due, physics', log.made, p);
    assert log.hits + (log.due + [Report(e.serial, p)]) == log.hits + log.due + [Report(e.serial, p)];
  }

  /** The report about an entry that has none so far. */
  lemma OneMoreTold(reports: seq<Report>, physics: map<string, Physics>, made: nat, p: string)
    requires Told(reports, physics, made) && p in physics && physics[p].serial < made
    requires forall q <- physics :: physics[q].serial == physics[p].serial ==> q == p
    requires Report(physics[p].serial, p) !in reports
    ensures Told(reports + [Report(physics[p].serial, p)], physics, made)
  {
    forall i | 0 <= i < |reports|
      ensures reports[i].serial != physics[p].serial
    {
      assert reports[i] in reports;
    }
  }

  lemma AdvanceOneKeeps(s: Scene, p: string, delta: real)
    requires Inv(s) && p in s.grip.physics && delta >= 0.0
    ensures Inv(AdvanceOne(s, p, delta))
  {
    hide GripOK, ShelfOK, RackOK, Handles, Fired, AdvanceCrush;
    AdvancedBodies(s.grip, p, delta);
    AdvancedHandles(s.grip.physics, s.index, p, delta);
    AdvancedFired(s, p, delta);
  }

  lemma AdvancedLater(s: Scene, s': Scene, delta: real)
    requires Inv(s) && delta >= 0.0
    requires s'.physicsOn == s.physicsOn && s'.shelf == s.shelf && s'.rack == s.rack
    requires s'.log == s.log.(due := s'.log.due) && s'.grip.physics.Keys == s.grip.physics.Keys
    requires forall p <- s.grip.physics :: s'.grip.physics[p] == AdvanceCrush(s.grip.physics[p], delta)
    ensures Later(s, s', delta)
  {
    hide Owners, ShelfOK, RackOK, Handles, Fired, KeySets;
    forall p | p in s.grip.physics
      ensures Aged(s.grip.physics[p], s'.grip.physics[p], delta)
    {
      assert BodyOK(s.grip.physics[p], p in s.grip.owner);
    }
  }

  /**
    The crush of an entry that is still there `t` seconds of frame time later: it has advanced with the
    time and never past 1, and its hit has been reported exactly if the time was enough.
   */
  lemma CrushFires(s: Scene, s': Scene, p: string, t: real)
    requires Inv(s) && Inv(s') && Later(s, s', t) && t >= 0.0 && s'.log.due == []
    requires p in s.grip.physics && p in s'.grip.physics
    requires s'.grip.physics[p].serial == s.grip.physics[p].serial && s.grip.physics[p].crushProgress > 0.0
    ensures var e, e' := s.grip.physics[p], s'.grip.physics[p];
            && e.crushProgress <= e'.crushProgress <= 1.0
            && (Report(e'.serial, p) in s'.log.hits <==> e.crushProgress + t / POD_CRUSH_DURATION >= 1.0)
  {
    hide Owners, ShelfOK, RackOK, Handles, KeySets;
    assert BodyOK(s'.grip.physics[p], p in s'.grip.owner);
    assert s'.log.hits + [] == s'.log.hits;
  }

  /** How many of the reports are about an entry. */
  function Times(reports: seq<Report>, serial: nat): nat {
    if reports == [] then 0
    else
      var n := |reports| - 1;
      Times(reports[..n], serial) + if reports[n].serial == serial then 1 else 0
  }

  lemma {:induction false} OnceAtMost(reports: seq<Report>, serial: nat)
    requires OnceEach(reports)
    ensures Times(reports, serial) <= 1
    ensures Times(reports, serial) == 1 <==> exists i :: 0 <= i < |reports| && reports[i].serial == serial
  {
    if reports != [] {
      OnceAtMost(reports[..|reports| - 1], serial);
    }
  }

  /** No entry's hit, nor its fall, is ever reported twice. */
  lemma ReportedOnce(s: Scene, serial: nat)
    requires Inv(s)
    ensures Times(s.log.hits, serial) <= 1 && Times(s.log.falls, serial) <= 1
  {
    hide GripOK, ShelfOK, RackOK, Handles, KeySets;
    TailOnce(s.log.hits, s.log.due);
    OnceAtMost(s.log.hits, serial);
    OnceAtMost(s.log.falls, serial);
  }

  /** In seconds: a crush that has only begun is not reported before 0.21 and is by 0.22 of frame time. */
  lemma CrushTime(s: Scene, s': Scene, p: string, t: real)
    requires Inv(s) && Inv(s') && Later(s, s', t) && t >= 0.0 && s'.log.due == []
    requires p in s.grip.physics && p in s'.grip.physics
    requires s'.grip.physics[p].serial == s.grip.physics[p].serial
    requires s.grip.physics[p].crushProgress == 1.0 / 4503599627370496.0
    ensures t <= 0.21 ==> Report(s'.grip.physics[p].serial, p) !in s'.log.hits
    ensures t >= 0.22 ==> Report(s'.grip.physics[p].serial, p) in s'.log.hits
  {
    hide Inv, Later;
    CrushFires(s, s', p, t);
    if t <= 0.21 {
      assert t / POD_CRUSH_DURATION <= 0.21 / POD_CRUSH_DURATION;
    }
    if t >= 0.22 {
      assert t / POD_CRUSH_DURATION >= 0.22 / POD_CRUSH_DURATION;
    }
  }

  /** So a crush that begins now has been reported `t` seconds later once `t` reaches 0.22. */
  lemma CrushTakes(t: real)
    requires t >= POD_CRUSH_DURATION
    ensures EPSILON + t / POD_CRUSH_DURATION >= 1.0
  {
    assert t / POD_CRUSH_DURATION >= POD_CRUSH_DURATION / POD_CRUSH_DURATION;
  }

  // ---------------------------------------------------------------- callbacks

  function Fallen(e: Physics): Physics {
    e.(fallReported := true)
  }

  lemma FallFiled(physics: map<string, Physics>, index: map<nat, string>, p: string)
    requires Handles(physics, index) && p in physics
    ensures Handles(physics[p := Fallen(physics[p])], index)
  {
  }

  lemma FallLogged(physics: map<string, Physics>, log: Log, p: string)
    requires Fired(physics, log) && p in physics && !physics[p].fallReported
    ensures Fired(physics[p := Fallen(physics[p])], log.(falls := log.falls + [Report(physics[p].serial, p)]))
  {
    hide Told;
    var physics' := physics[p := Fallen(physics[p])];
    ToldStays(log.hits + log.due, physics, physics', log.made, log.made, p);
    ToldStays(log.falls, physics, physics', log.made, log.made, p);
    OneMoreTold(log.falls, physics', log.made, p);
  }

  lemma FallBodies(g: Grip, p: string)
    requires GripOK(g) && p in g.physics
    ensures GripOK(g.(physics := g.physics[p := Fallen(g.physics[p])]))
  {
    assert BodyOK(g.physics[p], p in g.owner);
  }

  lemma FallAged(physics: map<string, Physics>, owner: map<string, Hand>, made: nat, p: string)
    requires Bodies(physics, owner) && p in physics
    ensures AgedAll(physics, physics[p := Fallen(physics[p])], made, 0.0)
  {
    SameEntriesReflexive(physics);
    SameEntriesAged(physics, physics, owner, made);
    assert BodyOK(physics[p], p in owner);
  }

  lemma FallReported(s: Scene, s': Scene, p: string)
    requires Inv(s) && p in s.grip.physics && !s.grip.physics[p].fallReported
    requires s' == s.(grip := s.grip.(physics := s.grip.physics[p := Fallen(s.grip.physics[p])]),
                      log := s.log.(falls := s.log.falls + [Report(s.grip.physics[p].serial, p)]))
    ensures Inv(s') && Fine(s, s')
  {
    hide Owners, Bodies, ShelfOK, RackOK, Handles, Fired, AgedAll;
    FallFiled(s.grip.physics, s.index, p);
    FallLogged(s.grip.physics, s.log, p);
    FallBodies(s.grip, p);
    FallAged(s.grip.physics, s.grip.owner, s.log.made, p);
  }

  /** The first crush that is due is reported. */
  lemma HitReported(s: Scene, s': Scene)
    requires Inv(s) && s.log.due != []
    requires s' == s.(log := s.log.(hits := s.log.hits + [s.log.due[0]], due := s.log.due[1..]))
    ensures Inv(s') && Fine(s, s')
  {
    hide Owners, Bodies, ShelfOK, RackOK, Handles, AgedAll;
    assert s'.log.hits + s'.log.due == s.log.hits + s.log.due;
    SameEntriesReflexive(s.grip.physics);
    SameEntriesAged(s.grip.physics, s.grip.physics, s.grip.owner, s.log.made);
  }

  lemma SerialMade(s: Scene, p: string)
    requires Inv(s) && p in s.grip.physics
    ensures s.grip.physics[p].serial < s.log.made
  {
    hide GripOK, ShelfOK, RackOK, Handles, KeySets;
  }

  /** Every entry already visited that is below the table has been reported. */
  predicate FallsSeen(physics: map<string, Physics>, visited: set<nat>, below: set<nat>) {
    forall p <- physics :: physics[p].serial in visited && physics[p].serial in below ==> physics[p].fallReported
  }

  lemma FallsStaySeen(s: Scene, s': Scene, visited: set<nat>, below: set<nat>)
    requires FallsSeen(s.grip.physics, visited, below) && Fine(s, s') && visited <= Upto(s.log.made)
    ensures FallsSeen(s'.grip.physics, visited, below)
  {
    hide Inv;
  }

  lemma FallSeen(physics: map<string, Physics>, p: string, visited: set<nat>, below: set<nat>)
    requires p in physics && FallsSeen(physics, visited, below)
    requires forall q <- physics :: physics[q].serial == physics[p].serial ==> q == p
    ensures FallsSeen(physics[p := Fallen(physics[p])], visited + {physics[p].serial}, below)
  {
  }

  /** The second list goes on from the first, by reports about members of `below` that name the right pods. */
  predicate Extends(physics: map<string, Physics>, was: seq<Report>, now: seq<Report>, below: set<nat>) {
    && was <= now
    && forall r <- now[|was|..] :: r.serial in below && NamesPod(physics, r)
  }

  predicate NamesPod(physics: map<string, Physics>, r: Report) {
    forall p <- physics :: physics[p].serial == r.serial ==> p == r.id
  }

  lemma ExtendsMore(physics: map<string, Physics>, was: seq<Report>, now: seq<Report>, now': seq<Report>,
                    below: set<nat>)
    requires Extends(physics, was, now, below)
    requires now' == now || exists r: Report :: r.serial in below && NamesPod(physics, r) && now' == now + [r]
    ensures Extends(physics, was, now', below)
  {
    hide NamesPod;
  }

  lemma ExtendsSame(physics: map<string, Physics>, physics': map<string, Physics>, was: seq<Report>, now: seq<Report>,
                    below: set<nat>)
    requires Extends(physics', was, now, below) && SameSerials(physics, physics')
    ensures Extends(physics, was, now, below)
  {
    forall r | r in now[|was|..]
      ensures NamesPod(physics, r)
    {
      assert NamesPod(physics', r);
    }
  }

  lemma ExtendsNothing(physics: map<string, Physics>, was: seq<Report>, below: set<nat>)
    ensures Extends(physics, was, was, below)
  {
  }

  /** An entry that is older than a later state is still under the same pod there. */
  lemma StillNamesPod(s: Scene, s': Scene, p: string)
    requires Inv(s) && Fine(s, s') && p in s'.grip.physics
    ensures NamesPod(s.grip.physics, Report(s'.grip.physics[p].serial, p))
  {
    hide GripOK, ShelfOK, RackOK, Handles, KeySets, Told;
  }

  function Unvisited(physics: map<string, Physics>, visited: set<nat>): (r: set<string>)
    ensures r <= physics.Keys
  {
    set p <- physics | physics[p].serial !in visited
  }

  predicate SameSerials(physics: map<string, Physics>, physics': map<string, Physics>) {
    physics'.Keys == physics.Keys && forall p <- physics :: physics'[p].serial == physics[p].serial
  }

  lemma OneVisited(physics: map<string, Physics>, physics': map<string, Physics>, visited: set<nat>, p: string)
    requires SameSerials(physics, physics') && p in Unvisited(physics, visited)
    ensures |Unvisited(physics', visited + {physics[p].serial})| < |Unvisited(physics, visited)|
  {
    var before, after := Unvisited(physics, visited), Unvisited(physics', visited + {physics[p].serial});
    assert p !in after && after <= before - {p};
    assert before == after + (before - after) && p in before - after;
  }

  lemma NothingSeen(physics: map<string, Physics>, below: set<nat>)
    ensures FallsSeen(physics, {}, below) && Unvisited(physics, {}) == physics.Keys
  {
  }

  lemma AllSeen(physics: map<string, Physics>, visited: set<nat>, below: set<nat>)
    requires FallsSeen(physics, visited, below) && Unvisited(physics, visited) == {}
    ensures forall p <- physics :: physics[p].serial in below ==> physics[p].fallReported
  {
    forall p | p in physics
      ensures physics[p].serial in visited
    {
      assert p !in Unvisited(physics, visited);
    }
  }

  lemma FineMade(s: Scene, s': Scene)
    requires Fine(s, s')
    ensures Upto(s.log.made) <= Upto(s'.log.made)
  {
    hide Inv;
  }

  lemma SerialsDistinct(s: Scene, p: string)
    requires Inv(s) && p in s.grip.physics
    ensures forall q <- s.grip.physics :: s.grip.physics[q].serial == s.grip.physics[p].serial ==> q == p
  {
    hide GripOK, ShelfOK, RackOK, Handles, KeySets;
  }

  lemma NoEntries(s: Scene, delta: real)
    requires Inv(s) && !s.physicsOn
    ensures Later(s, s, delta) && s.grip.physics == map[]
  {
    hide GripOK, ShelfOK, RackOK, Handles, Fired;
  }

  /** The ids are those of the pods that the reports are about. */
  predicate Names(ids: seq<string>, reports: seq<Report>) {
    |ids| == |reports| && forall k :: 0 <= k < |ids| ==> ids[k] == reports[k].id
  }

  lemma NothingNamed()
    ensures Names([], [])
  {
  }

  lemma NamesMore(ids: seq<string>, reports: seq<Report>, serial: nat, p: string)
    requires Names(ids, reports)
    ensures Names(ids + [p], reports + [Report(serial, p)])
  {
  }

  /** `delta` seconds complete the crush of the entry. */
  predicate Completes(e: Physics, delta: real) {
    !e.crushReported && AdvanceCrush(e, delta).crushReported
  }

  /** The reports name, with their entries, exactly the pods whose crushes `delta` seconds complete, each once. */
  predicate HitsAre(physics: map<string, Physics>, reports: seq<Report>, delta: real) {
    && (forall r <- reports ::
          r.id in physics && r == Report(physics[r.id].serial, r.id) && Completes(physics[r.id], delta))
    && (forall p <- physics :: Completes(physics[p], delta) ==> Report(physics[p].serial, p) in reports)
    && OnceEach(reports)
  }

  /** The crushes completed among the entries that have had their turn are those that are due. */
  lemma CompletedAreDue(physics: map<string, Physics>, due: seq<Report>, todo: set<string>, delta: real, p: string)
    requires p in todo && p in physics && DueUpto(physics, due, todo, delta)
    ensures var due' := if Completes(physics[p], delta) then due + [Report(physics[p].serial, p)] else due;
            DueUpto(physics, due', todo - {p}, delta)
  {
  }

  /** `due` are the completed crushes of the entries that have had their turn. */
  predicate DueUpto(physics: map<string, Physics>, due: seq<Report>, todo: set<string>, delta: real) {
    && (forall r <- due ::
          && r.id in physics && r.id !in todo
          && r == Report(physics[r.id].serial, r.id) && Completes(physics[r.id], delta))
    && (forall p <- physics :: p !in todo && Completes(physics[p], delta) ==> Report(physics[p].serial, p) in due)
  }

  lemma NothingDue(physics: map<string, Physics>, delta: real)
    ensures DueUpto(physics, [], physics.Keys, delta)
  {
  }

  lemma DueAreHits(s: Scene, physics: map<string, Physics>, delta: real)
    requires Inv(s) && DueUpto(physics, s.log.due, {}, delta)
    ensures HitsAre(physics, s.log.due, delta)
  {
    hide GripOK, ShelfOK, RackOK, Handles, KeySets, Completes, OnceEach;
    TailOnce(s.log.hits, s.log.due);
  }

  lemma TailOnce(a: seq<Report>, b: seq<Report>)
    requires OnceEach(a + b)
    ensures OnceEach(a) && OnceEach(b)
  {
    forall i, j | 0 <= i < j < |b|
      ensures b[i].serial != b[j].serial
    {
      assert (a + b)[|a| + i] == b[i] && (a + b)[|a| + j] == b[j];
    }
    forall i, j | 0 <= i < j < |a|
      ensures a[i].serial != a[j].serial
    {
      assert (a + b)[i] == a[i] && (a + b)[j] == a[j];
    }
  }

  /** Every entry older than `made` that is below the table has been reported as fallen. */
  predicate FallsAre(physics: map<string, Physics>, made: nat, below: set<nat>) {
    forall p <- physics :: physics[p].serial < made && physics[p].serial in below ==> physics[p].fallReported
  }

  /** A fall that has been reported stays so. */
  lemma FallsKept(s: Scene, fallen: Scene, s': Scene, below: set<nat>)
    requires Fine(s, fallen) && Fine(fallen, s')
    requires forall p <- fallen.grip.physics ::
               fallen.grip.physics[p].serial in below ==> fallen.grip.physics[p].fallReported
    ensures FallsAre(s'.grip.physics, s.log.made, below)
  {
    hide Inv;
  }

  lemma FallsAreOlder(physics: map<string, Physics>, made: nat, made': nat, below: set<nat>)
    requires FallsAre(physics, made, below) && made' <= made
    ensures FallsAre(physics, made', below)
  {
  }
}
