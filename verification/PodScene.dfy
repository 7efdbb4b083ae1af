/** The scene object: its fields are updated in place, and `State` is what they say together. */
module PodScene {
  import opened Domain
  import opened SceneState
  import opened SceneEntries
  import opened SceneUpdate
  import opened SceneHands
  import opened ScenePalms

  /** What a store listener passes to `update` when something emits while a callback runs. */
  datatype Reaction = Reaction(pods: seq<SlaveState>, eliminated: set<string>)

  /** The updates that each callback of a frame runs before it returns, in the order of the callbacks. */
  type Reactions = seq<seq<Reaction>>

  predicate NeverGoneIn(reaction: seq<Reaction>, p: string) {
    forall k :: 0 <= k < |reaction| ==> NeverGone(reaction[k].pods, reaction[k].eliminated, p)
  }

  /** Frame times, which are not negative. */
  type Duration = d: real | d >= 0.0

  /** What makes the scene do something. */
  datatype Action =
    | UpdatePods(pods: seq<SlaveState>, eliminated: set<string>)
    | Frame(delta: Duration, below: set<nat>, reactions: Reactions, presenting: bool, xr: Option<XRFrame>)
    | ResetScene
    | PhysicsLoaded(ready: bool)
    | XREnd
    | PointerDown(target: string, selection: seq<Reaction>)
    | DesktopGust

  /** What the updates of a reaction make of a scene. */
  ghost predicate Reacted(s: Scene, reaction: seq<Reaction>, s': Scene) {
    && Fine(s, s')
    && (if reaction == [] then s' == s
        else Shows(s'.shelf, Wanted(reaction[|reaction| - 1].pods, reaction[|reaction| - 1].eliminated)))
    && forall q :: NeverGoneIn(reaction, q) && q in s.shelf.shown ==> SamePod(s, s', q)
  }

  lemma ReactedFine(s: Scene, reaction: seq<Reaction>, s': Scene)
    requires Reacted(s, reaction, s')
    ensures Fine(s, s')
  {
  }

  function TimeOf(action: Action): Duration {
    if action.Frame? then action.delta else 0.0
  }

  /** The frame time of a run. */
  function TimeOfAll(actions: seq<Action>): Duration {
    if actions == [] then 0.0 else TimeOfAll(actions[..|actions| - 1]) + TimeOf(actions[|actions| - 1])
  }

  predicate EndsWith(s: string, suffix: string) {
    |suffix| <= |s| && s[|s| - |suffix|..] == suffix
  }

  lemma EndsWithMeans(s: string, suffix: string)
    ensures EndsWith(s, suffix) <==> exists before :: s == before + suffix
  {
    if EndsWith(s, suffix) {
      assert s == s[..|s| - |suffix|] + suffix;
    }
  }

  lemma CardinalityDecreases<T>(a: set<T>, b: set<T>)
    requires a < b
    ensures |a| < |b|
  {
    assert b == a + (b - a) && |b| == |a| + |b - a|;
  }

  class PodScene {
    var physicsWorld: bool
    var meshById: map<string, MeshID>
    var podMeshCache: seq<MeshID>
    var meshesBuilt: nat
    var userStatus: map<MeshID, SlaveStatus>
    var podPhysicsById: map<string, Physics>
    var podIdByColliderHandle: map<nat, string>
    var podGrabOwnerById: map<string, Hand>
    var handPhysics: map<Hand, HandState>
    var gusts: seq<GustID>
    var gustPool: seq<GustID>
    var gustsBuilt: nat
    var gustRemaining: map<GustID, real>
    var entriesMade: nat
    var hudSliderActiveHand: Option<Hand>
    var tableMoveMode: bool
    var tableMoveAwaitingConfirmRelease: bool
    var pinchLatch: bool
    var activePalmContacts: set<string>
    ghost var due: seq<Report>
    ghost var hits: seq<Report>
    ghost var falls: seq<Report>

    ghost function ShelfNow(): Shelf
      reads `meshById, `podMeshCache, `meshesBuilt, `userStatus
    {
      Shelf(meshById, podMeshCache, meshesBuilt, userStatus)
    }

    ghost function GripNow(): Grip
      reads `podPhysicsById, `podGrabOwnerById, `handPhysics
    {
      Grip(podPhysicsById, podGrabOwnerById, handPhysics)
    }

    ghost function RackNow(): Rack
      reads `gusts, `gustPool, `gustsBuilt, `gustRemaining
    {
      Rack(gusts, gustPool, gustsBuilt, gustRemaining)
    }

    ghost function LogNow(): Log
      reads `entriesMade, `due, `hits, `falls
    {
      Log(entriesMade, due, hits, falls)
    }

    ghost function State(): Scene
      reads this
    {
      Scene(physicsWorld, ShelfNow(), GripNow(), podIdByColliderHandle, RackNow(), LogNow())
    }

    ghost predicate Valid()
      reads this
    {
      Inv(State())
    }

    constructor ()
      ensures Valid() && State() == EMPTY_SCENE
    {
      physicsWorld := false;
      meshById, podMeshCache, meshesBuilt, userStatus := map[], [], 0, map[];
      podPhysicsById, podGrabOwnerById, handPhysics, podIdByColliderHandle := map[], map[], map[], map[];
      gusts, gustPool, gustsBuilt, gustRemaining := [], [], 0, map[];
      entriesMade, due, hits, falls := 0, [], [], [];
      hudSliderActiveHand, tableMoveMode, tableMoveAwaitingConfirmRelease, pinchLatch := None, false, false, false;
      activePalmContacts := {};
    }

    // -------------------------------------------------------------- hands

    static function PodsIn(held: Option<string>): set<string> {
      if held.Some? then {held.value} else {}
    }

    /** The pod, if any, is without owner and dynamic again, and the hand is empty; nothing else changes. */
    method ReleaseGrab(h: Hand)
      modifies `podPhysicsById, `podGrabOwnerById, `handPhysics
      ensures h in old(handPhysics) && old(handPhysics)[h].grabbedPodId.Some? ==>
                var hand := old(handPhysics)[h];
                && handPhysics == old(handPhysics)[h := hand.(grabbedPodId := None, lastGrabAt := 0)]
                && podGrabOwnerById == old(podGrabOwnerById) - {hand.grabbedPodId.value}
                && podPhysicsById.Keys == old(podPhysicsById).Keys
                && forall p <- podPhysicsById ::
                     podPhysicsById[p] ==
                     if p == hand.grabbedPodId.value then old(podPhysicsById)[p].(kinematic := false)
                     else old(podPhysicsById)[p]
      ensures h !in old(handPhysics) || old(handPhysics)[h].grabbedPodId.None? ==> GripNow() == old(GripNow())
      ensures GripNow() == SceneState.ReleaseGrab(old(GripNow()), h)
    {
      if h !in handPhysics || handPhysics[h].grabbedPodId.None? {
        return;
      }
      var podId := handPhysics[h].grabbedPodId.value;
      if podId in podPhysicsById {
        podPhysicsById := podPhysicsById[podId := podPhysicsById[podId].(kinematic := false)];
      }
      podGrabOwnerById := podGrabOwnerById - {podId};
      handPhysics := handPhysics[h := handPhysics[h].(grabbedPodId := None, lastGrabAt := 0)];
    }

    method ClearPalmContacts(h: Hand, keep: set<string>)
      modifies `activePalmContacts
      ensures forall c :: c in activePalmContacts <==>
                c in old(activePalmContacts) && ((if h.Left? then "left:" else "right:") <= c ==> c in keep)
      ensures activePalmContacts == Kept(old(activePalmContacts), h, keep)
    {
      activePalmContacts := set c <- activePalmContacts | ContactKey(h, "") <= c ==> c in keep;
    }

    method ClearHandState(h: Hand, clearContacts: bool)
      modifies `podPhysicsById, `podGrabOwnerById, `handPhysics, `activePalmContacts
      ensures h in old(handPhysics) ==>
                && handPhysics == old(handPhysics)[h := HandState(None, false, None, 0, false, false, false)]
                && podGrabOwnerById == old(podGrabOwnerById) - PodsIn(old(handPhysics)[h].grabbedPodId)
      ensures h !in old(handPhysics) ==> GripNow() == old(GripNow())
      ensures GripNow() == ClearHand(old(GripNow()), h)
      ensures activePalmContacts ==
                if clearContacts then Kept(old(activePalmContacts), h, {}) else old(activePalmContacts)
    {
      if h in handPhysics {
        if handPhysics[h].grabbedPodId.Some? {
          ReleaseGrab(h);
        }
        handPhysics := handPhysics[h := IDLE_HAND];
      }
      if clearContacts {
        ClearPalmContacts(h, {});
      }
    }

    method ReleaseOwner(p: string)
      modifies `podPhysicsById, `podGrabOwnerById, `handPhysics
      ensures GripNow() == LetGo(old(GripNow()), p)
    {
      if p in podGrabOwnerById {
        ReleaseGrab(podGrabOwnerById[p]);
      }
    }

    /**
      A free pinching hand takes its candidate, unless the other hand owns it; one that pinches on keeps its
      pod, and one that does not keeps it for 180 ms; the hand on the slider lets go.
     */
    method UpdateGrabInteraction(h: Hand, now: int)
      modifies `podPhysicsById, `podGrabOwnerById, `handPhysics
      ensures h in old(handPhysics) && hudSliderActiveHand != Some(h) && old(handPhysics)[h].grabbedPodId.None?
              && old(handPhysics)[h].pinchActive && old(handPhysics)[h].pinchCandidateId.Some? ==>
                var hand := old(handPhysics)[h];
                var p := hand.pinchCandidateId.value;
                if p in old(podPhysicsById) && (p in old(podGrabOwnerById) ==> old(podGrabOwnerById)[p] == h) then
                  && handPhysics == old(handPhysics)[h := hand.(grabbedPodId := Some(p), lastGrabAt := now)]
                  && podGrabOwnerById == old(podGrabOwnerById)[p := h]
                  && podPhysicsById == old(podPhysicsById)[p := old(podPhysicsById)[p].(kinematic := true)]
                else GripNow() == old(GripNow())
      ensures h in old(handPhysics) && old(handPhysics)[h].grabbedPodId.Some? ==>
                var hand := old(handPhysics)[h];
                var p := hand.grabbedPodId.value;
                if hudSliderActiveHand == Some(h) || p !in old(podPhysicsById)
                   || (!hand.pinchActive && now - hand.lastGrabAt > 180) then
                  && handPhysics == old(handPhysics)[h := hand.(grabbedPodId := None, lastGrabAt := 0)]
                  && podGrabOwnerById == old(podGrabOwnerById) - {p}
                  && (p in podPhysicsById ==> !podPhysicsById[p].kinematic)
                else
                  && handPhysics == old(handPhysics)[h := hand.(lastGrabAt := if hand.pinchActive then now
                                                                              else hand.lastGrabAt)]
                  && podGrabOwnerById == old(podGrabOwnerById) && podPhysicsById == old(podPhysicsById)
      ensures h !in old(handPhysics)
              || (old(handPhysics)[h].grabbedPodId.None?
                  && (hudSliderActiveHand == Some(h) || !old(handPhysics)[h].pinchActive
                      || old(handPhysics)[h].pinchCandidateId.None?)) ==>
                GripNow() == old(GripNow())
      ensures GripNow() == UpdateGrab(old(GripNow()), h, hudSliderActiveHand, now)
    {
      if h !in handPhysics {
        return;
      }
      var hand := handPhysics[h];
      if hudSliderActiveHand == Some(h) {
        if hand.grabbedPodId.Some? {
          ReleaseGrab(h);
        }
        return;
      }
      if hand.grabbedPodId.Some? {
        if hand.grabbedPodId.value !in podPhysicsById {
          ReleaseGrab(h);
          return;
        }
        if !hand.pinchActive {
          if now - hand.lastGrabAt > GRAB_RELEASE_GRACE_MS {
            ReleaseGrab(h);
          }
          return;
        }
        handPhysics := handPhysics[h := hand.(lastGrabAt := now)];
        return;
      }
      if !hand.pinchActive || hand.pinchCandidateId.None? {
        return;
      }
      var target := hand.pinchCandidateId.value;
      if target in podGrabOwnerById && podGrabOwnerById[target] != h {
        return;
      }
      if target !in podPhysicsById {
        return;
      }
      podPhysicsById := podPhysicsById[target := podPhysicsById[target].(kinematic := true)];
      handPhysics := handPhysics[h := hand.(grabbedPodId := Some(target), lastGrabAt := now)];
      podGrabOwnerById := podGrabOwnerById[target := h];
    }

    /** A crush is begun with the gap between 1 and the next double. */
    method StartPodCrush(p: string)
      modifies `podPhysicsById, `podGrabOwnerById, `handPhysics
      ensures if && p in meshById && p in old(podPhysicsById)
                 && !(meshById[p] in userStatus && userStatus[meshById[p]] == Gone)
                 && old(podPhysicsById)[p].crushProgress <= 0.0 && !old(podPhysicsById)[p].crushReported then
                && p in podPhysicsById && podPhysicsById[p].kinematic && !podPhysicsById[p].crushReported
                && podPhysicsById[p].crushProgress == 1.0 / 4503599627370496.0
              else GripNow() == old(GripNow())
      ensures GripNow() == StartCrush(ShelfNow(), old(GripNow()), p)
    {
      if p !in meshById || p !in podPhysicsById {
        return;
      }
      var interactable := PodInteractable(p);
      if !interactable {
        return;
      }
      ReleaseOwner(p);
      podPhysicsById :=
        podPhysicsById[p := podPhysicsById[p].(kinematic := true, crushProgress := EPSILON, crushReported := false)];
    }

    method PodInteractable(p: string) returns (ok: bool)
      ensures ok <==>
                && p in meshById && !(meshById[p] in userStatus && userStatus[meshById[p]] == Gone)
                && (p in podPhysicsById ==>
                      podPhysicsById[p].crushProgress <= 0.0 && !podPhysicsById[p].crushReported)
      ensures ok <==> IsPodInteractable(ShelfNow(), podPhysicsById, p)
    {
      if p !in meshById || (meshById[p] in userStatus && userStatus[meshById[p]].Gone?) {
        return false;
      }
      return !(p in podPhysicsById && (podPhysicsById[p].crushProgress > 0.0 || podPhysicsById[p].crushReported));
    }

    // -------------------------------------------------------------- meshes and physics entries

    method CreatePodMesh() returns (mesh: MeshID)
      modifies `podMeshCache, `meshesBuilt
      ensures if old(podMeshCache) != [] then
                old(podMeshCache) == podMeshCache + [mesh] && meshesBuilt == old(meshesBuilt)
              else mesh == old(meshesBuilt) && meshesBuilt == mesh + 1 && podMeshCache == []
      ensures forall p :: ShelfNow().(shown := meshById[p := mesh]) == ShowMesh(old(ShelfNow()), p)
    {
      if podMeshCache != [] {
        mesh := podMeshCache[|podMeshCache| - 1];
        podMeshCache := podMeshCache[..|podMeshCache| - 1];
      } else {
        mesh := meshesBuilt;
        meshesBuilt := meshesBuilt + 1;
      }
    }

    /** A handle for a new collider, as no collider that is in use has. */
    method CreateCollider() returns (handle: nat)
      ensures handle !in podIdByColliderHandle
    {
      handle := 0;
      while handle in podIdByColliderHandle
        invariant Upto(handle) <= podIdByColliderHandle.Keys
        decreases |podIdByColliderHandle.Keys - Upto(handle)|
      {
        assert podIdByColliderHandle.Keys - Upto(handle + 1) < podIdByColliderHandle.Keys - Upto(handle) by {
          assert handle in podIdByColliderHandle.Keys - Upto(handle);
        }
        CardinalityDecreases(podIdByColliderHandle.Keys - Upto(handle + 1), podIdByColliderHandle.Keys - Upto(handle));
        handle := handle + 1;
      }
    }

    method CreatePodPhysics(p: string) returns (ghost handle: nat)
      modifies `podPhysicsById, `podIdByColliderHandle, `entriesMade
      ensures handle !in old(podIdByColliderHandle)
      ensures if physicsWorld && p !in old(podPhysicsById) then
                && podPhysicsById ==
                   old(podPhysicsById)[p := Physics(old(entriesMade), handle, false, false, 0.0, false)]
                && podIdByColliderHandle == old(podIdByColliderHandle)[handle := p]
                && entriesMade == old(entriesMade) + 1
              else State() == old(State())
      ensures State() == CreatePhysics(old(State()), p, handle)
    {
      var collider := CreateCollider();
      handle := collider;
      if !physicsWorld || p in podPhysicsById {
        return;
      }
      podPhysicsById := podPhysicsById[p := Physics(entriesMade, collider, false, false, 0.0, false)];
      podIdByColliderHandle := podIdByColliderHandle[collider := p];
      entriesMade := entriesMade + 1;
    }

    method RemovePodPhysics(p: string)
      modifies `podPhysicsById, `podIdByColliderHandle
      ensures podPhysicsById == old(podPhysicsById) - {p}
      ensures podIdByColliderHandle ==
                old(podIdByColliderHandle) - set q <- old(podPhysicsById) | q == p :: old(podPhysicsById)[q].handle
      ensures GripNow() == Without(old(GripNow()), p)
      ensures podIdByColliderHandle == Unindexed(old(podIdByColliderHandle), old(GripNow()), p)
    {
      if p !in podPhysicsById {
        return;
      }
      podIdByColliderHandle := podIdByColliderHandle - {podPhysicsById[p].handle};
      podPhysicsById := podPhysicsById - {p};
    }

    method RemovePodEntry(p: string, entry: MeshID)
      requires p in meshById && entry == meshById[p]
      modifies `podPhysicsById, `podIdByColliderHandle, `podGrabOwnerById, `handPhysics, `meshById, `podMeshCache
      modifies `activePalmContacts
      ensures GripNow() == Unheld(Without(LetGo(old(GripNow()), p), p), p)
      ensures podIdByColliderHandle == Unindexed(old(podIdByColliderHandle), LetGo(old(GripNow()), p), p)
      ensures ShelfNow() == HideMesh(old(ShelfNow()), p)
      ensures meshById == old(meshById) - {p} && podMeshCache == old(podMeshCache) + [entry]
      ensures activePalmContacts == set c <- old(activePalmContacts) | !EndsWith(c, ":" + p)
      ensures p !in podPhysicsById && p !in podGrabOwnerById
      ensures forall h <- handPhysics :: handPhysics[h].pinchCandidateId != Some(p)
    {
      hide LetGo, Without, Unindexed, Unheld;
      ReleaseOwner(p);
      meshById := meshById - {p};
      RemovePodPhysics(p);
      DropHolds(p);
      podMeshCache := podMeshCache + [entry];
    }

    /** What `removePodEntry` does to the hands and contacts once the physics entry is gone. */
    method DropHolds(p: string)
      modifies `podGrabOwnerById, `handPhysics, `activePalmContacts
      ensures GripNow() == Unheld(old(GripNow()), p)
      ensures podPhysicsById == old(podPhysicsById) && podGrabOwnerById == old(podGrabOwnerById) - {p}
      ensures forall h <- handPhysics :: handPhysics[h].pinchCandidateId != Some(p)
      ensures activePalmContacts == set c <- old(activePalmContacts) | !EndsWith(c, ":" + p)
    {
      podGrabOwnerById := podGrabOwnerById - {p};
      activePalmContacts := set c <- activePalmContacts | !EndsWith(c, ":" + p);
      handPhysics := map h <- handPhysics ::
        if handPhysics[h].pinchCandidateId == Some(p)
        then handPhysics[h].(pinchCandidateId := None)
        else handPhysics[h];
      assert handPhysics == DropCandidates(old(handPhysics), p);
    }

    /** `removePodEntry` as every caller meets it. */
    method EvictPod(p: string)
      requires Valid() && p in meshById
      modifies `podPhysicsById, `podIdByColliderHandle, `podGrabOwnerById, `handPhysics, `meshById, `podMeshCache
      modifies `activePalmContacts
      ensures Valid() && Fine(old(State()), State()) && meshById.Keys == old(meshById.Keys) - {p}
      ensures forall q :: q != p ==> SamePod(old(State()), State(), q)
    {
      hide Fine, Inv, SamePod, LetGo, Without, Unindexed, Unheld, HideMesh;
      ghost var s := State();
      RemovePodEntry(p, meshById[p]);
      Removed(s, State(), p);
    }

    /** A pod that has no mesh yet gets one, and an entry when physics runs. */
    method SpawnPod(p: string)
      requires Valid() && p !in meshById
      modifies `podPhysicsById, `podIdByColliderHandle, `entriesMade, `meshById, `podMeshCache, `meshesBuilt
      ensures Valid() && Fine(old(State()), State()) && meshById.Keys == old(meshById.Keys) + {p}
      ensures forall q :: q != p ==> SamePod(old(State()), State(), q)
    {
      hide Fine, Inv, CreatePhysics, SamePod, ShowMesh;
      ghost var s := State();
      var entry := CreatePodMesh();
      meshById := meshById[p := entry];
      var handle := CreatePodPhysics(p);
      assert State() == AddPod(s, p, handle);
      AddPodKeeps(s, p, handle);
      FineInv(s, State());
      forall q | q != p
        ensures SamePod(s, State(), q)
      {
        AddPodOthers(s, p, handle, q);
      }
    }

    /** The first loop of `update`: pods without an active mention go. */
    method EvictStale(active: set<string>)
      requires Valid()
      modifies `podPhysicsById, `podIdByColliderHandle, `podGrabOwnerById, `handPhysics, `meshById, `podMeshCache
      modifies `activePalmContacts
      ensures Valid() && Fine(old(State()), State()) && meshById.Keys == old(meshById.Keys) * active
      ensures forall q <- active :: SamePod(old(State()), State(), q)
    {
      hide Fine, Inv, SamePod;
      ghost var s := State();
      SceneFine(s);
      var stale := meshById.Keys - active;
      while stale != {}
        invariant Valid() && Fine(s, State())
        invariant stale == meshById.Keys - active && meshById.Keys * active == s.shelf.shown.Keys * active
        invariant forall q <- active :: SamePod(s, State(), q)
        decreases stale
      {
        ghost var before := State();
        var p :| p in stale;
        EvictPod(p);
        stale := stale - {p};
        FineTransitive(s, before, State());
        forall q | q in active
          ensures SamePod(s, State(), q)
        {
          SamePodTransitive(s, before, State(), q);
        }
      }
      assert forall p :: p in meshById && p !in active ==> p in stale;
    }

    /** One round of the second loop of `update`. */
    method ShowPod(pod: SlaveState, eliminated: set<string>)
      requires Valid()
      modifies `podPhysicsById, `podIdByColliderHandle, `podGrabOwnerById, `handPhysics, `meshById, `podMeshCache
      modifies `activePalmContacts, `entriesMade, `meshesBuilt, `userStatus
      ensures Valid() && Round(old(State()), State(), pod, eliminated)
    {
      hide Fine, Inv, SamePod;
      var p := pod.slaveID;
      ghost var s := State();
      SceneFine(s);
      if IsGone(pod, eliminated) {
        if p in meshById {
          EvictPod(p);
        }
        return;
      }
      if p !in meshById {
        SpawnPod(p);
      } else {
        // So the branch that creates a missing entry for a pod already shown is never taken.
        assert physicsWorld ==> p in podPhysicsById by {
          if physicsWorld {
            HasEntry(s, p);
          }
        }
      }
      ghost var before := State();
      userStatus := userStatus[meshById[p] := pod.status];
      SetStatusKeeps(before, p, pod.status);
      assert State() == before.(shelf := SetStatus(before.shelf, p, pod.status));
      FineInv(before, State());
      FineTransitive(s, before, State());
      forall q | SamePod(s, before, q)
        ensures SamePod(s, State(), q)
      {
        StatusIgnored(s, before, State(), q);
      }
    }

    /**
      Afterwards exactly the pods whose last mention is not gone are shown, each with that mention's
      status; a pod that no mention calls gone keeps its mesh, its entry and its owner.
     */
    method Update(pods: seq<SlaveState>, eliminated: set<string>)
      requires Valid()
      modifies `podPhysicsById, `podIdByColliderHandle, `podGrabOwnerById, `handPhysics, `meshById, `podMeshCache
      modifies `activePalmContacts, `entriesMade, `meshesBuilt, `userStatus
      ensures Valid() && Fine(old(State()), State())
      ensures Shows(ShelfNow(), Wanted(pods, eliminated))
      ensures ShowsAsked(ShelfNow(), pods, eliminated) && meshById.Keys !! eliminated
      ensures forall q :: NeverGone(pods, eliminated, q) && q in old(meshById) ==> SamePod(old(State()), State(), q)
    {
      hide Fine, Inv, SamePod;
      ghost var s := State();
      var active := set i | 0 <= i < |pods| && !IsGone(pods[i], eliminated) :: pods[i].slaveID;
      EvictStale(active);
      ghost var base := meshById.Keys;
      assert Mentioned(pods[..0]) == {};
      for i := 0 to |pods|
        invariant Valid() && ShownUpto(s, State(), base, pods, eliminated, i)
      {
        ghost var before := State();
        ShowPod(pods[i], eliminated);
        OneMoreShown(s, before, State(), base, pods, eliminated, i);
      }
      assert pods[..|pods|] == pods;
      assert base <= Mentioned(pods);
      ShownAreAsked(ShelfNow(), pods, eliminated);
    }

    // -------------------------------------------------------------- gusts

    method AcquireGust() returns (gust: GustID)
      modifies `gustPool, `gustsBuilt
      ensures if old(gustPool) != [] then old(gustPool) == gustPool + [gust] && gustsBuilt == old(gustsBuilt)
              else gust == old(gustsBuilt) && gustsBuilt == gust + 1 && gustPool == []
      ensures Rack(gusts + [gust], gustPool, gustsBuilt, gustRemaining[gust := GUST_LIFETIME]) ==
                SceneEntries.LaunchGust(old(RackNow()))
    {
      if gustPool != [] {
        gust := gustPool[|gustPool| - 1];
        gustPool := gustPool[..|gustPool| - 1];
      } else {
        gust := gustsBuilt;
        gustsBuilt := gustsBuilt + 1;
      }
    }

    method LaunchGust() returns (launched: bool)
      requires Valid()
      modifies `gusts, `gustPool, `gustsBuilt, `gustRemaining
      ensures Valid() && Fine(old(State()), State()) && launched == physicsWorld
      ensures launched ==>
                && |gusts| == |old(gusts)| + 1 && gusts[..|old(gusts)|] == old(gusts)
                && gustRemaining == old(gustRemaining)[gusts[|old(gusts)|] := 0.28]
                && (old(gustPool) != [] ==> old(gustPool) == gustPool + [gusts[|old(gusts)|]])
      ensures RackNow() == if physicsWorld then SceneEntries.LaunchGust(old(RackNow())) else old(RackNow())
    {
      hide Inv, Fine, SceneEntries.LaunchGust;
      ghost var s := State();
      SceneFine(s);
      if !physicsWorld {
        return false;
      }
      var gust := AcquireGust();
      gustRemaining := gustRemaining[gust := GUST_LIFETIME];
      gusts := gusts + [gust];
      GustLaunched(s, State());
      return true;
    }

    method RemoveGust(gust: GustID) returns (ghost index: nat)
      requires RackOK(RackNow()) && gust in gusts
      modifies `gusts, `gustPool, `gustRemaining
      ensures RackOK(RackNow())
      ensures index < |old(gusts)| && old(gusts)[index] == gust && RackNow() == RemoveGustAt(old(RackNow()), index)
      ensures gusts == old(gusts)[..index] + old(gusts)[index + 1..] && gustPool == old(gustPool) + [gust]
    {
      hide RackOK;
      ghost var k := RackNow();
      var i := 0;
      while gusts[i] != gust
        invariant i < |gusts| && gust in gusts[i..]
        decreases |gusts| - i
      {
        i := i + 1;
      }
      index := i;
      gusts := gusts[..i] + gusts[i + 1..];
      gustRemaining := gustRemaining[gust := 0.0];
      gustPool := gustPool + [gust];
      RemoveGustKeeps(k, i);
    }

    method ClearGusts()
      requires RackOK(RackNow())
      modifies `gusts, `gustPool, `gustRemaining
      ensures RackOK(RackNow()) && gusts == []
      ensures old(gusts) == [] ==> gustPool == old(gustPool)
    {
      hide RackOK;
      while gusts != []
        invariant RackOK(RackNow())
        invariant old(gusts) == [] ==> gusts == [] && gustPool == old(gustPool)
        decreases |gusts|
      {
        ghost var index := RemoveGust(gusts[|gusts| - 1]);
      }
    }

    /** The first loop of `advanceGusts`: every active gust has less time left, and some none. */
    method AgeGusts(delta: real) returns (expired: seq<GustID>)
      requires Valid()
      modifies `gustRemaining
      ensures gustRemaining.Keys == old(gustRemaining).Keys
      ensures forall g <- gustRemaining :: gustRemaining[g] == old(gustRemaining)[g] - if g in gusts then delta else 0.0
      ensures DistinctNats(expired) && SetOf(expired) == Expiring(old(RackNow()), delta)
    {
      hide Inv;
      ActiveGusts(State());
      expired := [];
      for i := 0 to |gusts|
        invariant gustRemaining.Keys == old(gustRemaining).Keys
        invariant forall g <- gustRemaining ::
                    gustRemaining[g] == old(gustRemaining)[g] - if g in gusts[..i] then delta else 0.0
        invariant DistinctNats(expired)
        invariant forall g :: g in expired <==> g in gusts[..i] && old(gustRemaining)[g] - delta <= 0.0
      {
        var gust := gusts[i];
        assert gust !in gusts[..i] && gusts[..i + 1] == gusts[..i] + [gust];
        gustRemaining := gustRemaining[gust := gustRemaining[gust] - delta];
        if gustRemaining[gust] <= 0.0 {
          expired := expired + [gust];
        }
      }
      assert gusts[..|gusts|] == gusts;
    }

    /** The last loop of `advanceGusts`. */
    method RemoveGusts(expired: seq<GustID>)
      requires Valid() && DistinctNats(expired) && SetOf(expired) <= SetOf(gusts)
      modifies `gusts, `gustPool, `gustRemaining
      ensures Valid() && Fine(old(State()), State())
      ensures gusts == Dropping(old(gusts), SetOf(expired))
      ensures forall g <- old(gustRemaining) :: g !in expired ==>
                g in gustRemaining && gustRemaining[g] == old(gustRemaining)[g]
    {
      hide Inv, Fine, Dropping;
      ghost var s := State();
      SceneFine(s);
      ActiveGusts(s);
      DroppingNone(gusts);
      assert SetOf(expired[..0]) == {};
      for i := 0 to |expired|
        invariant Valid() && Fine(s, State())
        invariant gusts == Dropping(s.rack.active, SetOf(expired[..i]))
        invariant forall g <- s.rack.remaining :: g !in expired ==>
                  g in gustRemaining && gustRemaining[g] == s.rack.remaining[g]
      {
        ghost var before := State();
        assert expired[i] in SetOf(s.rack.active) && expired[i] !in expired[..i];
        DroppingHas(s.rack.active, SetOf(expired[..i]), expired[i]);
        RackOf(before);
        ghost var k := RemoveGust(expired[i]);
        GustRemoved(before, State(), k);
        DropOneMore(s.rack.active, SetOf(expired[..i]), k);
        assert SetOf(expired[..i + 1]) == SetOf(expired[..i]) + {expired[i]};
        FineTransitive(s, before, State());
      }
      assert expired[..|expired|] == expired;
    }

    /** The gusts whose time is up go back to the pool; the others keep their order and have less time left. */
    method AdvanceGusts(delta: real)
      requires Valid()
      modifies `gusts, `gustPool, `gustRemaining
      ensures Valid() && Fine(old(State()), State())
      ensures physicsWorld ==> gusts == Dropping(old(gusts), Expiring(old(RackNow()), delta))
      ensures physicsWorld ==>
                forall g <- old(gusts) ::
                  g in old(gustRemaining) && (g in gusts <==> old(gustRemaining)[g] - delta > 0.0)
      ensures physicsWorld ==>
                forall g <- gusts ::
                  g in old(gustRemaining) && g in gustRemaining && gustRemaining[g] == old(gustRemaining)[g] - delta
    {
      hide Inv, Fine, Dropping;
      ghost var s := State();
      SceneFine(s);
      ActiveGusts(s);
      if !physicsWorld || gusts == [] {
        assert gusts == [] ==> Dropping(gusts, Expiring(s.rack, delta)) == [] by {
          DroppingEmpty(Expiring(s.rack, delta));
        }
        return;
      }
      var expired := AgeGusts(delta);
      ghost var aged := State();
      GustsAged(s, aged);
      RemoveGusts(expired);
      FineTransitive(s, aged, State());
      forall g | g in s.rack.active
        ensures g in s.rack.remaining && (g in gusts <==> s.rack.remaining[g] - delta > 0.0)
      {
        assert g in SetOf(s.rack.active);
        DroppingHas(s.rack.active, SetOf(expired), g);
        assert g in SetOf(expired) <==> g in Expiring(s.rack, delta);
      }
      forall g | g in gusts
        ensures g in gustRemaining && g in s.rack.remaining && gustRemaining[g] == s.rack.remaining[g] - delta
      {
        DroppingHas(s.rack.active, SetOf(expired), g);
        assert g in SetOf(s.rack.active) && g !in SetOf(expired);
      }
    }

    // -------------------------------------------------------------- one frame of the simulation

    /** One entry's turn in the first loop of `updateSimulation`; `complete` says that its crush is now complete. */
    method AdvanceEntry(p: string, delta: real) returns (complete: bool)
      requires Valid() && p in podPhysicsById && delta >= 0.0
      modifies `podPhysicsById, `due
      ensures Valid() && complete == Completes(old(podPhysicsById)[p], delta)
      ensures podPhysicsById == old(podPhysicsById)[p := AdvanceCrush(old(podPhysicsById)[p], delta)]
      ensures due == if complete then old(due) + [Report(old(podPhysicsById)[p].serial, p)] else old(due)
    {
      hide Inv, AdvanceCrush;
      ghost var s := State();
      var advanced := AdvanceCrush(podPhysicsById[p], delta);
      complete := advanced.crushReported && !podPhysicsById[p].crushReported;
      if complete {
        due := due + [Report(podPhysicsById[p].serial, p)];
      }
      podPhysicsById := podPhysicsById[p := advanced];
      AdvanceOneKeeps(s, p, delta);
      assert State() == AdvanceOne(s, p, delta);
    }

    /** The first loop of `updateSimulation`: begun crushes advance, and `completed` lists those now complete. */
    method AdvanceCrushes(delta: real) returns (completed: seq<string>)
      requires Valid() && due == [] && delta >= 0.0
      modifies `podPhysicsById, `due
      ensures Valid() && Later(old(State()), State(), delta)
      ensures Names(completed, due) && HitsAre(old(podPhysicsById), due, delta)
      ensures podPhysicsById.Keys == old(podPhysicsById.Keys)
      ensures forall p <- podPhysicsById :: podPhysicsById[p] == AdvanceCrush(old(podPhysicsById)[p], delta)
    {
      hide Inv, Later, AdvanceCrush, HitsAre, DueUpto, Completes, Names;
      ghost var s := State();
      completed := [];
      NothingNamed();
      NothingDue(podPhysicsById, delta);
      var todo := podPhysicsById.Keys;
      while todo != {}
        invariant Valid() && Names(completed, due) && DueUpto(s.grip.physics, due, todo, delta)
        invariant podPhysicsById.Keys == s.grip.physics.Keys && todo <= podPhysicsById.Keys
        invariant forall p <- podPhysicsById ::
                    podPhysicsById[p] == if p in todo then s.grip.physics[p] else AdvanceCrush(s.grip.physics[p], delta)
        decreases todo
      {
        ghost var before := State();
        var p :| p in todo;
        var complete := AdvanceEntry(p, delta);
        NamesMore(completed, before.log.due, before.grip.physics[p].serial, p);
        if complete {
          completed := completed + [p];
        }
        CompletedAreDue(s.grip.physics, before.log.due, todo, delta, p);
        todo := todo - {p};
      }
      AdvancedLater(s, State(), delta);
      DueAreHits(State(), s.grip.physics, delta);
    }

    /** One `update` after the other. */
    method UpdateAll(reaction: seq<Reaction>)
      requires Valid()
      modifies `podPhysicsById, `podIdByColliderHandle, `podGrabOwnerById, `handPhysics, `meshById, `podMeshCache
      modifies `activePalmContacts, `entriesMade, `meshesBuilt, `userStatus
      ensures Valid() && Reacted(old(State()), reaction, State())
    {
      hide Inv, Fine, SamePod, Shows, NeverGone, Wanted;
      ghost var s := State();
      SceneFine(s);
      for k := 0 to |reaction|
        invariant Valid() && Fine(s, State()) && (k == 0 ==> State() == s)
        invariant k > 0 ==> Shows(ShelfNow(), Wanted(reaction[k - 1].pods, reaction[k - 1].eliminated))
        invariant forall q :: NeverGoneIn(reaction, q) && q in s.shelf.shown ==> SamePod(s, State(), q)
      {
        ghost var before := State();
        Update(reaction[k].pods, reaction[k].eliminated);
        FineTransitive(s, before, State());
        forall q | NeverGoneIn(reaction, q) && q in s.shelf.shown
          ensures SamePod(s, State(), q)
        {
          KeptIsShown(s, before, q);
          SamePodTransitive(s, before, State(), q);
        }
      }
    }

    /** What a callback does to the scene, `used` being the number of callbacks before it in this frame. */
    method React(reactions: Reactions, used: nat) returns (used': nat)
      requires Valid() && used <= |reactions|
      modifies `podPhysicsById, `podIdByColliderHandle, `podGrabOwnerById, `handPhysics, `meshById, `podMeshCache
      modifies `activePalmContacts, `entriesMade, `meshesBuilt, `userStatus
      ensures Valid() && Fine(old(State()), State()) && used <= used' <= |reactions|
      ensures used' == used ==> State() == old(State())
    {
      if used == |reactions| {
        SceneFine(State());
        return used;
      }
      ghost var s := State();
      UpdateAll(reactions[used]);
      ReactedFine(s, reactions[used], State());
      return used + 1;
    }

    /** A pod is found below the table. */
    method ReportFall(p: string, reactions: Reactions, used: nat, ghost visited: set<nat>, ghost below: set<nat>)
      returns (used': nat)
      requires Valid() && used <= |reactions| && p in podPhysicsById && !podPhysicsById[p].fallReported
      requires FallsSeen(podPhysicsById, visited, below) && visited <= Upto(entriesMade)
      modifies `podPhysicsById, `podIdByColliderHandle, `podGrabOwnerById, `handPhysics, `meshById, `podMeshCache
      modifies `activePalmContacts, `entriesMade, `meshesBuilt, `userStatus, `falls
      ensures Valid() && Fine(old(State()), State()) && used <= used' <= |reactions|
      ensures falls == old(falls) + [Report(old(podPhysicsById)[p].serial, p)]
      ensures FallsSeen(podPhysicsById, visited + {old(podPhysicsById)[p].serial}, below)
      ensures used' == used ==> podPhysicsById == old(podPhysicsById)[p := Fallen(old(podPhysicsById)[p])]
    {
      hide Inv, Fine;
      ghost var s, seen := State(), visited + {podPhysicsById[p].serial};
      SerialMade(s, p);
      falls := falls + [Report(podPhysicsById[p].serial, p)];
      podPhysicsById := podPhysicsById[p := podPhysicsById[p].(fallReported := true)];
      ghost var reported := State();
      FallReported(s, reported, p);
      SerialsDistinct(s, p);
      FallSeen(s.grip.physics, p, visited, below);
      used' := React(reactions, used);
      FineTransitive(s, reported, State());
      FallsStaySeen(reported, State(), seen, below);
    }

    /**
      The second loop of `updateSimulation`: the pods whose bodies, by serial, are below the table are
      reported as fallen. The loop also visits entries that the callbacks add on the way.
     */
    method ReportFalls(below: set<nat>, reactions: Reactions) returns (used: nat)
      requires Valid()
      modifies `podPhysicsById, `podIdByColliderHandle, `podGrabOwnerById, `handPhysics, `meshById, `podMeshCache
      modifies `activePalmContacts, `entriesMade, `meshesBuilt, `userStatus, `falls
      ensures Valid() && Fine(old(State()), State()) && used <= |reactions|
      ensures forall p <- podPhysicsById :: podPhysicsById[p].serial in below ==> podPhysicsById[p].fallReported
      ensures Extends(old(podPhysicsById), old(falls), falls, below)
    {
      hide Inv, Fine, FallsSeen, Unvisited, Extends, NamesPod;
      ghost var s := State();
      SceneFine(s);
      ExtendsNothing(podPhysicsById, falls, below);
      NothingSeen(podPhysicsById, below);
      used := 0;
      var visited: set<nat> := {};
      var todo := podPhysicsById.Keys;
      while todo != {}
        invariant Valid() && Fine(s, State()) && used <= |reactions|
        invariant todo == Unvisited(podPhysicsById, visited)
        invariant visited <= Upto(entriesMade) && FallsSeen(podPhysicsById, visited, below)
        invariant Extends(s.grip.physics, s.log.falls, falls, below)
        decreases |reactions| - used, |todo|
      {
        ghost var before, used0 := State(), used;
        var p :| p in todo;
        var serial := podPhysicsById[p].serial;
        used := VisitEntry(p, below, reactions, used, visited);
        FineTransitive(s, before, State());
        StillNamesPod(s, before, p);
        ExtendsMore(s.grip.physics, s.log.falls, before.log.falls, falls, below);
        if used == used0 {
          OneVisited(before.grip.physics, podPhysicsById, visited, p);
        }
        visited := visited + {serial};
        todo := Unvisited(podPhysicsById, visited);
      }
      AllSeen(podPhysicsById, visited, below);
    }

    method VisitEntry(p: string, below: set<nat>, reactions: Reactions, used: nat, ghost visited: set<nat>)
      returns (used': nat)
      requires Valid() && used <= |reactions| && p in podPhysicsById
      requires FallsSeen(podPhysicsById, visited, below) && visited <= Upto(entriesMade)
      modifies `podPhysicsById, `podIdByColliderHandle, `podGrabOwnerById, `handPhysics, `meshById, `podMeshCache
      modifies `activePalmContacts, `entriesMade, `meshesBuilt, `userStatus, `falls
      ensures Valid() && Fine(old(State()), State()) && used <= used' <= |reactions|
      ensures || falls == old(falls)
              || (falls == old(falls) + [Report(old(podPhysicsById)[p].serial, p)]
                  && old(podPhysicsById)[p].serial in below)
      ensures FallsSeen(podPhysicsById, visited + {old(podPhysicsById)[p].serial}, below)
      ensures visited + {old(podPhysicsById)[p].serial} <= Upto(entriesMade)
      ensures used' == used ==> SameSerials(old(podPhysicsById), podPhysicsById)
    {
      hide Inv, Fine;
      ghost var s := State();
      SceneFine(s);
      SerialMade(s, p);
      SerialsDistinct(s, p);
      used' := used;
      if podPhysicsById[p].serial in below && !podPhysicsById[p].fallReported {
        used' := ReportFall(p, reactions, used, visited, below);
        FineMade(s, State());
      }
    }

    /** The hit callback for a pod. */
    method ReportHit(p: string, reactions: Reactions, used: nat) returns (used': nat)
      requires Valid() && due != [] && due[0].id == p && used <= |reactions|
      modifies `podPhysicsById, `podIdByColliderHandle, `podGrabOwnerById, `handPhysics, `meshById, `podMeshCache
      modifies `activePalmContacts, `entriesMade, `meshesBuilt, `userStatus, `due, `hits
      ensures Valid() && Fine(old(State()), State()) && used <= used' <= |reactions|
      ensures due == old(due)[1..] && hits == old(hits) + [old(due)[0]]
    {
      hide Inv, Fine;
      ghost var s := State();
      hits, due := hits + [Report(due[0].serial, p)], due[1..];
      ghost var reported := State();
      HitReported(s, reported);
      used' := React(reactions, used);
      FineTransitive(s, reported, State());
    }

    /** The last loop of `updateSimulation`: the completed crushes are reported as hits, each with its pod's id. */
    method ReportHits(completed: seq<string>, reactions: Reactions, first: nat)
      requires Valid() && Names(completed, due) && first <= |reactions|
      modifies `podPhysicsById, `podIdByColliderHandle, `podGrabOwnerById, `handPhysics, `meshById, `podMeshCache
      modifies `activePalmContacts, `entriesMade, `meshesBuilt, `userStatus, `due, `hits
      ensures Valid() && Fine(old(State()), State())
      ensures due == [] && hits == old(hits) + old(due)
    {
      hide Inv, Fine;
      ghost var s := State();
      SceneFine(s);
      var used: nat := first;
      for k := 0 to |completed|
        invariant Valid() && Fine(s, State()) && used <= |reactions|
        invariant due == s.log.due[k..] && hits == s.log.hits + s.log.due[..k]
      {
        ghost var before := State();
        used := ReportHit(completed[k], reactions, used);
        FineTransitive(s, before, State());
      }
    }

    /** The callbacks of a frame, at its end. */
    method ReportAll(completed: seq<string>, below: set<nat>, reactions: Reactions)
      requires Valid() && Names(completed, due)
      modifies `podPhysicsById, `podIdByColliderHandle, `podGrabOwnerById, `handPhysics, `meshById, `podMeshCache
      modifies `activePalmContacts, `entriesMade, `meshesBuilt, `userStatus, `due, `hits, `falls
      ensures Valid() && Fine(old(State()), State())
      ensures due == [] && hits == old(hits) + old(due)
      ensures Extends(old(podPhysicsById), old(falls), falls, below)
      ensures FallsAre(podPhysicsById, old(entriesMade), below)
    {
      hide Inv, Fine, Extends, Names;
      ghost var s := State();
      var used := ReportFalls(below, reactions);
      ghost var fallen := State();
      ReportHits(completed, reactions, used);
      FineTransitive(s, fallen, State());
      FallsKept(s, fallen, State(), below);
    }

    /**
      One frame takes `delta` seconds. It reports as hits exactly the crushes that the time completes, and
      as fallen exactly the pods that are below the table, each once.
     */
    method UpdateSimulation(delta: real, below: set<nat>, reactions: Reactions)
      requires Valid() && due == [] && delta >= 0.0
      modifies `podPhysicsById, `podIdByColliderHandle, `podGrabOwnerById, `handPhysics, `meshById, `podMeshCache
      modifies `activePalmContacts, `entriesMade, `meshesBuilt, `userStatus, `gusts, `gustPool, `gustRemaining
      modifies `due, `hits, `falls
      ensures Valid() && due == [] && Later(old(State()), State(), delta)
      ensures old(hits) <= hits && (physicsWorld ==> HitsAre(old(podPhysicsById), hits[|old(hits)|..], delta))
      ensures Extends(old(podPhysicsById), old(falls), falls, below)
      ensures physicsWorld ==> FallsAre(podPhysicsById, old(entriesMade), below)
    {
      hide Inv, Later, AdvanceCrush, Dropping, HitsAre, FallsAre, Expiring, Extends, Names;
      ghost var s := State();
      if !physicsWorld {
        NoEntries(s, delta);
        ExtendsNothing(podPhysicsById, falls, below);
        return;
      }
      var completed := AdvanceBodies(delta);
      ghost var blown := State();
      ReportAll(completed, below, reactions);
      LaterTransitive(s, blown, State(), delta, 0.0);
      FallsAreOlder(podPhysicsById, blown.log.made, s.log.made, below);
      ExtendsSame(s.grip.physics, blown.grip.physics, s.log.falls, falls, below);
    }

    /** What a frame does before its callbacks. */
    method AdvanceBodies(delta: real) returns (completed: seq<string>)
      requires Valid() && due == [] && delta >= 0.0
      modifies `podPhysicsById, `due, `gusts, `gustPool, `gustRemaining
      ensures Valid() && Later(old(State()), State(), delta)
      ensures Names(completed, due) && HitsAre(old(podPhysicsById), due, delta)
      ensures SameSerials(old(podPhysicsById), podPhysicsById)
    {
      hide Inv, Later, Dropping, HitsAre, Expiring, Names;
      ghost var s := State();
      completed := AdvanceCrushes(delta);
      ghost var crushed := State();
      AdvanceGusts(delta);
      LaterTransitive(s, crushed, State(), delta, 0.0);
    }

    // -------------------------------------------------------------- starting physics and resetting

    method EnsureHandPhysics(h: Hand)
      modifies `handPhysics
      ensures handPhysics ==
                if h in old(handPhysics) || !physicsWorld then old(handPhysics) else old(handPhysics)[h := IDLE_HAND]
    {
      if h !in handPhysics && physicsWorld {
        handPhysics := handPhysics[h := IDLE_HAND];
      }
    }

    /** `ready` says that the physics engine could be loaded. Every pod already shown gets its entry. */
    method InitializePhysics(ready: bool)
      requires Valid()
      modifies `physicsWorld, `handPhysics, `podPhysicsById, `podIdByColliderHandle, `entriesMade
      ensures Valid() && Fine(old(State()), State()) && physicsWorld == (ready || old(physicsWorld))
    {
      hide Inv, Later, Filed, CreatePhysics;
      ghost var s := State();
      SceneFine(s);
      if !ready || physicsWorld {
        return;
      }
      GripOf(s);
      physicsWorld := true;
      EnsureHandPhysics(Left);
      EnsureHandPhysics(Right);
      ghost var started := State();
      PhysicsStarted(s, started);
      CreateAllPhysics();
      LaterTransitive(s, started, State(), 0.0, 0.0);
      FiledInv(State());
    }

    method CreateAllPhysics()
      requires physicsWorld && Filed(State()) && podPhysicsById.Keys == {}
      modifies `podPhysicsById, `podIdByColliderHandle, `entriesMade
      ensures Filed(State()) && Later(old(State()), State(), 0.0) && podPhysicsById.Keys == meshById.Keys
    {
      hide Later, Filed, CreatePhysics;
      ghost var s := State();
      FiledLater(s);
      var todo := meshById.Keys;
      while todo != {}
        invariant todo <= meshById.Keys && podPhysicsById.Keys == meshById.Keys - todo
        invariant Filed(State()) && Later(s, State(), 0.0)
        decreases todo
      {
        ghost var before := State();
        var p :| p in todo;
        ghost var handle := CreatePodPhysics(p);
        CreatePhysicsKeeps(before, p, handle);
        LaterTransitive(s, before, State(), 0.0, 0.0);
        todo := todo - {p};
      }
    }

    method RecycleAll()
      requires ShelfOK(ShelfNow())
      modifies `meshById, `podMeshCache
      ensures ShelfOK(ShelfNow()) && meshById == map[]
    {
      hide ShelfOK;
      var left := meshById;
      while left.Keys != {}
        invariant ShelfOK(Shelf(left, podMeshCache, meshesBuilt, userStatus))
        decreases left.Keys
      {
        var p :| p in left.Keys;
        HideMeshKeeps(Shelf(left, podMeshCache, meshesBuilt, userStatus), p);
        podMeshCache := podMeshCache + [left[p]];
        left := left - {p};
      }
      assert left == map[];
      meshById := map[];
    }

    method RemoveAllPhysics()
      requires Handles(podPhysicsById, podIdByColliderHandle) && Fired(podPhysicsById, LogNow())
      modifies `podPhysicsById, `podIdByColliderHandle
      ensures Handles(podPhysicsById, podIdByColliderHandle) && Fired(podPhysicsById, LogNow())
      ensures podPhysicsById == map[]
    {
      hide Handles, Fired;
      while podPhysicsById.Keys != {}
        invariant Handles(podPhysicsById, podIdByColliderHandle) && Fired(podPhysicsById, LogNow())
        decreases podPhysicsById.Keys
      {
        var p :| p in podPhysicsById.Keys;
        RemovedHandles(podPhysicsById, podIdByColliderHandle, p);
        RemovedFired(podPhysicsById, LogNow(), p);
        RemovePodPhysics(p);
      }
      assert podPhysicsById == map[];
    }

    method PutAway()
      requires ShelfOK(ShelfNow()) && RackOK(RackNow())
      requires Handles(podPhysicsById, podIdByColliderHandle) && Fired(podPhysicsById, LogNow())
      modifies `meshById, `podMeshCache, `podPhysicsById, `podIdByColliderHandle, `gusts, `gustPool, `gustRemaining
      ensures ShelfOK(ShelfNow()) && meshById == map[] && RackOK(RackNow()) && gusts == []
      ensures Handles(podPhysicsById, podIdByColliderHandle) && Fired(podPhysicsById, LogNow())
      ensures podPhysicsById == map[]
      ensures old(gusts) == [] ==> gustPool == old(gustPool)
    {
      hide ShelfOK, RackOK, Handles, Fired;
      RecycleAll();
      RemoveAllPhysics();
      ClearGusts();
    }

    method ResetInput()
      modifies `pinchLatch, `hudSliderActiveHand, `tableMoveMode, `tableMoveAwaitingConfirmRelease, `activePalmContacts
      ensures !pinchLatch && hudSliderActiveHand.None? && !tableMoveMode && !tableMoveAwaitingConfirmRelease
      ensures activePalmContacts == {}
    {
      pinchLatch, hudSliderActiveHand, tableMoveMode, tableMoveAwaitingConfirmRelease := false, None, false, false;
      activePalmContacts := {};
    }

    method ResetBoard()
      requires ShelfOK(ShelfNow()) && RackOK(RackNow()) && Owners(podGrabOwnerById, handPhysics)
      requires Handles(podPhysicsById, podIdByColliderHandle) && Fired(podPhysicsById, LogNow())
      modifies `meshById, `podMeshCache, `podPhysicsById, `podIdByColliderHandle, `gusts, `gustPool, `gustRemaining
      modifies `podGrabOwnerById, `handPhysics, `activePalmContacts
      ensures ShelfOK(ShelfNow()) && meshById == map[] && RackOK(RackNow()) && gusts == []
      ensures Handles(podPhysicsById, podIdByColliderHandle) && Fired(podPhysicsById, LogNow())
      ensures podPhysicsById == map[]
      ensures old(gusts) == [] ==> gustPool == old(gustPool)
      ensures podGrabOwnerById == map[] && handPhysics.Keys == old(handPhysics.Keys)
      ensures forall h <- handPhysics :: handPhysics[h] == IDLE_HAND
    {
      hide ShelfOK, RackOK, Handles, Fired, Owners;
      PutAway();
      EmptyBothHands();
      podGrabOwnerById := map[];
    }

    /** Everything shown is put away, no gust is active and no hand holds anything. */
    method Reset()
      requires Valid()
      modifies `meshById, `podMeshCache, `podPhysicsById, `podIdByColliderHandle, `podGrabOwnerById, `handPhysics
      modifies `gusts, `gustPool, `gustRemaining
      modifies `pinchLatch, `hudSliderActiveHand, `tableMoveMode, `tableMoveAwaitingConfirmRelease, `activePalmContacts
      ensures Valid() && Fine(old(State()), State())
      ensures meshById == map[] && podPhysicsById == map[] && podGrabOwnerById == map[] && gusts == []
      ensures forall h <- handPhysics :: handPhysics[h] == IDLE_HAND
      ensures !pinchLatch && hudSliderActiveHand.None? && !tableMoveMode && activePalmContacts == {}
    {
      hide Inv, Fine, ShelfOK, RackOK, Handles, Fired, Owners;
      ghost var s := State();
      PartsOf(s);
      ResetBoard();
      ResetInput();
      EmptyHands(s.grip.hands, handPhysics);
      ResetKeeps(s, State());
    }

    method EmptyBothHands()
      requires Owners(podGrabOwnerById, handPhysics) && podPhysicsById == map[]
      modifies `podPhysicsById, `podGrabOwnerById, `handPhysics, `activePalmContacts
      ensures podPhysicsById == map[] && handPhysics.Keys == old(handPhysics.Keys)
      ensures forall h <- handPhysics :: handPhysics[h] == IDLE_HAND
      ensures activePalmContacts <= old(activePalmContacts)
    {
      hide Owners, ClearHand;
      ClearedHands(GripNow(), Left);
      ClearHandState(Left, true);
      ClearedHands(GripNow(), Right);
      ClearHandState(Right, true);
      assert forall h <- handPhysics :: h == Left || h == Right;
    }

    // -------------------------------------------------------------- XR frames

    method CollectPodIntersections(handles: seq<nat>) returns (touched: seq<string>)
      ensures touched == Touched(handles, podIdByColliderHandle)
    {
      touched := [];
      for i := 0 to |handles|
        invariant touched == Touched(handles[..i], podIdByColliderHandle)
      {
        assert handles[..i + 1][..i] == handles[..i];
        if handles[i] in podIdByColliderHandle {
          var slaveId := podIdByColliderHandle[handles[i]];
          if slaveId != "" && slaveId !in touched {
            touched := touched + [slaveId];
          }
        }
      }
      assert handles[..|handles|] == handles;
    }

    method FindPinchCandidate(touch: Touch) returns (found: Option<string>)
      ensures BestCandidate(ShelfNow(), podPhysicsById, podIdByColliderHandle, touch, found)
    {
      hide IsPodInteractable, Touched;
      var thumbHits := CollectPodIntersections(touch.thumb);
      var indexHits := CollectPodIntersections(touch.index);
      var middleHits := CollectPodIntersections(touch.middle);
      for i := 0 to |thumbHits|
        invariant forall q <- thumbHits[..i] ::
                    q in middleHits ==> !Pinchable(ShelfNow(), podPhysicsById, podIdByColliderHandle, touch, q)
      {
        var slaveId := thumbHits[i];
        if slaveId in indexHits {
          var interactable := PodInteractable(slaveId);
          if interactable && slaveId in middleHits {
            return Some(slaveId);
          }
        }
      }
      assert thumbHits[..|thumbHits|] == thumbHits;
      for i := 0 to |thumbHits|
        invariant forall q <- thumbHits[..i] :: !Pinchable(ShelfNow(), podPhysicsById, podIdByColliderHandle, touch, q)
      {
        var slaveId := thumbHits[i];
        if slaveId in indexHits {
          var interactable := PodInteractable(slaveId);
          if interactable {
            return Some(slaveId);
          }
        }
      }
      return None;
    }

    method UpdateHandPhysicsFromJoints(sample: HandSample)
      requires Valid()
      modifies `podPhysicsById, `podGrabOwnerById, `handPhysics, `activePalmContacts
      ensures Valid() && Fine(old(State()), State())
      ensures !sample.complete && sample.hand in handPhysics ==>
                handPhysics[sample.hand] == HandState(None, false, None, 0, false, false, false)
      ensures sample.complete ==>
                && podGrabOwnerById == old(podGrabOwnerById) && podPhysicsById == old(podPhysicsById)
                && handPhysics.Keys == old(handPhysics).Keys + (if physicsWorld then {sample.hand} else {})
                && forall h <- handPhysics ::
                     if h != sample.hand then handPhysics[h] == old(handPhysics)[h]
                     else
                       && handPhysics[h].openPalm == sample.openPalm && handPhysics[h].pinchActive == sample.pinch
                       && handPhysics[h].gustPoseActive == (sample.openPalm && sample.gustPose)
                       && handPhysics[h].palmCenterSet && handPhysics[h].pinchCandidateId == None
                       && (h in old(handPhysics) ==>
                             && handPhysics[h].grabbedPodId == old(handPhysics)[h].grabbedPodId
                             && handPhysics[h].lastGrabAt == old(handPhysics)[h].lastGrabAt)
      ensures GripNow() == SampleHand(old(GripNow()), physicsWorld, sample)
      ensures activePalmContacts ==
                if sample.complete then old(activePalmContacts) else Kept(old(activePalmContacts), sample.hand, {})
    {
      hide Inv, Fine, ClearHand, GripOK, SameEntries, Kept;
      ghost var s := State();
      GripOf(s);
      SampleHandKeeps(s.grip, physicsWorld, sample);
      var h := sample.hand;
      if !sample.complete {
        ClearHandState(h, true);
      } else {
        EnsureHandPhysics(h);
        if h in handPhysics {
          handPhysics := handPhysics[h := handPhysics[h].(
            openPalm := sample.openPalm, pinchActive := sample.pinch, pinchCandidateId := None,
            gustPoseActive := sample.openPalm && sample.gustPose, palmCenterSet := true)];
          assert handPhysics == old(handPhysics)[h := handPhysics[h]];
        }
      }
      HandsFine(s, State());
    }

    /** A pinching hand gets the best candidate its fingers touch, any other hand none. */
    method ChooseCandidate(h: Hand, touch: Touch)
      requires Valid()
      modifies `handPhysics
      ensures Valid() && Fine(old(State()), State())
      ensures Picks(ShelfNow(), podPhysicsById, podIdByColliderHandle, touch, h, old(handPhysics), handPhysics)
    {
      hide Inv, Fine, GripOK, SameEntries;
      ghost var s := State();
      SceneFine(s);
      if h in handPhysics {
        var candidate := None;
        if handPhysics[h].pinchActive {
          candidate := FindPinchCandidate(touch);
        }
        handPhysics := handPhysics[h := handPhysics[h].(pinchCandidateId := candidate)];
        GripOf(s);
        SetHandKeeps(s.grip, h, handPhysics[h]);
        HandsFine(s, State());
      }
    }

    method DropCandidate(h: Hand)
      requires Valid() && h in handPhysics
      modifies `handPhysics
      ensures Valid() && Fine(old(State()), State())
      ensures handPhysics == old(handPhysics)[h := old(handPhysics)[h].(pinchCandidateId := None)]
    {
      hide Inv, Fine, GripOK, SameEntries;
      ghost var s := State();
      handPhysics := handPhysics[h := handPhysics[h].(pinchCandidateId := None)];
      GripOf(s);
      SetHandKeeps(s.grip, h, handPhysics[h]);
      HandsFine(s, State());
    }

    /** The hand on the slider keeps it while it hits; otherwise the first pinching hand that hits takes it. */
    method UpdateTableHeightSliderInteraction(leftWristTracked: bool, tracked: set<Hand>, sliderHits: set<Hand>)
      requires Valid()
      modifies `handPhysics, `hudSliderActiveHand
      ensures Valid() && Fine(old(State()), State())
      ensures hudSliderActiveHand ==
              SliderHand(old(hudSliderActiveHand), tableMoveMode, leftWristTracked, tracked, sliderHits,
                         old(handPhysics))
      ensures handPhysics == WithoutCandidate(old(handPhysics), hudSliderActiveHand)
    {
      hide Inv, Fine;
      SceneFine(State());
      if tableMoveMode || !leftWristTracked {
        hudSliderActiveHand := None;
        return;
      }
      if hudSliderActiveHand.Some? && hudSliderActiveHand.value !in tracked {
        hudSliderActiveHand := None;
      }
      var order := if hudSliderActiveHand.Some? then [hudSliderActiveHand.value] else [Right, Left];
      assert |order| == 2 ==> order[0] == Right && order[1] == Left;
      for i := 0 to |order|
        invariant State() == old(State())
        invariant forall j :: 0 <= j < i ==> !TakesSlider(handPhysics, sliderHits, order[j])
      {
        var h := order[i];
        assert i == 1 ==> !TakesSlider(handPhysics, sliderHits, order[0]);
        if h in handPhysics && handPhysics[h].pinchActive && h in sliderHits {
          hudSliderActiveHand := Some(h);
          DropCandidate(h);
          return;
        }
      }
      assert !TakesSlider(handPhysics, sliderHits, order[0]);
      assert |order| == 2 ==> !TakesSlider(handPhysics, sliderHits, order[1]);
      hudSliderActiveHand := None;
    }

    /**
      While the right hand moves the table it has no candidate; the move ends when it pinches after
      having released the pinch that began it.
     */
    method UpdateTableMoveInteraction(tracked: set<Hand>)
      requires Valid()
      modifies `handPhysics, `tableMoveMode, `tableMoveAwaitingConfirmRelease
      ensures Valid() && Fine(old(State()), State())
      ensures handPhysics ==
              WithoutCandidate(old(handPhysics),
                               if MovesTable(old(tableMoveMode), tracked, old(handPhysics)) then Some(Right) else None)
      ensures tableMoveMode ==
              StillMoving(old(tableMoveMode), old(tableMoveAwaitingConfirmRelease), tracked, old(handPhysics))
      ensures tableMoveAwaitingConfirmRelease ==
              StillAwaiting(old(tableMoveMode), old(tableMoveAwaitingConfirmRelease), tracked, old(handPhysics))
    {
      hide Inv, Fine;
      SceneFine(State());
      if !tableMoveMode || Right !in tracked || Right !in handPhysics || !handPhysics[Right].palmCenterSet {
        return;
      }
      DropCandidate(Right);
      if !handPhysics[Right].pinchActive {
        tableMoveAwaitingConfirmRelease := false;
        return;
      }
      if tableMoveAwaitingConfirmRelease {
        return;
      }
      tableMoveMode := false;
      tableMoveAwaitingConfirmRelease := false;
    }

    /** The grabs of a frame: the right hand's only while the table is not being moved. */
    method UpdateGrabs(now: int)
      requires Valid() && CandidateOK(GripNow(), Left) && CandidateOK(GripNow(), Right)
      modifies `podPhysicsById, `podGrabOwnerById, `handPhysics
      ensures Valid() && Fine(old(State()), State())
      ensures GripNow() == Grabs(old(GripNow()), hudSliderActiveHand, tableMoveMode, now)
    {
      hide Inv, Fine, CandidateOK, UpdateGrab, GripOK, SameEntries;
      ghost var s := State();
      GripOf(s);
      UpdateGrabKeeps(s.grip, Left, hudSliderActiveHand, now);
      OtherCandidateKept(s.grip, Left, Right, hudSliderActiveHand, now);
      UpdateGrabInteraction(Left, now);
      ghost var half := State();
      HandsFine(s, half);
      if !tableMoveMode {
        GripOf(half);
        UpdateGrabKeeps(half.grip, Right, hudSliderActiveHand, now);
        UpdateGrabInteraction(Right, now);
        HandsFine(half, State());
        FineTransitive(s, half, State());
      }
    }

    /** `sweeping` says that the hand's sweep is fast enough and its cooldown and latch allow a gust. */
    method TryTriggerHandGust(h: Hand, sweeping: bool)
      requires Valid()
      modifies `gusts, `gustPool, `gustsBuilt, `gustRemaining
      ensures Valid() && Fine(old(State()), State())
      ensures var blows := && physicsWorld && sweeping && h in handPhysics && handPhysics[h].gustPoseActive
                           && handPhysics[h].grabbedPodId.None? && !handPhysics[h].pinchActive;
              |gusts| == |old(gusts)| + if blows then 1 else 0
      ensures RackNow() == BlowOne(old(RackNow()), physicsWorld, handPhysics, if sweeping then {h} else {}, h)
    {
      hide Inv, Fine, SceneEntries.LaunchGust;
      SceneFine(State());
      if h !in handPhysics || !handPhysics[h].gustPoseActive || handPhysics[h].grabbedPodId.Some?
         || handPhysics[h].pinchActive {
        return;
      }
      if sweeping {
        var launched := LaunchGust();
      }
    }

    /**
      A shown pod that an open palm newly touches starts being crushed; no other pod's crush changes.
     */
    method ProcessOpenPalmContacts(h: Hand, palm: seq<nat>)
      requires Valid()
      modifies `podPhysicsById, `podGrabOwnerById, `handPhysics, `activePalmContacts
      ensures Valid() && Fine(old(State()), State())
      ensures CrushesBegan(old(podPhysicsById), podPhysicsById,
                           PalmTargets(old(handPhysics), h, palm, meshById.Keys, podIdByColliderHandle,
                                       old(activePalmContacts)))
      ensures handPhysics ==
              DropHeld(old(handPhysics),
                       PalmTargets(old(handPhysics), h, palm, meshById.Keys, podIdByColliderHandle,
                                   old(activePalmContacts)))
      ensures activePalmContacts ==
              PalmContacts(old(handPhysics), h, palm, meshById.Keys, podIdByColliderHandle, old(activePalmContacts))
      ensures OwnersKept(old(podGrabOwnerById), podGrabOwnerById)
    {
      hide Inv, Fine, CrushesBegan, Touched, NewContacts, KeysOf, ListedOnce, Kept, OwnersKept, DropHeld;
      OwnersStay(podGrabOwnerById);
      DropHeldNone(handPhysics);
      ghost var s := State();
      SceneFine(s);
      NoCrush(podPhysicsById);
      if !PalmIsOpen(handPhysics, h) {
        assert activePalmContacts + {} == activePalmContacts;
        ClearPalmContacts(h, {});
        return;
      }
      var touched := CollectPodIntersections(palm);
      TouchedOnce(palm, podIdByColliderHandle);
      ghost var contacts, shown := activePalmContacts, meshById.Keys;
      var touchedContacts: set<string> := {};
      NoContacts(h, touched, shown, contacts);
      for i := 0 to |touched|
        invariant Valid() && Fine(s, State())
        invariant touchedContacts == KeysOf(h, touched[..i], shown) && activePalmContacts == contacts + touchedContacts
        invariant CrushesBegan(s.grip.physics, podPhysicsById, NewContacts(touched[..i], shown, h, contacts))
        invariant OwnersKept(s.grip.owner, podGrabOwnerById)
        invariant handPhysics == DropHeld(s.grip.hands, NewContacts(touched[..i], shown, h, contacts))
      {
        ghost var before, active := State(), activePalmContacts;
        ContactStep(touched, i, shown, h, contacts, active);
        NoneGone(before);
        if touched[i] in meshById && !(meshById[touched[i]] in userStatus && userStatus[meshById[touched[i]]].Gone?) {
          touchedContacts := touchedContacts + {ContactKey(h, touched[i])};
        }
        TouchPod(h, touched[i]);
        FineTransitive(s, before, State());
        OwnersKeptTransitive(s.grip.owner, before.grip.owner, podGrabOwnerById);
        CrushesAdd(s.grip.physics, before.grip.physics, podPhysicsById, NewContacts(touched[..i], shown, h, contacts),
                   NewContacts([touched[i]], shown, h, active));
        DropHeldMore(s.grip.hands, NewContacts(touched[..i], shown, h, contacts),
                     NewContacts([touched[i]], shown, h, active));
      }
      ClearPalmContacts(h, touchedContacts);
    }

    /** One touched pod's turn in `processOpenPalmContacts`. */
    method TouchPod(h: Hand, p: string)
      requires Valid()
      modifies `podPhysicsById, `podGrabOwnerById, `handPhysics, `activePalmContacts
      ensures Valid() && Fine(old(State()), State())
      ensures activePalmContacts == old(activePalmContacts) + if p in meshById then {ContactKey(h, p)} else {}
      ensures CrushesBegan(old(podPhysicsById), podPhysicsById,
                           NewContacts([p], meshById.Keys, h, old(activePalmContacts)))
      ensures OwnersKept(old(podGrabOwnerById), podGrabOwnerById)
      ensures handPhysics == DropHeld(old(handPhysics), NewContacts([p], meshById.Keys, h, old(activePalmContacts)))
    {
      hide Inv, Fine, StartCrush, CrushesBegan, DropHeld;
      DropHeldNone(handPhysics);
      SceneFine(State());
      NoneGone(State());
      NoCrush(podPhysicsById);
      ghost var contacts := activePalmContacts;
      if p in meshById && !(meshById[p] in userStatus && userStatus[meshById[p]].Gone?)
         && ContactKey(h, p) !in activePalmContacts {
        activePalmContacts := activePalmContacts + {ContactKey(h, p)};
        CrushPod(p);
        assert NewContacts([p], meshById.Keys, h, contacts) == {p};
      } else {
        assert NewContacts([p], meshById.Keys, h, contacts) == {};
      }
    }

    /** `startPodCrush` as every caller meets it. */
    method CrushPod(p: string)
      requires Valid()
      modifies `podPhysicsById, `podGrabOwnerById, `handPhysics
      ensures Valid() && Fine(old(State()), State()) && GripNow() == StartCrush(ShelfNow(), old(GripNow()), p)
      ensures CrushesBegan(old(podPhysicsById), podPhysicsById, if p in meshById then {p} else {})
      ensures OwnersKept(old(podGrabOwnerById), podGrabOwnerById)
      ensures handPhysics == DropHeld(old(handPhysics), if p in meshById then {p} else {})
    {
      hide Inv, Fine, StartCrush, GripOK, SameEntries, CrushesBegan, OwnersKept, DropHeld;
      ghost var s := State();
      CrushDrops(s, p);
      GripOf(s);
      NoneGone(s);
      StartCrushKeeps(s.shelf, s.grip, p);
      StartCrushOnly(s.shelf, s.grip, p);
      CrushKeepsOwners(s.shelf, s.grip, p);
      StartPodCrush(p);
      HandsFine(s, State());
    }

    /** The hands of an XR frame: every sample is taken in, and a hand without one is emptied. */
    method SampleHands(samples: seq<HandSample>)
      returns (tracked: set<Hand>, leftWristTracked: bool, moving: bool, touching: bool)
      requires Valid()
      modifies `podPhysicsById, `podGrabOwnerById, `handPhysics, `activePalmContacts
      ensures Valid() && Fine(old(State()), State())
      ensures tracked == TrackedIn(samples)
      ensures leftWristTracked == LeftWristSeen(samples)
      ensures moving == MoveRequested(samples) && touching == ButtonPinched(samples)
      ensures forall h <- handPhysics :: h !in tracked ==> handPhysics[h] == IDLE_HAND
      ensures GripNow() == ClearOthers(SampleAll(old(GripNow()), physicsWorld, samples), tracked)
      ensures activePalmContacts == TrackedContacts(SampledContacts(old(activePalmContacts), samples), tracked)
      ensures LetsGo(old(GripNow()), GripNow())
    {
      hide Inv, Fine, SampleHand, ClearHand, LetsGo, GripOK, ClearOthers;
      hide TrackedIn, PinchSeen, MoveTouched, DisconnectTouched, LeftWristSeen, Kept, TrackedContacts;
      NobodyLetsGo(GripNow());
      NothingSeenYet(samples);
      ghost var s, contacts := State(), activePalmContacts;
      SceneFine(s);
      tracked, leftWristTracked := {}, false;
      var pinch, move, disconnect := false, false, false;
      for i := 0 to |samples|
        invariant Valid() && Fine(s, State())
        invariant tracked == TrackedIn(samples[..i]) && leftWristTracked == LeftWristSeen(samples[..i])
        invariant pinch == PinchSeen(samples[..i])
        invariant move == MoveTouched(samples[..i]) && disconnect == DisconnectTouched(samples[..i])
        invariant LetsGo(s.grip, GripNow()) && GripNow() == SampleAll(s.grip, physicsWorld, samples[..i])
        invariant activePalmContacts == SampledContacts(contacts, samples[..i])
      {
        assert samples[..i + 1][..i] == samples[..i] && samples[..i + 1] == samples[..i] + [samples[i]];
        SeenStep(samples[..i], samples[i]);
        ghost var before := State();
        tracked := tracked + {samples[i].hand};
        UpdateHandPhysicsFromJoints(samples[i]);
        FineTransitive(s, before, State());
        GripOf(before);
        SampleLetsGo(before.grip, physicsWorld, samples[i]);
        LetsGoTransitive(s.grip, before.grip, GripNow());
        if samples[i].complete {
          leftWristTracked := leftWristTracked || samples[i].hand.Left?;
          pinch := pinch || samples[i].pinch;
          move := move || samples[i].moveButtonTouched;
          disconnect := disconnect || samples[i].disconnectButtonTouched;
        }
      }
      moving, touching := move && pinch, (disconnect || move) && pinch;
      ghost var sampled := State();
      ClearUntracked(tracked);
      FineTransitive(s, sampled, State());
      LetsGoTransitive(s.grip, sampled.grip, GripNow());
    }

    method ClearUntracked(tracked: set<Hand>)
      requires Valid()
      modifies `podPhysicsById, `podGrabOwnerById, `handPhysics, `activePalmContacts
      ensures Valid() && Fine(old(State()), State()) && LetsGo(old(GripNow()), GripNow())
      ensures GripNow() == ClearOthers(old(GripNow()), tracked)
      ensures activePalmContacts == TrackedContacts(old(activePalmContacts), tracked)
      ensures forall h <- handPhysics :: h !in tracked ==> handPhysics[h] == IDLE_HAND
    {
      hide Inv, Fine, LetsGo, ClearHand, Kept;
      ghost var s := State();
      SceneFine(s);
      NobodyLetsGo(s.grip);
      if Left !in tracked {
        EmptyHand(Left);
      }
      ghost var half := State();
      if Right !in tracked {
        EmptyHand(Right);
        FineTransitive(s, half, State());
        LetsGoTransitive(s.grip, half.grip, GripNow());
      }
      assert forall h <- handPhysics :: h == Left || h == Right;
    }

    /** `clearHandState` as every caller meets it. */
    method EmptyHand(h: Hand)
      requires Valid()
      modifies `podPhysicsById, `podGrabOwnerById, `handPhysics, `activePalmContacts
      ensures Valid() && Fine(old(State()), State()) && GripNow() == ClearHand(old(GripNow()), h)
      ensures activePalmContacts == Kept(old(activePalmContacts), h, {})
      ensures handPhysics.Keys == old(handPhysics.Keys) && (h in handPhysics ==> handPhysics[h] == IDLE_HAND)
      ensures forall k <- handPhysics :: k != h ==> handPhysics[k] == old(handPhysics)[k]
      ensures LetsGo(old(GripNow()), GripNow())
    {
      hide Inv, Fine, ClearHand, GripOK, SameEntries, OwnersKept, CrushesBegan;
      ReleaseKeepsOwners(GripNow(), h);
      ghost var s := State();
      GripOf(s);
      ClearHandKeeps(s.grip, h);
      ClearHandOnly(s.grip, h);
      ClearHandState(h, true);
      HandsFine(s, State());
    }

    method EmptyHandsOf()
      requires Valid()
      modifies `podPhysicsById, `podGrabOwnerById, `handPhysics, `activePalmContacts
      ensures Valid() && Fine(old(State()), State())
      ensures podGrabOwnerById == map[] && forall h <- handPhysics :: handPhysics[h] == IDLE_HAND
      ensures LetsGo(old(GripNow()), GripNow())
    {
      hide Inv, Fine, LetsGo;
      ghost var s := State();
      EmptyHand(Left);
      ghost var half := State();
      EmptyHand(Right);
      FineTransitive(s, half, State());
      LetsGoTransitive(s.grip, half.grip, GripNow());
      assert forall h <- handPhysics :: h == Left || h == Right;
      NobodyOwns(State());
    }

    /** From the hands of a frame to the grabs: candidates, the slider, the table move, and the grabs themselves. */
    method MoveHands(frame: XRFrame, tracked: set<Hand>, leftWristTracked: bool) returns (ghost steady: Grip)
      requires Valid()
      modifies `podPhysicsById, `podGrabOwnerById, `handPhysics, `hudSliderActiveHand
      modifies `tableMoveMode, `tableMoveAwaitingConfirmRelease
      ensures Valid() && Fine(old(State()), State())
      ensures Steadied(old(hudSliderActiveHand), old(tableMoveMode), old(tableMoveAwaitingConfirmRelease),
                       old(handPhysics), frame, tracked, leftWristTracked)
      ensures GrabsFrom(ShelfNow(), old(podPhysicsById), podIdByColliderHandle, frame, old(podGrabOwnerById),
                        podGrabOwnerById)
      ensures Choose(ShelfNow(), old(GripNow()), podIdByColliderHandle, frame, hudSliderActiveHand,
                     MovesTable(old(tableMoveMode), tracked, old(handPhysics)), steady)
      ensures GripNow() == Grabs(steady, hudSliderActiveHand, tableMoveMode, frame.now)
      ensures CrushesBegan(old(podPhysicsById), podPhysicsById, {})
    {
      hide Grabs, CrushesBegan;
      hide Inv, Fine, CandidateOK, UpdateGrab, CandidatesFrom, Choose, GrabsFrom;
      ghost var s, physics, index := State(), podPhysicsById, podIdByColliderHandle;
      SteadyHands(frame, tracked, leftWristTracked);
      ghost var moved := State();
      steady := moved.grip;
      CandidatesAreOK(moved.shelf, moved.grip, index, frame, Left);
      CandidatesAreOK(moved.shelf, moved.grip, index, frame, Right);
      GrabsTake(moved.shelf, moved.grip, index, frame, hudSliderActiveHand, tableMoveMode);
      GrabsCrushNothing(steady, hudSliderActiveHand, tableMoveMode, frame.now);
      UpdateGrabs(frame.now);
      FineTransitive(s, moved, State());
    }

    /** What is decided before any grab: candidates, the slider and the table move. */
    method SteadyHands(frame: XRFrame, tracked: set<Hand>, leftWristTracked: bool)
      requires Valid()
      modifies `handPhysics, `hudSliderActiveHand, `tableMoveMode, `tableMoveAwaitingConfirmRelease
      ensures Valid() && Fine(old(State()), State())
      ensures Steadied(old(hudSliderActiveHand), old(tableMoveMode), old(tableMoveAwaitingConfirmRelease),
                       old(handPhysics), frame, tracked, leftWristTracked)
      ensures CandidatesFrom(ShelfNow(), podPhysicsById, podIdByColliderHandle, frame, handPhysics)
      ensures Choose(ShelfNow(), old(GripNow()), podIdByColliderHandle, frame, hudSliderActiveHand,
                     MovesTable(old(tableMoveMode), tracked, old(handPhysics)), GripNow())
    {
      hide Inv, Fine, CandidatesFrom, BestCandidate, CandidatesDropped, WithoutCandidate, SliderHand;
      hide MovesTable, StillMoving, StillAwaiting;
      ghost var s, moves := State(), MovesTable(tableMoveMode, tracked, handPhysics);
      ChooseCandidates(frame);
      ghost var chosen := State();
      UpdateTableHeightSliderInteraction(leftWristTracked, tracked, frame.sliderHits);
      ghost var slid := State();
      UpdateTableMoveInteraction(tracked);
      FineTransitive(s, chosen, slid);
      FineTransitive(s, slid, State());
      SteadyFacts(s.grip.hands, chosen.grip.hands, hudSliderActiveHand);
      ChooseDropped(s.shelf, s.grip, s.index, frame, hudSliderActiveHand, moves, chosen.grip.hands);
      WithoutIsDropped(chosen.grip.hands, hudSliderActiveHand);
      WithoutIsDropped(slid.grip.hands, if moves then Some(Right) else None);
      DroppedKeeps(s.shelf, s.grip.physics, s.index, frame, chosen.grip.hands, slid.grip.hands);
      DroppedKeeps(s.shelf, s.grip.physics, s.index, frame, slid.grip.hands, handPhysics);
    }

    /** What slider and table move have become, told from the hands as they were sampled. */
    ghost predicate Steadied(slider: Option<Hand>, moving: bool, awaiting: bool, hands: map<Hand, HandState>,
                             frame: XRFrame, tracked: set<Hand>, leftWristTracked: bool)
      reads `hudSliderActiveHand, `tableMoveMode, `tableMoveAwaitingConfirmRelease
    {
      && hudSliderActiveHand == SliderHand(slider, moving, leftWristTracked, tracked, frame.sliderHits, hands)
      && tableMoveMode == StillMoving(moving, awaiting, tracked, hands)
      && tableMoveAwaitingConfirmRelease == StillAwaiting(moving, awaiting, tracked, hands)
    }

    method ChooseCandidates(frame: XRFrame)
      requires Valid()
      modifies `handPhysics
      ensures Valid() && Fine(old(State()), State())
      ensures CandidatesFrom(ShelfNow(), podPhysicsById, podIdByColliderHandle, frame, handPhysics)
      ensures Choose(ShelfNow(), old(GripNow()), podIdByColliderHandle, frame, None, false, GripNow())
    {
      hide Inv, Fine, Picks, Choose, CandidatesFrom;
      ghost var s := State();
      ChooseCandidate(Left, frame.left);
      ghost var half := State();
      ChooseCandidate(Right, frame.right);
      FineTransitive(s, half, State());
      BothPicked(s.shelf, s.grip, s.index, frame, half.grip.hands, handPhysics);
      ChosenFrom(s.shelf, s.grip, s.index, frame, handPhysics);
    }

    /** The gusts of the hands and the crushes of their palms; the right hand's only while the table stays. */
    method ActWithHands(frame: XRFrame)
      requires Valid()
      modifies `podPhysicsById, `podGrabOwnerById, `handPhysics, `activePalmContacts
      modifies `gusts, `gustPool, `gustsBuilt, `gustRemaining
      ensures Valid() && Fine(old(State()), State())
      ensures OwnersKept(old(podGrabOwnerById), podGrabOwnerById)
      ensures RackNow() == Blow(old(RackNow()), physicsWorld, old(handPhysics), frame.sweeping, tableMoveMode)
      ensures CrushesBegan(old(podPhysicsById), podPhysicsById,
                           FrameTargets(old(handPhysics), frame, meshById.Keys, podIdByColliderHandle,
                                        old(activePalmContacts), tableMoveMode))
      ensures handPhysics ==
                DropHeld(old(handPhysics),
                         FrameTargets(old(handPhysics), frame, meshById.Keys, podIdByColliderHandle,
                                      old(activePalmContacts), tableMoveMode))
      ensures activePalmContacts ==
                FrameContacts(old(handPhysics), frame, meshById.Keys, podIdByColliderHandle, old(activePalmContacts),
                              tableMoveMode)
    {
      hide Inv, Fine, CrushesBegan, OwnersKept, Blow, FrameTargets, FrameContacts, DropHeld;
      ghost var s := State();
      TriggerHandGusts(frame.sweeping);
      ghost var blown := State();
      ProcessPalms(frame);
      FineTransitive(s, blown, State());
    }

    method ProcessPalms(frame: XRFrame)
      requires Valid()
      modifies `podPhysicsById, `podGrabOwnerById, `handPhysics, `activePalmContacts
      ensures Valid() && Fine(old(State()), State())
      ensures OwnersKept(old(podGrabOwnerById), podGrabOwnerById)
      ensures CrushesBegan(old(podPhysicsById), podPhysicsById,
                           FrameTargets(old(handPhysics), frame, meshById.Keys, podIdByColliderHandle,
                                        old(activePalmContacts), tableMoveMode))
      ensures handPhysics ==
                DropHeld(old(handPhysics),
                         FrameTargets(old(handPhysics), frame, meshById.Keys, podIdByColliderHandle,
                                      old(activePalmContacts), tableMoveMode))
      ensures activePalmContacts ==
                FrameContacts(old(handPhysics), frame, meshById.Keys, podIdByColliderHandle, old(activePalmContacts),
                              tableMoveMode)
    {
      hide Inv, Fine, CrushesBegan, OwnersKept, PalmTargets, PalmContacts, DropHeld, Kept;
      ghost var s, contacts := State(), activePalmContacts;
      ProcessOpenPalmContacts(Left, frame.left.palm);
      ghost var touched, then_ := State(), activePalmContacts;
      if !tableMoveMode {
        ProcessOpenPalmContacts(Right, frame.right.palm);
        FineTransitive(s, touched, State());
        OwnersKeptTransitive(s.grip.owner, touched.grip.owner, podGrabOwnerById);
        CrushesAdd(s.grip.physics, touched.grip.physics, podPhysicsById,
                   PalmTargets(s.grip.hands, Left, frame.left.palm, s.shelf.shown.Keys, s.index, contacts),
                   PalmTargets(touched.grip.hands, Right, frame.right.palm, s.shelf.shown.Keys, s.index, then_));
        DropHeldMore(s.grip.hands,
                     PalmTargets(s.grip.hands, Left, frame.left.palm, s.shelf.shown.Keys, s.index, contacts),
                     PalmTargets(touched.grip.hands, Right, frame.right.palm, s.shelf.shown.Keys, s.index, then_));
      } else {
        ClearPalmContacts(Right, {});
      }
    }

    method TriggerHandGusts(sweeping: set<Hand>)
      requires Valid()
      modifies `gusts, `gustPool, `gustsBuilt, `gustRemaining
      ensures Valid() && Fine(old(State()), State())
      ensures RackNow() == Blow(old(RackNow()), physicsWorld, handPhysics, sweeping, tableMoveMode)
    {
      hide Inv, Fine, SceneEntries.LaunchGust;
      ghost var s := State();
      TryTriggerHandGust(Left, Left in sweeping);
      ghost var half := State();
      if !tableMoveMode {
        TryTriggerHandGust(Right, Right in sweeping);
        FineTransitive(s, half, State());
      }
    }

    /** `releaseGrab` as its other callers meet it. */
    method DropGrab(h: Hand)
      requires Valid()
      modifies `podPhysicsById, `podGrabOwnerById, `handPhysics
      ensures Valid() && Fine(old(State()), State()) && GripNow() == SceneState.ReleaseGrab(old(GripNow()), h)
      ensures LetsGo(old(GripNow()), GripNow())
    {
      hide Inv, Fine, GripOK, SameEntries, OwnersKept, CrushesBegan, SceneState.ReleaseGrab;
      ReleaseKeepsOwners(GripNow(), h);
      ghost var s := State();
      GripOf(s);
      ReleaseGrabKeeps(s.grip, h);
      ReleaseGrab(h);
      HandsFine(s, State());
    }

    method StartTableMoveMode()
      requires Valid()
      modifies `podPhysicsById, `podGrabOwnerById, `handPhysics, `hudSliderActiveHand
      modifies `tableMoveMode, `tableMoveAwaitingConfirmRelease
      ensures Valid() && Fine(old(State()), State()) && tableMoveMode && tableMoveAwaitingConfirmRelease
      ensures hudSliderActiveHand == None && GripNow() == SceneState.ReleaseGrab(old(GripNow()), Right)
      ensures LetsGo(old(GripNow()), GripNow())
    {
      hide Inv, Fine, LetsGo, SceneState.ReleaseGrab;
      tableMoveMode, tableMoveAwaitingConfirmRelease, hudSliderActiveHand := true, true, None;
      DropGrab(Right);
    }

    /** A pinch that begins on the move button starts the table move; one on either button is latched. */
    method UpdatePinchLatch(moving: bool, touching: bool)
      requires Valid()
      modifies `podPhysicsById, `podGrabOwnerById, `handPhysics, `hudSliderActiveHand, `pinchLatch
      modifies `tableMoveMode, `tableMoveAwaitingConfirmRelease
      ensures Valid() && Fine(old(State()), State()) && pinchLatch == touching
      ensures var started := moving && !old(pinchLatch);
              && tableMoveMode == (started || old(tableMoveMode))
              && tableMoveAwaitingConfirmRelease == (started || old(tableMoveAwaitingConfirmRelease))
              && hudSliderActiveHand == (if started then None else old(hudSliderActiveHand))
              && GripNow() == if started then SceneState.ReleaseGrab(old(GripNow()), Right) else old(GripNow())
      ensures LetsGo(old(GripNow()), GripNow())
    {
      hide Inv, Fine, LetsGo, SceneState.ReleaseGrab;
      NobodyLetsGo(GripNow());
      var latched := pinchLatch;
      pinchLatch := touching;
      if moving && !latched {
        StartTableMoveMode();
      } else {
        SceneFine(State());
      }
    }

    /** What the hands of a frame leave, `started` saying that a table move has started. */
    ghost predicate Acted(turn: Turn, frame: XRFrame, k: Rack, started: bool)
      reads this
    {
      && RackNow() == Blow(k, physicsWorld, turn.moved.hands, frame.sweeping, turn.tableMoving)
      && handPhysics == turn.HandsAfter(frame, meshById.Keys, podIdByColliderHandle, started)
      && activePalmContacts ==
         FrameContacts(turn.moved.hands, frame, meshById.Keys, podIdByColliderHandle, turn.contacts, turn.tableMoving)
      && hudSliderActiveHand == (if started then None else turn.slider)
      && tableMoveMode == (started || turn.tableMoving)
      && tableMoveAwaitingConfirmRelease == (started || turn.awaiting)
    }

    lemma ActedHands(turn: Turn, frame: XRFrame, k: Rack, started: bool)
      requires Acted(turn, frame, k, started)
      ensures handPhysics == turn.HandsAfter(frame, meshById.Keys, podIdByColliderHandle, started)
    {
    }

    /**
      What an XR frame does to the scene, in the order of `updateWristHud`: `turn` is what it decides on
      the way. `None` is a frame without poses, after which no hand holds anything.
     */
    method UpdateWristHud(xr: Option<XRFrame>) returns (ghost turn: Turn)
      requires Valid()
      modifies `podPhysicsById, `podGrabOwnerById, `handPhysics, `hudSliderActiveHand, `activePalmContacts, `pinchLatch
      modifies `tableMoveMode, `tableMoveAwaitingConfirmRelease, `gusts, `gustPool, `gustsBuilt, `gustRemaining
      ensures Valid() && Fine(old(State()), State())
      ensures xr.None? ==>
                && podGrabOwnerById == map[] && LetsGo(old(GripNow()), GripNow()) && pinchLatch == old(pinchLatch)
                && RackNow() == old(RackNow()) && tableMoveMode == old(tableMoveMode)
      ensures xr.Some? ==>
                && Sampled(turn, xr.value.samples, physicsWorld, old(GripNow()), old(activePalmContacts))
                && Decided(turn, xr.value, ShelfNow(), podIdByColliderHandle, old(hudSliderActiveHand),
                           old(tableMoveMode), old(tableMoveAwaitingConfirmRelease))
                && Acted(turn, xr.value, old(RackNow()), MoveRequested(xr.value.samples) && !old(pinchLatch))
                && pinchLatch == ButtonPinched(xr.value.samples)
                && Played(ShelfNow(), podIdByColliderHandle, xr.value, old(GripNow()), GripNow(),
                          turn.Crushed(xr.value, meshById.Keys, podIdByColliderHandle))
                && Grabbed(turn, xr.value.now, turn.Crushed(xr.value, meshById.Keys, podIdByColliderHandle),
                           MoveRequested(xr.value.samples) && !old(pinchLatch), GripNow())
    {
      hide Inv, Fine, Played, LetsGo, MoveRequested, ButtonPinched, Sampled, Decided, Acted, Turn.Crushed, Grabbed;
      if xr.None? {
        turn := Turn(GripNow(), {}, None, false, false, GripNow(), GripNow());
        EmptyHandsOf();
      } else {
        turn := HandleFrame(xr.value);
      }
    }

    method HandleFrame(frame: XRFrame) returns (ghost turn: Turn)
      requires Valid()
      modifies `podPhysicsById, `podGrabOwnerById, `handPhysics, `hudSliderActiveHand, `activePalmContacts, `pinchLatch
      modifies `tableMoveMode, `tableMoveAwaitingConfirmRelease, `gusts, `gustPool, `gustsBuilt, `gustRemaining
      ensures Valid() && Fine(old(State()), State()) && pinchLatch == ButtonPinched(frame.samples)
      ensures Sampled(turn, frame.samples, physicsWorld, old(GripNow()), old(activePalmContacts))
      ensures Decided(turn, frame, ShelfNow(), podIdByColliderHandle, old(hudSliderActiveHand), old(tableMoveMode),
                      old(tableMoveAwaitingConfirmRelease))
      ensures Acted(turn, frame, old(RackNow()), MoveRequested(frame.samples) && !old(pinchLatch))
      ensures Played(ShelfNow(), podIdByColliderHandle, frame, old(GripNow()), GripNow(),
                     turn.Crushed(frame, meshById.Keys, podIdByColliderHandle))
      ensures Grabbed(turn, frame.now, turn.Crushed(frame, meshById.Keys, podIdByColliderHandle),
                      MoveRequested(frame.samples) && !old(pinchLatch), GripNow())
    {
      hide Inv, Fine, Played, LetsGo, MoveRequested, ButtonPinched, TrackedIn, LeftWristSeen, SampleAll, ClearOthers;
      hide Decided, Acted, Turn.Crushed, Turn.HandsAfter, SampledContacts, TrackedContacts, Grabbed, Grabs;
      ghost var s := State();
      var tracked, leftWristTracked, moving, touching := SampleHands(frame.samples);
      ghost var sampled := State();
      turn := UseHands(frame, tracked, leftWristTracked, moving, touching);
      FineTransitive(s, sampled, State());
      PlayedAfter(s.shelf, s.index, frame, s.grip, sampled.grip, GripNow(),
                  turn.Crushed(frame, meshById.Keys, podIdByColliderHandle));
      ActedHands(turn, frame, s.rack, MoveRequested(frame.samples) && !old(pinchLatch));
      DecidedGrabs(turn, frame, s.shelf, s.index, old(hudSliderActiveHand), old(tableMoveMode),
                   old(tableMoveAwaitingConfirmRelease));
      HandsHold(turn, frame, s.shelf, s.index, MoveRequested(frame.samples) && !old(pinchLatch), State());
    }

    method UseHands(frame: XRFrame, tracked: set<Hand>, leftWristTracked: bool, moving: bool, touching: bool)
      returns (ghost turn: Turn)
      requires Valid() && tracked == TrackedIn(frame.samples) && leftWristTracked == LeftWristSeen(frame.samples)
      modifies `podPhysicsById, `podGrabOwnerById, `handPhysics, `hudSliderActiveHand, `activePalmContacts, `pinchLatch
      modifies `tableMoveMode, `tableMoveAwaitingConfirmRelease, `gusts, `gustPool, `gustsBuilt, `gustRemaining
      ensures Valid() && Fine(old(State()), State()) && pinchLatch == touching
      ensures turn.sampled == old(GripNow()) && turn.contacts == old(activePalmContacts)
      ensures Decided(turn, frame, ShelfNow(), podIdByColliderHandle, old(hudSliderActiveHand), old(tableMoveMode),
                      old(tableMoveAwaitingConfirmRelease))
      ensures Acted(turn, frame, old(RackNow()), moving && !old(pinchLatch))
      ensures Played(ShelfNow(), podIdByColliderHandle, frame, old(GripNow()), GripNow(),
                     turn.Crushed(frame, meshById.Keys, podIdByColliderHandle))
    {
      hide Inv, Fine, Played, LetsGo, Decided, Turn.Crushed, Turn.HandsAfter, Blow, FrameContacts;
      hide SceneState.ReleaseGrab;
      ghost var s := State();
      turn := PlayHands(frame, tracked, leftWristTracked);
      ghost var played := State();
      RightReleased(turn, frame, meshById.Keys, podIdByColliderHandle, played.grip);
      UpdatePinchLatch(moving, touching);
      FineTransitive(s, played, State());
      PlayedBefore(s.shelf, s.index, frame, s.grip, played.grip, GripNow(),
                   turn.Crushed(frame, meshById.Keys, podIdByColliderHandle));
    }

    method PlayHands(frame: XRFrame, tracked: set<Hand>, leftWristTracked: bool) returns (ghost turn: Turn)
      requires Valid() && tracked == TrackedIn(frame.samples) && leftWristTracked == LeftWristSeen(frame.samples)
      modifies `podPhysicsById, `podGrabOwnerById, `handPhysics, `hudSliderActiveHand, `activePalmContacts
      modifies `tableMoveMode, `tableMoveAwaitingConfirmRelease, `gusts, `gustPool, `gustsBuilt, `gustRemaining
      ensures Valid() && Fine(old(State()), State())
      ensures turn.sampled == old(GripNow()) && turn.contacts == old(activePalmContacts)
      ensures Decided(turn, frame, ShelfNow(), podIdByColliderHandle, old(hudSliderActiveHand), old(tableMoveMode),
                      old(tableMoveAwaitingConfirmRelease))
      ensures Acted(turn, frame, old(RackNow()), false)
      ensures Played(ShelfNow(), podIdByColliderHandle, frame, old(GripNow()), GripNow(),
                     turn.Crushed(frame, meshById.Keys, podIdByColliderHandle))
    {
      hide Inv, Fine, GrabsFrom, OwnersKept, CrushesBegan, FrameTargets, FrameContacts, Blow, Choose, Grabs, Played;
      hide TrackedIn, LeftWristSeen, MovesTable, StillMoving, StillAwaiting, SliderHand, DropHeld;
      ghost var s, contacts := State(), activePalmContacts;
      ghost var steady := MoveHands(frame, tracked, leftWristTracked);
      ghost var moved := State();
      turn := Turn(s.grip, contacts, hudSliderActiveHand, tableMoveMode, tableMoveAwaitingConfirmRelease, steady,
                   moved.grip);
      ActWithHands(frame);
      FineTransitive(s, moved, State());
      HandsPlayed(s.shelf, s.index, frame, s.grip, moved.grip, contacts, tableMoveMode, GripNow());
    }

    /** One animation frame. Without an XR session the hands are emptied, with one it is the hands' turn. */
    method RenderFrame(delta: real, below: set<nat>, reactions: Reactions, presenting: bool, xr: Option<XRFrame>)
      requires Valid() && due == [] && delta >= 0.0
      modifies this
      ensures Valid() && due == [] && Later(old(State()), State(), delta)
      ensures !presenting ==> podGrabOwnerById == map[]
    {
      hide Inv, Later, HitsAre, FallsAre, Extends, Played, LetsGo, Sampled, Decided, Acted, Grabbed, Turn.Crushed;
      ghost var s := State();
      UpdateSimulation(delta, below, reactions);
      ghost var simulated := State();
      if presenting {
        ghost var turn := UpdateWristHud(xr);
      } else {
        LeaveHands();
      }
      LaterTransitive(s, simulated, State(), delta, 0.0);
    }

    /** The hands' part of a frame outside XR. */
    method LeaveHands()
      requires Valid()
      modifies `podPhysicsById, `podGrabOwnerById, `handPhysics, `activePalmContacts
      modifies `pinchLatch, `tableMoveMode, `tableMoveAwaitingConfirmRelease
      ensures Valid() && Fine(old(State()), State())
      ensures podGrabOwnerById == map[] && forall h <- handPhysics :: handPhysics[h] == IDLE_HAND
    {
      hide Inv, Fine;
      EmptyHandsOf();
      pinchLatch, tableMoveMode, tableMoveAwaitingConfirmRelease := false, false, false;
    }

    method HandleXREnd()
      requires Valid()
      modifies `podPhysicsById, `podGrabOwnerById, `handPhysics, `activePalmContacts
      modifies `pinchLatch, `hudSliderActiveHand, `tableMoveMode, `tableMoveAwaitingConfirmRelease
      ensures Valid() && Fine(old(State()), State())
      ensures podGrabOwnerById == map[] && forall h <- handPhysics :: handPhysics[h] == IDLE_HAND
    {
      hide Inv, Fine;
      hudSliderActiveHand := None;
      LeaveHands();
    }

    /** A click on a pod: the selection updates the scene first, then the pod starts being crushed. */
    method HandleDesktopPointerDown(target: string, selection: seq<Reaction>) returns (ghost selected: Scene)
      requires Valid()
      modifies `podPhysicsById, `podIdByColliderHandle, `podGrabOwnerById, `handPhysics, `meshById, `podMeshCache
      modifies `activePalmContacts, `entriesMade, `meshesBuilt, `userStatus
      ensures Valid() && Fine(old(State()), State())
      ensures if !IsPodInteractable(old(ShelfNow()), old(podPhysicsById), target) then
                State() == selected == old(State())
              else
                && Reacted(old(State()), selection, selected)
                && State() == selected.(grip := StartCrush(selected.shelf, selected.grip, target))
      ensures CrushesBegan(selected.grip.physics, podPhysicsById,
                           if IsPodInteractable(old(ShelfNow()), old(podPhysicsById), target) && target in meshById
                           then {target}
                           else {})
    {
      hide Inv, Fine, StartCrush, IsPodInteractable, CrushesBegan, Reacted;
      ghost var s := State();
      SceneFine(s);
      NoCrush(podPhysicsById);
      selected := s;
      var interactable := PodInteractable(target);
      if !interactable {
        return;
      }
      UpdateAll(selection);
      selected := State();
      ReactedFine(s, selection, selected);
      CrushPod(target);
      FineTransitive(s, selected, State());
    }

    method Act(action: Action)
      requires Valid() && due == []
      modifies this
      ensures Valid() && due == [] && Later(old(State()), State(), TimeOf(action))
    {
      hide Inv, Later, Reacted, CrushesBegan, IsPodInteractable, StartCrush;
      match action
      case UpdatePods(pods, eliminated) => Update(pods, eliminated);
      case Frame(delta, below, reactions, presenting, xr) => RenderFrame(delta, below, reactions, presenting, xr);
      case ResetScene => Reset();
      case PhysicsLoaded(ready) => InitializePhysics(ready);
      case XREnd => HandleXREnd();
      case PointerDown(target, selection) => ghost var selected := HandleDesktopPointerDown(target, selection);
      case DesktopGust => var launched := LaunchGust();
    }

    /** Any run of the scene: what holds of its first state holds of its last, and the last comes after the first. */
    method Play(actions: seq<Action>)
      requires Valid() && due == []
      modifies this
      ensures Valid() && due == [] && Later(old(State()), State(), TimeOfAll(actions))
    {
      hide Inv, Later;
      ghost var s := State();
      SceneFine(s);
      for i := 0 to |actions|
        invariant Valid() && due == [] && Later(s, State(), TimeOfAll(actions[..i]))
      {
        ghost var before := State();
        Act(actions[i]);
        assert actions[..i + 1][..i] == actions[..i];
        LaterTransitive(s, before, State(), TimeOfAll(actions[..i]), TimeOf(actions[i]));
      }
      assert actions[..|actions|] == actions;
    }
  }
}
