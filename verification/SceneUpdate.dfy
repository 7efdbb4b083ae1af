/** What `update` makes of a list of pods: which are shown, with what status, and which are left alone. */
module SceneUpdate {
  import opened Domain
  import opened SceneState
  import opened SceneEntries

  /** A pod that `update` leaves out: gone, or eliminated in XR. */
  predicate IsGone(pod: SlaveState, eliminated: set<string>) {
    pod.status.Gone? || pod.slaveID in eliminated
  }

  function Mentioned(pods: seq<SlaveState>): set<string> {
    set i | 0 <= i < |pods| :: pods[i].slaveID
  }

  /** The ids whose last mention in the list is not gone, each with that mention's status. */
  function Wanted(pods: seq<SlaveState>, eliminated: set<string>): map<string, SlaveStatus> {
    if pods == [] then map[]
    else
      var last := pods[|pods| - 1];
      var before := Wanted(pods[..|pods| - 1], eliminated);
      if IsGone(last, eliminated) then before - {last.slaveID} else before[last.slaveID := last.status]
  }

  /** The pod's last mention in the list is at `i`. */
  predicate LastMention(pods: seq<SlaveState>, p: string, i: int) {
    0 <= i < |pods| && pods[i].slaveID == p && forall j :: i < j < |pods| ==> pods[j].slaveID != p
  }

  /** The pod is to be shown with that status: it is not eliminated, and its last mention says so and is not gone. */
  ghost predicate Asked(pods: seq<SlaveState>, eliminated: set<string>, p: string, status: SlaveStatus) {
    p !in eliminated && status != Gone && exists i :: LastMention(pods, p, i) && pods[i].status == status
  }

  lemma {:induction false} WantedAre(pods: seq<SlaveState>, eliminated: set<string>, p: string)
    ensures forall status :: p in Wanted(pods, eliminated) && Wanted(pods, eliminated)[p] == status
                             <==> Asked(pods, eliminated, p, status)
    decreases |pods|
  {
    if pods != [] {
      var n := |pods| - 1;
      WantedAre(pods[..n], eliminated, p);
      if pods[n].slaveID == p {
        assert LastMention(pods, p, n);
        assert forall i :: LastMention(pods, p, i) ==> i == n;
      } else {
        assert forall i :: LastMention(pods, p, i) <==> LastMention(pods[..n], p, i);
        assert forall status :: Asked(pods, eliminated, p, status) <==> Asked(pods[..n], eliminated, p, status) by {
          assert forall i :: LastMention(pods, p, i) ==> pods[..n][i] == pods[i];
        }
      }
    }
  }

  predicate NeverGone(pods: seq<SlaveState>, eliminated: set<string>, p: string) {
    p in Mentioned(pods) && forall i :: 0 <= i < |pods| && pods[i].slaveID == p ==> !IsGone(pods[i], eliminated)
  }

  predicate Statuses(shelf: Shelf, wanted: map<string, SlaveStatus>) {
    forall p <- wanted ::
      p in shelf.shown && shelf.shown[p] in shelf.status && shelf.status[shelf.shown[p]] == wanted[p]
  }

  /** Exactly these pods are shown, with these statuses. */
  predicate Shows(shelf: Shelf, wanted: map<string, SlaveStatus>) {
    shelf.shown.Keys == wanted.Keys && Statuses(shelf, wanted)
  }

  /** Told from the list: what is shown is what it asks for. */
  ghost predicate ShowsAsked(shelf: Shelf, pods: seq<SlaveState>, eliminated: set<string>) {
    && (forall p <- shelf.shown ::
          shelf.shown[p] in shelf.status && Asked(pods, eliminated, p, shelf.status[shelf.shown[p]]))
    && (forall p, status :: Asked(pods, eliminated, p, status) ==> p in shelf.shown)
  }

  lemma ShownAreAsked(shelf: Shelf, pods: seq<SlaveState>, eliminated: set<string>)
    requires Shows(shelf, Wanted(pods, eliminated))
    ensures ShowsAsked(shelf, pods, eliminated)
  {
    hide Wanted, Asked;
    forall p | p in shelf.shown
      ensures shelf.shown[p] in shelf.status && Asked(pods, eliminated, p, shelf.status[shelf.shown[p]])
    {
      WantedAre(pods, eliminated, p);
      assert p in Wanted(pods, eliminated);
    }
    forall p, status | Asked(pods, eliminated, p, status)
      ensures p in shelf.shown
    {
      WantedAre(pods, eliminated, p);
    }
  }

  lemma OneMoreMention(pods: seq<SlaveState>, eliminated: set<string>, i: nat)
    requires i < |pods|
    ensures Mentioned(pods[..i + 1]) == Mentioned(pods[..i]) + {pods[i].slaveID}
    ensures Wanted(pods[..i + 1], eliminated) ==
              if IsGone(pods[i], eliminated) then Wanted(pods[..i], eliminated) - {pods[i].slaveID}
              else Wanted(pods[..i], eliminated)[pods[i].slaveID := pods[i].status]
  {
    assert pods[..i + 1][..i] == pods[..i];
    assert pods[i].slaveID in Mentioned(pods[..i + 1]) by {
      assert pods[..i + 1][i] == pods[i];
    }
    forall j | 0 <= j < i
      ensures pods[j].slaveID in Mentioned(pods[..i + 1])
    {
      assert pods[..i + 1][j] == pods[j];
    }
  }

  /** What showing one more pod does to the statuses of those shown before. */
  lemma StatusesKept(s: Scene, s': Scene, pod: SlaveState, eliminated: set<string>, wanted: map<string, SlaveStatus>)
    requires Statuses(s.shelf, wanted) && Round(s, s', pod, eliminated)
    ensures Statuses(s'.shelf, if IsGone(pod, eliminated) then wanted - {pod.slaveID}
                               else wanted[pod.slaveID := pod.status])
  {
    hide Inv, Fine;
    forall p | p in wanted && p != pod.slaveID
      ensures p in s'.shelf.shown && s'.shelf.shown[p] == s.shelf.shown[p]
      ensures pod.slaveID in s'.shelf.shown ==> s'.shelf.shown[pod.slaveID] != s'.shelf.shown[p]
    {
      assert SamePod(s, s', p);
      MeshesDistinct(s', p, pod.slaveID);
    }
  }

  lemma KeptIsShown(s: Scene, s': Scene, p: string)
    requires SamePod(s, s', p)
    ensures p in s.shelf.shown <==> p in s'.shelf.shown
  {
  }

  lemma MeshesDistinct(s: Scene, p: string, q: string)
    requires Inv(s) && p != q
    ensures p in s.shelf.shown && q in s.shelf.shown ==> s.shelf.shown[p] != s.shelf.shown[q]
  {
    hide GripOK, Handles, Fired, RackOK, KeySets;
  }

  /** `now` is `s` after `update` has dealt with the first `i` pods, `base` being those shown before the first. */
  ghost predicate ShownUpto(s: Scene, now: Scene, base: set<string>, pods: seq<SlaveState>, eliminated: set<string>,
                            i: nat)
    requires i <= |pods|
  {
    var wanted := Wanted(pods[..i], eliminated);
    && Fine(s, now) && Statuses(now.shelf, wanted)
    && now.shelf.shown.Keys == wanted.Keys + (base - Mentioned(pods[..i]))
    && forall q :: NeverGone(pods, eliminated, q) && q in s.shelf.shown ==> SamePod(s, now, q)
  }

  /** What one round of the loop over the pods does. */
  ghost predicate Round(s: Scene, s': Scene, pod: SlaveState, eliminated: set<string>) {
    && Inv(s') && Fine(s, s')
    && (if IsGone(pod, eliminated)
        then s'.shelf.shown.Keys == s.shelf.shown.Keys - {pod.slaveID} && s'.shelf.status == s.shelf.status
        else s'.shelf.shown.Keys == s.shelf.shown.Keys + {pod.slaveID}
             && s'.shelf.status == s.shelf.status[s'.shelf.shown[pod.slaveID] := pod.status])
    && forall q :: q != pod.slaveID || (!IsGone(pod, eliminated) && q in s.shelf.shown) ==> SamePod(s, s', q)
  }

  lemma OneMoreShown(s: Scene, before: Scene, after: Scene, base: set<string>,
                     pods: seq<SlaveState>, eliminated: set<string>, i: nat)
    requires i < |pods| && ShownUpto(s, before, base, pods, eliminated, i) && Round(before, after, pods[i], eliminated)
    ensures ShownUpto(s, after, base, pods, eliminated, i + 1)
  {
    hide Inv, Fine, SamePod, Statuses, Wanted, Mentioned;
    FineTransitive(s, before, after);
    OneMoreMention(pods, eliminated, i);
    StatusesKept(before, after, pods[i], eliminated, Wanted(pods[..i], eliminated));
    forall q | NeverGone(pods, eliminated, q) && q in s.shelf.shown
      ensures SamePod(s, after, q)
    {
      KeptIsShown(s, before, q);
      SamePodTransitive(s, before, after, q);
    }
  }

  lemma Removed(s: Scene, s': Scene, p: string)
    requires Inv(s) && p in s.shelf.shown && s' == RemovePod(s, p)
    ensures Inv(s') && Fine(s, s') && s'.shelf.shown.Keys == s.shelf.shown.Keys - {p}
    ensures forall q :: q != p ==> SamePod(s, s', q)
  {
    hide Inv, Later, SamePod;
    RemovePodKeeps(s, p);
    forall q | q != p
      ensures SamePod(s, s', q)
    {
      RemovePodOthers(s, p, q);
    }
  }

  lemma SceneFine(s: Scene)
    requires Inv(s)
    ensures Fine(s, s) && forall p :: SamePod(s, s, p)
  {
    hide ShelfOK, RackOK, Handles, Fired, KeySets, AgedAll;
    SameEntriesReflexive(s.grip.physics);
    SameEntriesAged(s.grip.physics, s.grip.physics, s.grip.owner, s.log.made);
  }

  lemma HasEntry(s: Scene, p: string)
    requires Inv(s) && s.physicsOn && p in s.shelf.shown
    ensures p in s.grip.physics
  {
    hide ShelfOK, RackOK, Handles, Fired, GripOK;
  }

  lemma StatusIgnored(s: Scene, before: Scene, after: Scene, q: string)
    requires SamePod(s, before, q) && after == before.(shelf := before.shelf.(status := after.shelf.status))
    ensures SamePod(s, after, q)
  {
  }

  lemma FineInv(s: Scene, s': Scene)
    requires Fine(s, s')
    ensures Inv(s')
  {
  }
}
