/** Open palms: which pods they touch anew, what they remember of it, and what becomes of a pod being held. */
module ScenePalms {
  import opened Domain
  import opened SceneState
  import opened SceneEntries
  import opened SceneUpdate
  import opened SceneHands

  function ContactKey(h: Hand, p: string): string {
    (if h.Left? then "left:" else "right:") + p
  }

  /** The shown pods of a list that the hand was not already in contact with. */
  function NewContacts(touched: seq<string>, shown: set<string>, h: Hand, contacts: set<string>): set<string> {
    set p | p in touched && p in shown && ContactKey(h, p) !in contacts
  }

  function KeysOf(h: Hand, touched: seq<string>, shown: set<string>): set<string> {
    set p | p in touched && p in shown :: ContactKey(h, p)
  }

  /** The contacts that are left when those of one hand are dropped but for some. */
  function Kept(contacts: set<string>, h: Hand, keep: set<string>): set<string> {
    set c <- contacts | ContactKey(h, "") <= c ==> c in keep
  }

  /** The turn of one touched pod in a list that has every pod once, `active` being the contacts by then. */
  lemma ContactStep(touched: seq<string>, i: nat, shown: set<string>, h: Hand, contacts: set<string>,
                    active: set<string>)
    requires i < |touched| && ListedOnce(touched) && active == contacts + KeysOf(h, touched[..i], shown)
    ensures KeysOf(h, touched[..i + 1], shown) ==
              KeysOf(h, touched[..i], shown) + if touched[i] in shown then {ContactKey(h, touched[i])} else {}
    ensures NewContacts(touched[..i + 1], shown, h, contacts) ==
              NewContacts(touched[..i], shown, h, contacts) + NewContacts([touched[i]], shown, h, active)
  {
    assert touched[..i + 1] == touched[..i] + [touched[i]];
    forall p | p in touched[..i]
      ensures ContactKey(h, p) != ContactKey(h, touched[i])
    {
      var n := |ContactKey(h, "")|;
      assert ContactKey(h, p)[n..] == p && ContactKey(h, touched[i])[n..] == touched[i];
    }
    assert ContactKey(h, touched[i]) !in KeysOf(h, touched[..i], shown);
  }

  lemma NoContacts(h: Hand, touched: seq<string>, shown: set<string>, contacts: set<string>)
    ensures NewContacts(touched[..0], shown, h, contacts) == {} && KeysOf(h, touched[..0], shown) == {}
    ensures touched[..|touched|] == touched
  {
  }

  predicate PalmIsOpen(hands: map<Hand, HandState>, h: Hand) {
    h in hands && hands[h].openPalm && hands[h].grabbedPodId.None? && !hands[h].gustPoseActive
  }

  /** The pods that a hand's palm starts to crush. */
  function PalmTargets(hands: map<Hand, HandState>, h: Hand, palm: seq<nat>, shown: set<string>,
                       index: map<nat, string>, contacts: set<string>): set<string>
  {
    if PalmIsOpen(hands, h) then NewContacts(Touched(palm, index), shown, h, contacts) else {}
  }

  /** Told from colliders and the names of contacts. */
  lemma PalmTargetsAre(hands: map<Hand, HandState>, h: Hand, palm: seq<nat>, shown: set<string>,
                       index: map<nat, string>, contacts: set<string>, p: string)
    ensures p in PalmTargets(hands, h, palm, shown, index, contacts) <==>
              && h in hands && hands[h].openPalm && hands[h].grabbedPodId.None? && !hands[h].gustPoseActive
              && p in shown && p != "" && (exists c :: c in palm && c in index && index[c] == p)
              && (if h.Left? then "left:" else "right:") + p !in contacts
  {
    TouchedAre(palm, index, p);
  }

  /** The contacts after the hand's turn: those of the other hand, and the shown pods that the open palm touches. */
  function PalmContacts(hands: map<Hand, HandState>, h: Hand, palm: seq<nat>, shown: set<string>,
                        index: map<nat, string>, contacts: set<string>): set<string>
  {
    var keep := if PalmIsOpen(hands, h) then KeysOf(h, Touched(palm, index), shown) else {};
    Kept(contacts + keep, h, keep)
  }

  /** The name of a contact begins with its hand's. */
  function HandName(h: Hand): string {
    if h.Left? then "left:" else "right:"
  }

  /** A contact that the hand's turn leaves: another hand's, or one with a shown pod that the open palm touches now. */
  lemma PalmContactsAre(hands: map<Hand, HandState>, h: Hand, palm: seq<nat>, shown: set<string>,
                        index: map<nat, string>, contacts: set<string>, c: string)
    ensures c in PalmContacts(hands, h, palm, shown, index, contacts) <==>
              if HandName(h) <= c then
                && h in hands && hands[h].openPalm && hands[h].grabbedPodId.None? && !hands[h].gustPoseActive
                && c[|HandName(h)|..] in shown && c[|HandName(h)|..] != ""
                && exists x :: x in palm && x in index && index[x] == c[|HandName(h)|..]
              else c in contacts
  {
    var p := if HandName(h) <= c then c[|HandName(h)|..] else "";
    TouchedAre(palm, index, p);
    forall q | ContactKey(h, q) == c
      ensures HandName(h) <= c && q == p
    {
      assert ContactKey(h, q)[|HandName(h)|..] == q;
    }
    assert HandName(h) <= c ==> ContactKey(h, p) == c;
    assert ContactKey(h, "") == HandName(h);
  }

  lemma NamesApart(c: string)
    ensures !(HandName(Left) <= c && HandName(Right) <= c)
  {
    assert HandName(Left) <= c ==> c[0] == 'l';
    assert HandName(Right) <= c ==> c[0] == 'r';
  }

  /** The pods that a frame starts to crush: those of the left palm, and then of the right while the table stays. */
  function FrameTargets(hands: map<Hand, HandState>, frame: XRFrame, shown: set<string>, index: map<nat, string>,
                        contacts: set<string>, tableMoving: bool): set<string>
  {
    var left := PalmTargets(hands, Left, frame.left.palm, shown, index, contacts);
    if tableMoving then left
    else
      left + PalmTargets(DropHeld(hands, left), Right, frame.right.palm, shown, index,
                         PalmContacts(hands, Left, frame.left.palm, shown, index, contacts))
  }

  lemma FrameTargetsTouched(hands: map<Hand, HandState>, frame: XRFrame, shown: set<string>, index: map<nat, string>,
                            contacts: set<string>, tableMoving: bool)
    ensures forall p <- FrameTargets(hands, frame, shown, index, contacts, tableMoving) ::
              p in shown && (p in Touched(frame.left.palm, index) || p in Touched(frame.right.palm, index))
  {
  }

  /** The right palm's turn comes second, on what the left one's has left, and not at all while the table moves. */
  lemma FrameTargetsAre(hands: map<Hand, HandState>, frame: XRFrame, shown: set<string>, index: map<nat, string>,
                        contacts: set<string>, tableMoving: bool, p: string)
    ensures p in PalmTargets(hands, Left, frame.left.palm, shown, index, contacts) ==>
              p in FrameTargets(hands, frame, shown, index, contacts, tableMoving)
    ensures !tableMoving && p in PalmTargets(hands, Right, frame.right.palm, shown, index, contacts) ==>
              p in FrameTargets(hands, frame, shown, index, contacts, tableMoving)
    ensures tableMoving && p in FrameTargets(hands, frame, shown, index, contacts, tableMoving) ==>
              p in Touched(frame.left.palm, index)
  {
    hide Touched, PalmContacts;
    var left := PalmTargets(hands, Left, frame.left.palm, shown, index, contacts);
    var key := ContactKey(Right, p);
    assert HandName(Right) <= key;
    NamesApart(key);
    PalmContactsAre(hands, Left, frame.left.palm, shown, index, contacts, key);
  }

  /** A hand whose pod is crushed lets go of it. */
  function DropHeld(hands: map<Hand, HandState>, crushed: set<string>): map<Hand, HandState> {
    map h <- hands ::
      if hands[h].grabbedPodId.Some? && hands[h].grabbedPodId.value in crushed
      then hands[h].(grabbedPodId := None, lastGrabAt := 0) else hands[h]
  }

  lemma DropHeldNone(hands: map<Hand, HandState>)
    ensures DropHeld(hands, {}) == hands
  {
  }

  lemma DropHeldMore(hands: map<Hand, HandState>, crushed: set<string>, more: set<string>)
    ensures DropHeld(DropHeld(hands, crushed), more) == DropHeld(hands, crushed + more)
  {
  }

  lemma LetGoDrops(g: Grip, p: string)
    requires Owners(g.owner, g.hands)
    ensures LetGo(g, p).hands == DropHeld(g.hands, {p})
  {
  }

  lemma NotHeld(g: Grip, p: string)
    requires Owners(g.owner, g.hands) && p !in g.owner
    ensures DropHeld(g.hands, {p}) == g.hands
  {
  }

  lemma CrushingNotOwned(g: Grip, p: string)
    requires Bodies(g.physics, g.owner) && p in g.physics && Crushing(g.physics[p])
    ensures p !in g.owner
  {
    assert BodyOK(g.physics[p], p in g.owner);
  }

  lemma CrushDrops(s: Scene, p: string)
    requires Inv(s)
    ensures StartCrush(s.shelf, s.grip, p).hands == DropHeld(s.grip.hands, if p in s.shelf.shown then {p} else {})
  {
    hide ShelfOK, RackOK, Handles, Fired, Owners, Bodies, LetGo, DropHeld;
    DropHeldNone(s.grip.hands);
    NoneGone(s);
    if p in s.shelf.shown {
      if !s.physicsOn {
        NotHeld(s.grip, p);
      } else if Crushing(s.grip.physics[p]) {
        CrushingNotOwned(s.grip, p);
        NotHeld(s.grip, p);
      } else {
        LetGoDrops(s.grip, p);
      }
    }
  }

  // ---------------------------------------------------------------- a frame's hands

  /** The contacts after the samples: a hand without all its joints has none. */
  function SampledContacts(contacts: set<string>, samples: seq<HandSample>): set<string> {
    if samples == [] then contacts
    else
      var before, last := SampledContacts(contacts, samples[..|samples| - 1]), samples[|samples| - 1];
      if last.complete then before else Kept(before, last.hand, {})
  }

  /** Nor has a hand without a sample. */
  function TrackedContacts(contacts: set<string>, tracked: set<Hand>): set<string> {
    var left := if Left in tracked then contacts else Kept(contacts, Left, {});
    if Right in tracked then left else Kept(left, Right, {})
  }

  /** A hand that is not tracked has no contacts, the others keep theirs. */
  lemma TrackedContactsAre(contacts: set<string>, tracked: set<Hand>, c: string)
    ensures c in TrackedContacts(contacts, tracked) <==>
              c in contacts && forall h :: HandName(h) <= c ==> h in tracked
  {
    assert ContactKey(Left, "") == HandName(Left) && ContactKey(Right, "") == HandName(Right);
    assert (forall h :: HandName(h) <= c ==> h in tracked) <==>
           (HandName(Left) <= c ==> Left in tracked) && (HandName(Right) <= c ==> Right in tracked);
  }

  /** The contacts after both palms; a right hand that moves the table keeps none. */
  function FrameContacts(hands: map<Hand, HandState>, frame: XRFrame, shown: set<string>, index: map<nat, string>,
                         contacts: set<string>, tableMoving: bool): set<string>
  {
    var left := PalmContacts(hands, Left, frame.left.palm, shown, index, contacts);
    if tableMoving then Kept(left, Right, {})
    else
      PalmContacts(DropHeld(hands, PalmTargets(hands, Left, frame.left.palm, shown, index, contacts)), Right,
                   frame.right.palm, shown, index, left)
  }

  /** What a frame decides on the way from the samples to the grabs, and the hands at each stage. */
  datatype Turn = Turn(
    sampled: Grip,
    contacts: set<string>,
    slider: Option<Hand>,
    tableMoving: bool,
    awaiting: bool,
    steady: Grip,
    moved: Grip)
  {
    /** The pods whose crush begins. */
    function Crushed(frame: XRFrame, shown: set<string>, index: map<nat, string>): set<string> {
      FrameTargets(moved.hands, frame, shown, index, contacts, tableMoving)
    }

    /** The hands in the end; the right one lets go when a table move has started. */
    function HandsAfter(frame: XRFrame, shown: set<string>, index: map<nat, string>, started: bool)
      : map<Hand, HandState>
    {
      var hands := DropHeld(moved.hands, Crushed(frame, shown, index));
      if started && Right in hands && hands[Right].grabbedPodId.Some?
      then hands[Right := hands[Right].(grabbedPodId := None, lastGrabAt := 0)] else hands
    }
  }

  lemma RightReleased(t: Turn, frame: XRFrame, shown: set<string>, index: map<nat, string>, g: Grip)
    requires g.hands == t.HandsAfter(frame, shown, index, false)
    ensures ReleaseGrab(g, Right).hands == t.HandsAfter(frame, shown, index, true)
  {
    hide Turn.Crushed;
  }

  /** The samples are taken in one after the other, and hands without one are emptied. */
  predicate Sampled(t: Turn, samples: seq<HandSample>, physicsOn: bool, g: Grip, contacts: set<string>) {
    && t.sampled == ClearOthers(SampleAll(g, physicsOn, samples), TrackedIn(samples))
    && t.contacts == TrackedContacts(SampledContacts(contacts, samples), TrackedIn(samples))
  }

  /** Then the slider, the table move, the candidates and the grabs follow from what was before the frame. */
  ghost predicate Decided(t: Turn, frame: XRFrame, shelf: Shelf, index: map<nat, string>, slider: Option<Hand>,
                          moving: bool, awaiting: bool)
  {
    var tracked, hands := TrackedIn(frame.samples), t.sampled.hands;
    && t.slider == SliderHand(slider, moving, LeftWristSeen(frame.samples), tracked, frame.sliderHits, hands)
    && t.tableMoving == StillMoving(moving, awaiting, tracked, hands)
    && t.awaiting == StillAwaiting(moving, awaiting, tracked, hands)
    && Choose(shelf, t.sampled, index, frame, t.slider, MovesTable(moving, tracked, hands), t.steady)
    && t.moved == Grabs(t.steady, t.slider, t.tableMoving, frame.now)
  }

  /**
    What the hands have done to the pods in a frame: a pod has the owner it had or one that pinches it,
    and a crush began exactly for certain shown pods that a palm touches.
   */
  predicate Played(shelf: Shelf, index: map<nat, string>, frame: XRFrame, g: Grip, g': Grip, crushed: set<string>) {
    && GrabsFrom(shelf, g.physics, index, frame, g.owner, g'.owner)
    && CrushesBegan(g.physics, g'.physics, crushed)
    && forall p <- crushed ::
         p in shelf.shown && (p in Touched(frame.left.palm, index) || p in Touched(frame.right.palm, index))
  }

  lemma PlayedAfter(shelf: Shelf, index: map<nat, string>, frame: XRFrame, g: Grip, sampled: Grip, g': Grip,
                    crushed: set<string>)
    requires LetsGo(g, sampled) && Played(shelf, index, frame, sampled, g', crushed)
    ensures Played(shelf, index, frame, g, g', crushed)
  {
    hide GrabsFrom, CrushesBegan, SameEntries, OwnersKept, Touched;
    GrabsWidened(shelf, g, sampled, index, frame, g'.owner);
    CrushesAdd(g.physics, sampled.physics, g'.physics, {}, crushed);
    assert {} + crushed == crushed;
  }

  lemma PlayedBefore(shelf: Shelf, index: map<nat, string>, frame: XRFrame, g: Grip, played: Grip, g': Grip,
                     crushed: set<string>)
    requires Played(shelf, index, frame, g, played, crushed) && LetsGo(played, g')
    ensures Played(shelf, index, frame, g, g', crushed)
  {
    hide GrabsFrom, CrushesBegan, SameEntries, OwnersKept, Touched;
    GrabsNarrowed(shelf, g.physics, index, frame, g.owner, played.owner, g'.owner);
    CrushesAdd(g.physics, played.physics, g'.physics, crushed, {});
    assert crushed + {} == crushed;
  }

  lemma HandsPlayed(shelf: Shelf, index: map<nat, string>, frame: XRFrame, g: Grip, moved: Grip,
                    contacts: set<string>, tableMoving: bool, g': Grip)
    requires GrabsFrom(shelf, g.physics, index, frame, g.owner, moved.owner)
    requires CrushesBegan(g.physics, moved.physics, {})
    requires OwnersKept(moved.owner, g'.owner)
    requires CrushesBegan(moved.physics, g'.physics,
                          FrameTargets(moved.hands, frame, shelf.shown.Keys, index, contacts, tableMoving))
    ensures Played(shelf, index, frame, g, g',
                   FrameTargets(moved.hands, frame, shelf.shown.Keys, index, contacts, tableMoving))
  {
    hide GrabsFrom, CrushesBegan, OwnersKept, Touched, FrameTargets;
    var crushed := FrameTargets(moved.hands, frame, shelf.shown.Keys, index, contacts, tableMoving);
    GrabsNarrowed(shelf, g.physics, index, frame, g.owner, moved.owner, g'.owner);
    CrushesAdd(g.physics, moved.physics, g'.physics, {}, crushed);
    assert {} + crushed == crushed;
    FrameTargetsTouched(moved.hands, frame, shelf.shown.Keys, index, contacts, tableMoving);
  }

  // ---------------------------------------------------------------- what the hands hold then

  /** A hand that grabs in a frame: not on the slider, nor the right one while it moves the table. */
  predicate MayGrab(t: Turn, h: Hand) {
    h in t.steady.hands && t.slider != Some(h) && !(h.Right? && t.tableMoving)
  }

  /** The pod that a hand takes in a frame: its candidate, which nobody owns and the left hand does not want. */
  predicate Takes(t: Turn, h: Hand, p: string) {
    && MayGrab(t, h)
    && t.steady.hands[h].grabbedPodId == None && t.steady.hands[h].pinchActive
    && t.steady.hands[h].pinchCandidateId == Some(p) && p in t.steady.physics && p !in t.steady.owner
    && (h.Right? && Left in t.steady.hands ==> t.steady.hands[Left].pinchCandidateId != Some(p))
  }

  /** The pod that a hand keeps: it pinches, or has done so at most 180 ms ago. */
  predicate Keeps(t: Turn, h: Hand, p: string, now: int) {
    && MayGrab(t, h) && t.steady.hands[h].grabbedPodId == Some(p) && p in t.steady.physics
    && (t.steady.hands[h].pinchActive || now - t.steady.hands[h].lastGrabAt <= 180)
  }

  /** The hand holds the pod, whose body follows it. */
  predicate Holds(g: Grip, h: Hand, p: string, since: int) {
    && h in g.hands && g.hands[h].grabbedPodId == Some(p) && g.hands[h].lastGrabAt == since
    && p in g.owner && g.owner[p] == h && p in g.physics && g.physics[p].kinematic
  }

  /** What a hand holds after a frame in which `crushed` began to be crushed; `started` frees the right hand. */
  ghost predicate GrabbedBy(t: Turn, h: Hand, now: int, crushed: set<string>, started: bool, g: Grip)
    requires h in t.steady.hands
  {
    var hand := t.steady.hands[h];
    && (forall p :: Takes(t, h, p) && p !in crushed && !(h.Right? && started) ==> Holds(g, h, p, now))
    && (forall p :: Keeps(t, h, p, now) && p !in crushed && !(h.Right? && started) ==>
          Holds(g, h, p, if hand.pinchActive then now else hand.lastGrabAt))
    && (h.Right? && t.tableMoving ==>
          h in g.hands && (g.hands[h].grabbedPodId.Some? ==> g.hands[h].grabbedPodId == hand.grabbedPodId))
    && (!(h.Right? && t.tableMoving) && t.slider == Some(h) ==> h in g.hands && g.hands[h].grabbedPodId == None)
    && (MayGrab(t, h) && hand.grabbedPodId.Some? && !Keeps(t, h, hand.grabbedPodId.value, now)
        ==> h in g.hands && g.hands[h].grabbedPodId == None)
  }

  ghost predicate Grabbed(t: Turn, now: int, crushed: set<string>, started: bool, g: Grip) {
    forall h <- t.steady.hands :: GrabbedBy(t, h, now, crushed, started, g)
  }

  /** What one hand's turn does to it. */
  lemma OneGrab(g: Grip, h: Hand, slider: Option<Hand>, now: int)
    requires h in g.hands
    ensures var hand, g' := g.hands[h], UpdateGrab(g, h, slider, now);
            && h in g'.hands
            && (slider == Some(h) ==> g'.hands[h].grabbedPodId == None)
            && (slider != Some(h) && hand.grabbedPodId == None && hand.pinchActive && hand.pinchCandidateId.Some?
                && hand.pinchCandidateId.value in g.physics && hand.pinchCandidateId.value !in g.owner ==>
                  g'.hands[h].grabbedPodId == hand.pinchCandidateId && g'.hands[h].lastGrabAt == now)
            && (slider != Some(h) && hand.grabbedPodId.Some? ==>
                  if hand.grabbedPodId.value in g.physics && (hand.pinchActive || now - hand.lastGrabAt <= 180) then
                    && g'.hands[h].grabbedPodId == hand.grabbedPodId
                    && g'.hands[h].lastGrabAt == if hand.pinchActive then now else hand.lastGrabAt
                  else
                    g'.hands[h].grabbedPodId == None)
  {
  }

  /** What the left hand's turn leaves to the right hand. */
  lemma LeftLeaves(g: Grip, slider: Option<Hand>, now: int, p: string)
    ensures var g' := UpdateGrab(g, Left, slider, now);
            && g'.physics.Keys == g.physics.Keys
            && (p !in g.owner && (Left in g.hands ==> g.hands[Left].pinchCandidateId != Some(p)) ==> p !in g'.owner)
            && (Right in g.hands ==> Right in g'.hands && g'.hands[Right] == g.hands[Right])
  {
  }

  lemma RightLeaves(g: Grip, slider: Option<Hand>, now: int)
    ensures Left in g.hands ==>
              && Left in UpdateGrab(g, Right, slider, now).hands
              && UpdateGrab(g, Right, slider, now).hands[Left] == g.hands[Left]
  {
  }

  /** What the hand has after the grabs. */
  lemma MovedHand(t: Turn, h: Hand, now: int)
    requires t.moved == Grabs(t.steady, t.slider, t.tableMoving, now) && h in t.steady.hands
    requires !(h.Right? && t.tableMoving)
    ensures h in t.moved.hands
    ensures t.slider == Some(h) ==> t.moved.hands[h].grabbedPodId == None
    ensures forall p :: Takes(t, h, p) ==>
              t.moved.hands[h].grabbedPodId == Some(p) && t.moved.hands[h].lastGrabAt == now
    ensures MayGrab(t, h) && t.steady.hands[h].grabbedPodId.Some? ==>
              var p := t.steady.hands[h].grabbedPodId.value;
              if Keeps(t, h, p, now) then
                && t.moved.hands[h].grabbedPodId == Some(p)
                && t.moved.hands[h].lastGrabAt ==
                   if t.steady.hands[h].pinchActive then now else t.steady.hands[h].lastGrabAt
              else t.moved.hands[h].grabbedPodId == None
  {
    hide UpdateGrab;
    var left := UpdateGrab(t.steady, Left, t.slider, now);
    if h == Left {
      OneGrab(t.steady, Left, t.slider, now);
      RightLeaves(left, t.slider, now);
    } else {
      LeftLeaves(t.steady, t.slider, now, "");
      OneGrab(left, Right, t.slider, now);
      if p :| Takes(t, h, p) {
        LeftLeaves(t.steady, t.slider, now, p);
      }
    }
  }

  lemma RightStays(t: Turn, now: int)
    requires t.moved == Grabs(t.steady, t.slider, t.tableMoving, now) && Right in t.steady.hands && t.tableMoving
    ensures Right in t.moved.hands && t.moved.hands[Right] == t.steady.hands[Right]
  {
    hide UpdateGrab;
    LeftLeaves(t.steady, t.slider, now, "");
  }

  lemma HeldIsOwned(s: Scene, h: Hand, p: string)
    requires Inv(s) && h in s.grip.hands && s.grip.hands[h].grabbedPodId == Some(p)
    ensures Holds(s.grip, h, p, s.grip.hands[h].lastGrabAt)
  {
    hide ShelfOK, RackOK, Handles, Fired, KeySets;
    assert BodyOK(s.grip.physics[p], true);
  }

  lemma DecidedGrabs(t: Turn, frame: XRFrame, shelf: Shelf, index: map<nat, string>, slider: Option<Hand>, moving: bool,
                     awaiting: bool)
    requires Decided(t, frame, shelf, index, slider, moving, awaiting)
    ensures t.moved == Grabs(t.steady, t.slider, t.tableMoving, frame.now)
  {
  }

  lemma HandsHold(t: Turn, frame: XRFrame, shelf: Shelf, index: map<nat, string>, started: bool, s: Scene)
    requires Inv(s) && t.moved == Grabs(t.steady, t.slider, t.tableMoving, frame.now)
    requires s.grip.hands == t.HandsAfter(frame, shelf.shown.Keys, index, started)
    ensures Grabbed(t, frame.now, t.Crushed(frame, shelf.shown.Keys, index), started, s.grip)
  {
    hide Inv, Grabs, Turn.Crushed, Turn.HandsAfter, GrabbedBy;
    forall h | h in t.steady.hands
      ensures GrabbedBy(t, h, frame.now, t.Crushed(frame, shelf.shown.Keys, index), started, s.grip)
    {
      HandHolds(t, h, frame, shelf, index, started, s);
    }
  }

  lemma HandHolds(t: Turn, h: Hand, frame: XRFrame, shelf: Shelf, index: map<nat, string>, started: bool, s: Scene)
    requires Inv(s) && t.moved == Grabs(t.steady, t.slider, t.tableMoving, frame.now) && h in t.steady.hands
    requires s.grip.hands == t.HandsAfter(frame, shelf.shown.Keys, index, started)
    ensures GrabbedBy(t, h, frame.now, t.Crushed(frame, shelf.shown.Keys, index), started, s.grip)
  {
    hide Inv, Grabs, Turn.Crushed, Holds;
    if h.Right? && t.tableMoving {
      RightStays(t, frame.now);
    }
    if !(h.Right? && t.tableMoving) {
      MovedHand(t, h, frame.now);
      forall p | h in s.grip.hands && s.grip.hands[h].grabbedPodId == Some(p)
        ensures Holds(s.grip, h, p, s.grip.hands[h].lastGrabAt)
      {
        HeldIsOwned(s, h, p);
      }
    }
  }
}
