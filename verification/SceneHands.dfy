/** What a frame learns of the hands, and what it makes of it: samples, touches and pinch candidates. */
module SceneHands {
  import opened Domain
  import opened SceneState
  import opened SceneEntries
  import opened SceneUpdate

  /**
    One tracked hand of an XR frame. `complete` says that every joint has a pose; the other fields are
    what the poses amount to.
   */
  datatype HandSample = HandSample(
    hand: Hand,
    complete: bool,
    openPalm: bool,
    pinch: bool,
    gustPose: bool,
    moveButtonTouched: bool,
    disconnectButtonTouched: bool)

  /** The colliders that a hand's fingers and palm meet, by handle, in the engine's order. */
  datatype Touch = Touch(thumb: seq<nat>, index: seq<nat>, middle: seq<nat>, palm: seq<nat>)

  datatype XRFrame = XRFrame(
    samples: seq<HandSample>,
    left: Touch,
    right: Touch,
    sliderHits: set<Hand>,
    sweeping: set<Hand>,
    now: int)
  {
    function TouchOf(h: Hand): Touch {
      if h.Left? then left else right
    }
  }

  /** What a tracked hand's joints make of it. */
  function SampleHand(g: Grip, physicsOn: bool, sample: HandSample): Grip {
    var h := sample.hand;
    if !sample.complete then ClearHand(g, h)
    else if h !in g.hands && !physicsOn then g
    else
      var state := if h in g.hands then g.hands[h] else IDLE_HAND;
      SetHand(g, h, state.(openPalm := sample.openPalm, pinchActive := sample.pinch, pinchCandidateId := None,
                           gustPoseActive := sample.openPalm && sample.gustPose, palmCenterSet := true))
  }

  function TrackedIn(samples: seq<HandSample>): set<Hand> {
    set k | 0 <= k < |samples| :: samples[k].hand
  }

  predicate PinchSeen(samples: seq<HandSample>) {
    exists k :: 0 <= k < |samples| && samples[k].complete && samples[k].pinch
  }

  predicate MoveTouched(samples: seq<HandSample>) {
    exists k :: 0 <= k < |samples| && samples[k].complete && samples[k].moveButtonTouched
  }

  predicate DisconnectTouched(samples: seq<HandSample>) {
    exists k :: 0 <= k < |samples| && samples[k].complete && samples[k].disconnectButtonTouched
  }

  predicate LeftWristSeen(samples: seq<HandSample>) {
    exists k :: 0 <= k < |samples| && samples[k].complete && samples[k].hand.Left?
  }

  /** Some hand touches the move button while some hand pinches. */
  predicate MoveRequested(samples: seq<HandSample>) {
    MoveTouched(samples) && PinchSeen(samples)
  }

  predicate ButtonPinched(samples: seq<HandSample>) {
    (DisconnectTouched(samples) || MoveTouched(samples)) && PinchSeen(samples)
  }

  /** In so many words: each sign comes from a complete sample, not necessarily of the same hand. */
  lemma SignsAre(samples: seq<HandSample>)
    ensures MoveRequested(samples) <==>
              && (exists i :: 0 <= i < |samples| && samples[i].complete && samples[i].moveButtonTouched)
              && (exists i :: 0 <= i < |samples| && samples[i].complete && samples[i].pinch)
    ensures ButtonPinched(samples) <==>
              && (exists i :: 0 <= i < |samples| && samples[i].complete
                              && (samples[i].moveButtonTouched || samples[i].disconnectButtonTouched))
              && (exists i :: 0 <= i < |samples| && samples[i].complete && samples[i].pinch)
    ensures LeftWristSeen(samples) <==>
              exists i :: 0 <= i < |samples| && samples[i].complete && samples[i].hand == Left
    ensures forall h :: h in TrackedIn(samples) <==> exists i :: 0 <= i < |samples| && samples[i].hand == h
  {
  }

  /** One more sample. */
  lemma SeenStep(before: seq<HandSample>, s: HandSample)
    ensures TrackedIn(before + [s]) == TrackedIn(before) + {s.hand}
    ensures PinchSeen(before + [s]) <==> PinchSeen(before) || (s.complete && s.pinch)
    ensures MoveTouched(before + [s]) <==> MoveTouched(before) || (s.complete && s.moveButtonTouched)
    ensures DisconnectTouched(before + [s]) <==> DisconnectTouched(before) || (s.complete && s.disconnectButtonTouched)
    ensures LeftWristSeen(before + [s]) <==> LeftWristSeen(before) || (s.complete && s.hand.Left?)
  {
    var after := before + [s];
    assert after[|before|] == s;
    assert forall k :: 0 <= k < |before| ==> after[k] == before[k];
  }

  lemma NothingSeenYet(samples: seq<HandSample>)
    ensures var none := samples[..0];
            && TrackedIn(none) == {} && !PinchSeen(none) && !MoveTouched(none) && !DisconnectTouched(none)
            && !LeftWristSeen(none) && samples[..|samples|] == samples
  {
  }

  function SampleAll(g: Grip, physicsOn: bool, samples: seq<HandSample>): Grip {
    if samples == [] then g
    else SampleHand(SampleAll(g, physicsOn, samples[..|samples| - 1]), physicsOn, samples[|samples| - 1])
  }

  /** A hand's last sample is at `i`. */
  predicate LastSample(samples: seq<HandSample>, h: Hand, i: nat) {
    i < |samples| && samples[i].hand == h && forall j :: i < j < |samples| ==> samples[j].hand != h
  }

  /** A hand is as its last sample says: empty and idle without all joints, otherwise with that pinch and palm. */
  lemma {:induction false} SampledLast(g: Grip, physicsOn: bool, samples: seq<HandSample>, h: Hand, i: nat)
    requires LastSample(samples, h, i)
    ensures var hands := SampleAll(g, physicsOn, samples).hands;
            && (h in hands && !samples[i].complete ==>
                  hands[h] == HandState(None, false, None, 0, false, false, false))
            && (h in hands && samples[i].complete ==>
                  && hands[h].pinchActive == samples[i].pinch && hands[h].openPalm == samples[i].openPalm
                  && hands[h].gustPoseActive == (samples[i].openPalm && samples[i].gustPose)
                  && hands[h].palmCenterSet && hands[h].pinchCandidateId == None)
            && (samples[i].complete && physicsOn ==> h in hands)
    decreases |samples|
  {
    hide ClearHand;
    var n := |samples| - 1;
    var before := SampleAll(g, physicsOn, samples[..n]);
    ClearHandOnly(before, samples[n].hand);
    if i < n {
      SampledLast(g, physicsOn, samples[..n], h, i);
    }
  }

  function ClearOthers(g: Grip, tracked: set<Hand>): Grip {
    var left := if Left in tracked then g else ClearHand(g, Left);
    if Right in tracked then left else ClearHand(left, Right)
  }

  lemma SampleHandKeeps(g: Grip, physicsOn: bool, sample: HandSample)
    requires GripOK(g) && (physicsOn || g.hands == map[])
    ensures var g' := SampleHand(g, physicsOn, sample);
            GripOK(g') && SameEntries(g.physics, g'.physics) && (physicsOn || g'.hands == map[])
  {
    var h := sample.hand;
    hide GripOK, SameEntries, ClearHand;
    SameEntriesReflexive(g.physics);
    if !sample.complete {
      ClearHandKeeps(g, h);
      EmptyHands(g.hands, ClearHand(g, h).hands);
    } else if h in g.hands {
      SetHandKeeps(g, h, SampleHand(g, physicsOn, sample).hands[h]);
    } else if physicsOn {
      NewHandKeeps(g, h, SampleHand(g, physicsOn, sample).hands[h]);
    }
  }

  lemma NewHandKeeps(g: Grip, h: Hand, state: HandState)
    requires GripOK(g) && h !in g.hands && state.grabbedPodId.None?
    ensures GripOK(SetHand(g, h, state)) && SameEntries(g.physics, SetHand(g, h, state).physics)
  {
  }

  /** Whatever moves only hands, owners and bodies keeps the scene in order. */
  lemma HandsFine(s: Scene, s': Scene)
    requires Inv(s) && s' == s.(grip := s'.grip) && GripOK(s'.grip) && SameEntries(s.grip.physics, s'.grip.physics)
    requires s'.grip.hands.Keys == s.grip.hands.Keys || s.physicsOn || s'.grip.hands == map[]
    ensures Inv(s') && Fine(s, s')
  {
    hide GripOK, ShelfOK, RackOK, Handles, Fired, Later, SameEntries;
    if !s.physicsOn {
      EmptyHands(s.grip.hands, s'.grip.hands);
    }
    GripMoved(s, s'.grip);
  }

  lemma GripOf(s: Scene)
    requires Inv(s)
    ensures GripOK(s.grip) && (s.physicsOn || s.grip.hands == map[])
  {
    hide GripOK, ShelfOK, RackOK, Handles, Fired;
  }

  // ---------------------------------------------------------------- touches

  /** The pods that own the colliders, each once, in the order first met; an empty id counts as none. */
  function Touched(handles: seq<nat>, index: map<nat, string>): seq<string> {
    if handles == [] then []
    else
      var before := Touched(handles[..|handles| - 1], index);
      var h := handles[|handles| - 1];
      if h in index && index[h] != "" && index[h] !in before then before + [index[h]] else before
  }

  /** So a pod is touched exactly if one of the colliders is its own. */
  lemma {:induction false} TouchedAre(handles: seq<nat>, index: map<nat, string>, p: string)
    ensures p in Touched(handles, index) <==> p != "" && exists h :: h in handles && h in index && index[h] == p
  {
    if handles != [] {
      var n := |handles| - 1;
      TouchedAre(handles[..n], index, p);
      assert handles == handles[..n] + [handles[n]];
      if handles[n] in index && index[handles[n]] == p {
        assert handles[n] in handles;
      }
    }
  }

  /** The pod's first collider among those met is the one at `i`. */
  predicate FirstMet(handles: seq<nat>, index: map<nat, string>, p: string, i: int) {
    && 0 <= i < |handles| && handles[i] in index && index[handles[i]] == p
    && forall j :: 0 <= j < i && handles[j] in index ==> index[handles[j]] != p
  }

  /** Pods are listed in the order in which their first colliders are met. */
  lemma {:induction false} TouchedInOrder(handles: seq<nat>, index: map<nat, string>, a: nat, b: nat)
      returns (i: int, j: int)
    requires a < b < |Touched(handles, index)|
    ensures FirstMet(handles, index, Touched(handles, index)[a], i)
    ensures FirstMet(handles, index, Touched(handles, index)[b], j) && i < j
    decreases |handles|
  {
    var n := |handles| - 1;
    var before := Touched(handles[..n], index);
    if b < |before| {
      i, j := TouchedInOrder(handles[..n], index, a, b);
    } else {
      i := FirstOf(handles[..n], index, before[a]);
      j := n;
      assert before[a] in before;
      forall k | 0 <= k < n && handles[k] in index
        ensures index[handles[k]] != index[handles[n]]
      {
        TouchedAre(handles[..n], index, index[handles[n]]);
        assert handles[..n][k] == handles[k] && handles[k] in handles[..n];
      }
    }
  }

  lemma {:induction false} FirstOf(handles: seq<nat>, index: map<nat, string>, p: string) returns (i: int)
    requires p in Touched(handles, index)
    ensures FirstMet(handles, index, p, i)
    decreases |handles|
  {
    var n := |handles| - 1;
    if p in Touched(handles[..n], index) {
      i := FirstOf(handles[..n], index, p);
    } else {
      i := n;
      forall k | 0 <= k < n && handles[k] in index
        ensures index[handles[k]] != p
      {
        TouchedAre(handles[..n], index, p);
        assert handles[..n][k] == handles[k] && handles[k] in handles[..n];
      }
    }
  }

  predicate ListedOnce(s: seq<string>) {
    forall i, j :: 0 <= i < j < |s| ==> s[i] != s[j]
  }

  /** And is listed once. */
  lemma {:induction false} TouchedOnce(handles: seq<nat>, index: map<nat, string>)
    ensures ListedOnce(Touched(handles, index))
  {
    if handles != [] {
      TouchedOnce(handles[..|handles| - 1], index);
      AddedOnce(Touched(handles[..|handles| - 1], index), index, handles[|handles| - 1]);
    }
  }

  lemma AddedOnce(before: seq<string>, index: map<nat, string>, h: nat)
    requires ListedOnce(before)
    ensures h in index && index[h] !in before ==> ListedOnce(before + [index[h]])
  {
  }

  /** A pod that thumb and index finger both touch and that may be taken. */
  predicate Pinchable(shelf: Shelf, physics: map<string, Physics>, index: map<nat, string>, touch: Touch, p: string) {
    p in Touched(touch.thumb, index) && p in Touched(touch.index, index) && IsPodInteractable(shelf, physics, p)
  }

  /** The right answer to the search for a pinch candidate: the middle finger's touch wins. */
  ghost predicate BestCandidate(shelf: Shelf, physics: map<string, Physics>, index: map<nat, string>, touch: Touch,
                                found: Option<string>)
  {
    match found
    case None => forall p :: !Pinchable(shelf, physics, index, touch, p)
    case Some(p) =>
      && Pinchable(shelf, physics, index, touch, p)
      && (|| p in Touched(touch.middle, index)
          || forall q :: Pinchable(shelf, physics, index, touch, q) ==> q !in Touched(touch.middle, index))
  }

  /** Every candidate is a pod that its hand pinches. */
  predicate CandidatesFrom(shelf: Shelf, physics: map<string, Physics>, index: map<nat, string>, frame: XRFrame,
                           hands: map<Hand, HandState>)
  {
    forall h <- hands :: hands[h].pinchCandidateId.Some? ==>
      hands[h].pinchActive && Pinchable(shelf, physics, index, frame.TouchOf(h), hands[h].pinchCandidateId.value)
  }

  /** Every pod is owned by the hand that owned it before, or by one that pinches it. */
  predicate GrabsFrom(shelf: Shelf, physics: map<string, Physics>, index: map<nat, string>, frame: XRFrame,
                      owner: map<string, Hand>, owner': map<string, Hand>)
  {
    forall p <- owner' ::
      (p in owner && owner[p] == owner'[p]) || Pinchable(shelf, physics, index, frame.TouchOf(owner'[p]), p)
  }

  predicate OwnersKept(owner: map<string, Hand>, owner': map<string, Hand>) {
    forall p <- owner' :: p in owner && owner[p] == owner'[p]
  }

  /** The hands are the same but for candidates that were dropped. */
  predicate CandidatesDropped(hands: map<Hand, HandState>, hands': map<Hand, HandState>) {
    && hands'.Keys == hands.Keys
    && forall h <- hands :: hands'[h] == hands[h] || hands'[h] == hands[h].(pinchCandidateId := None)
  }

  /** The grabs of a frame: the right hand's only while the table is not being moved. */
  function Grabs(g: Grip, slider: Option<Hand>, tableMoving: bool, now: int): Grip {
    var left := UpdateGrab(g, Left, slider, now);
    if tableMoving then left else UpdateGrab(left, Right, slider, now)
  }

  /** A hand that pinches the table height slider. */
  predicate TakesSlider(hands: map<Hand, HandState>, hits: set<Hand>, h: Hand) {
    h in hands && hands[h].pinchActive && h in hits
  }

  /** The hand on the slider: the one that has it while it holds on, otherwise the right before the left. */
  function SliderHand(active: Option<Hand>, tableMoving: bool, leftWristTracked: bool, tracked: set<Hand>,
                      hits: set<Hand>, hands: map<Hand, HandState>): Option<Hand>
  {
    if tableMoving || !leftWristTracked then None
    else if active.Some? && active.value in tracked then
      (if TakesSlider(hands, hits, active.value) then active else None)
    else if TakesSlider(hands, hits, Right) then Some(Right)
    else if TakesSlider(hands, hits, Left) then Some(Left)
    else None
  }

  /** In so many words: who may have the slider, who keeps it, and who takes it when it is free. */
  lemma SliderHandIs(active: Option<Hand>, tableMoving: bool, leftWristTracked: bool, tracked: set<Hand>,
                     hits: set<Hand>, hands: map<Hand, HandState>)
    ensures var now := SliderHand(active, tableMoving, leftWristTracked, tracked, hits, hands);
            && (now.Some? ==>
                  && !tableMoving && leftWristTracked && now.value in hits
                  && now.value in hands && hands[now.value].pinchActive
                  && (active.Some? && active.value in tracked ==> now == active))
            && (!tableMoving && leftWristTracked ==>
                  forall h <- hands :: hands[h].pinchActive && h in hits ==>
                    && (active == Some(h) && h in tracked ==> now == active)
                    && (active.None? || active.value !in tracked ==>
                          now == Some(Right) || (now == Some(Left) && h == Left)))
  {
    assert forall h <- hands :: h == Left || h == Right;
  }

  /** And what becomes of a table move. */
  lemma TableMoveIs(moving: bool, awaiting: bool, tracked: set<Hand>, hands: map<Hand, HandState>)
    ensures if moving && Right in tracked && Right in hands && hands[Right].palmCenterSet then
              && MovesTable(moving, tracked, hands)
              && StillMoving(moving, awaiting, tracked, hands) == (awaiting || !hands[Right].pinchActive)
              && StillAwaiting(moving, awaiting, tracked, hands) == (awaiting && hands[Right].pinchActive)
            else
              && !MovesTable(moving, tracked, hands)
              && StillMoving(moving, awaiting, tracked, hands) == moving
              && StillAwaiting(moving, awaiting, tracked, hands) == awaiting
  {
  }

  /** The right hand moves the table. */
  predicate MovesTable(tableMoving: bool, tracked: set<Hand>, hands: map<Hand, HandState>) {
    tableMoving && Right in tracked && Right in hands && hands[Right].palmCenterSet
  }

  /** The table move goes on unless the hand that moves it pinches after a release. */
  predicate StillMoving(tableMoving: bool, awaiting: bool, tracked: set<Hand>, hands: map<Hand, HandState>) {
    tableMoving && !(MovesTable(tableMoving, tracked, hands) && hands[Right].pinchActive && !awaiting)
  }

  /** The release that must come before that pinch is still awaited. */
  predicate StillAwaiting(tableMoving: bool, awaiting: bool, tracked: set<Hand>, hands: map<Hand, HandState>) {
    awaiting && !(MovesTable(tableMoving, tracked, hands) && !hands[Right].pinchActive)
  }

  function WithoutCandidate(hands: map<Hand, HandState>, h: Option<Hand>): map<Hand, HandState> {
    if h.Some? && h.value in hands then hands[h.value := hands[h.value].(pinchCandidateId := None)] else hands
  }

  /**
    What is decided before the grabs: a pinching hand has its best candidate, any other hand none, and
    none have the hand on the slider and the right hand while it moves the table.
   */
  ghost predicate Choose(shelf: Shelf, g: Grip, index: map<nat, string>, frame: XRFrame, slider: Option<Hand>,
                         moves: bool, steady: Grip)
  {
    && steady == g.(hands := steady.hands) && steady.hands.Keys == g.hands.Keys
    && forall h <- g.hands ::
         var c := steady.hands[h].pinchCandidateId;
         && steady.hands[h] == g.hands[h].(pinchCandidateId := c)
         && if slider == Some(h) || (h.Right? && moves) || !g.hands[h].pinchActive then c.None?
            else BestCandidate(shelf, g.physics, index, frame.TouchOf(h), c)
  }

  /** One hand's candidate is chosen anew, and nothing else changes. */
  ghost predicate Picks(shelf: Shelf, physics: map<string, Physics>, index: map<nat, string>, touch: Touch, h: Hand,
                        hands: map<Hand, HandState>, hands': map<Hand, HandState>)
  {
    if h !in hands then hands' == hands
    else
      && h in hands'
      && var c := hands'[h].pinchCandidateId;
         && hands' == hands[h := hands[h].(pinchCandidateId := c)]
         && if hands[h].pinchActive then BestCandidate(shelf, physics, index, touch, c) else c.None?
  }

  lemma BothPicked(shelf: Shelf, g: Grip, index: map<nat, string>, frame: XRFrame,
                   half: map<Hand, HandState>, chosen: map<Hand, HandState>)
    requires Picks(shelf, g.physics, index, frame.left, Left, g.hands, half)
    requires Picks(shelf, g.physics, index, frame.right, Right, half, chosen)
    ensures Choose(shelf, g, index, frame, None, false, g.(hands := chosen))
  {
    hide BestCandidate;
    forall h | h in g.hands
      ensures h in chosen && chosen[h] == g.hands[h].(pinchCandidateId := chosen[h].pinchCandidateId)
      ensures if g.hands[h].pinchActive
              then BestCandidate(shelf, g.physics, index, frame.TouchOf(h), chosen[h].pinchCandidateId)
              else chosen[h].pinchCandidateId.None?
    {
      assert h == Left || h == Right;
    }
  }

  lemma ChosenFrom(shelf: Shelf, g: Grip, index: map<nat, string>, frame: XRFrame, chosen: map<Hand, HandState>)
    requires Choose(shelf, g, index, frame, None, false, g.(hands := chosen))
    ensures CandidatesFrom(shelf, g.physics, index, frame, chosen)
  {
    hide BestCandidate, Pinchable;
    forall h | h in chosen && chosen[h].pinchCandidateId.Some?
      ensures chosen[h].pinchActive
      ensures Pinchable(shelf, g.physics, index, frame.TouchOf(h), chosen[h].pinchCandidateId.value)
    {
      BestIsPinchable(shelf, g.physics, index, frame.TouchOf(h), chosen[h].pinchCandidateId);
    }
  }

  lemma BestIsPinchable(shelf: Shelf, physics: map<string, Physics>, index: map<nat, string>, touch: Touch,
                        found: Option<string>)
    requires found.Some?
    ensures BestCandidate(shelf, physics, index, touch, found) ==> Pinchable(shelf, physics, index, touch, found.value)
  {
  }

  lemma ChooseDropped(shelf: Shelf, g: Grip, index: map<nat, string>, frame: XRFrame, slider: Option<Hand>, moves: bool,
                      chosen: map<Hand, HandState>)
    requires Choose(shelf, g, index, frame, None, false, g.(hands := chosen))
    ensures var moved := WithoutCandidate(WithoutCandidate(chosen, slider), if moves then Some(Right) else None);
            Choose(shelf, g, index, frame, slider, moves, g.(hands := moved))
  {
    hide BestCandidate, WithoutCandidate;
    var right := if moves then Some(Right) else None;
    var slid := WithoutCandidate(chosen, slider);
    WithoutAt(chosen, slider);
    WithoutAt(slid, right);
  }

  lemma WithoutAt(hands: map<Hand, HandState>, h: Option<Hand>)
    ensures var hands' := WithoutCandidate(hands, h);
            && hands'.Keys == hands.Keys
            && forall k <- hands :: hands'[k] == if h == Some(k) then hands[k].(pinchCandidateId := None) else hands[k]
  {
  }

  lemma SteadyFacts(hands: map<Hand, HandState>, chosen: map<Hand, HandState>, slider: Option<Hand>)
    requires chosen.Keys == hands.Keys
    requires forall h <- hands :: chosen[h] == hands[h].(pinchCandidateId := chosen[h].pinchCandidateId)
    ensures forall active, moving, wrist, tracked, hits ::
              SliderHand(active, moving, wrist, tracked, hits, chosen)
              == SliderHand(active, moving, wrist, tracked, hits, hands)
    ensures forall moving, tracked ::
              MovesTable(moving, tracked, WithoutCandidate(chosen, slider)) == MovesTable(moving, tracked, hands)
    ensures forall moving, awaiting, tracked ::
              var slid := WithoutCandidate(chosen, slider);
              && StillMoving(moving, awaiting, tracked, slid) == StillMoving(moving, awaiting, tracked, hands)
              && StillAwaiting(moving, awaiting, tracked, slid) == StillAwaiting(moving, awaiting, tracked, hands)
  {
    CandidatesIgnored(hands, chosen);
    CandidatesIgnored(hands, WithoutCandidate(chosen, slider));
  }

  lemma WithoutIsDropped(hands: map<Hand, HandState>, h: Option<Hand>)
    ensures CandidatesDropped(hands, WithoutCandidate(hands, h))
  {
  }

  /** Neither the slider nor the table move looks at candidates. */
  lemma CandidatesIgnored(hands: map<Hand, HandState>, hands': map<Hand, HandState>)
    requires hands'.Keys == hands.Keys
    requires forall h <- hands ::
               hands'[h].pinchActive == hands[h].pinchActive && hands'[h].palmCenterSet == hands[h].palmCenterSet
    ensures forall active, moving, wrist, tracked, hits ::
              SliderHand(active, moving, wrist, tracked, hits, hands')
              == SliderHand(active, moving, wrist, tracked, hits, hands)
    ensures forall moving, tracked :: MovesTable(moving, tracked, hands') == MovesTable(moving, tracked, hands)
    ensures forall moving, awaiting, tracked ::
              && StillMoving(moving, awaiting, tracked, hands') == StillMoving(moving, awaiting, tracked, hands)
              && StillAwaiting(moving, awaiting, tracked, hands') == StillAwaiting(moving, awaiting, tracked, hands)
  {
  }

  lemma DroppedKeeps(shelf: Shelf, physics: map<string, Physics>, index: map<nat, string>, frame: XRFrame,
                     hands: map<Hand, HandState>, hands': map<Hand, HandState>)
    requires CandidatesFrom(shelf, physics, index, frame, hands) && CandidatesDropped(hands, hands')
    ensures CandidatesFrom(shelf, physics, index, frame, hands')
  {
    hide Pinchable;
  }

  lemma CandidatesAreOK(shelf: Shelf, g: Grip, index: map<nat, string>, frame: XRFrame, h: Hand)
    requires CandidatesFrom(shelf, g.physics, index, frame, g.hands)
    ensures CandidateOK(g, h)
  {
    hide Touched;
  }

  /** A grab takes only the candidate. */
  lemma GrabTakes(g: Grip, h: Hand, slider: Option<Hand>, now: int)
    ensures var g' := UpdateGrab(g, h, slider, now);
            forall p <- g'.owner :: (p in g.owner && g.owner[p] == g'.owner[p])
                                    || (g'.owner[p] == h && h in g.hands && g.hands[h].pinchCandidateId == Some(p))
    ensures forall k <- g.hands :: k != h ==>
              k in UpdateGrab(g, h, slider, now).hands && UpdateGrab(g, h, slider, now).hands[k] == g.hands[k]
  {
  }

  lemma GrabCrushesNothing(g: Grip, h: Hand, slider: Option<Hand>, now: int)
    ensures CrushesBegan(g.physics, UpdateGrab(g, h, slider, now).physics, {})
  {
    hide ReleaseGrab;
    ReleaseKeepsOwners(g, h);
  }

  lemma GrabsCrushNothing(g: Grip, slider: Option<Hand>, tableMoving: bool, now: int)
    ensures CrushesBegan(g.physics, Grabs(g, slider, tableMoving, now).physics, {})
  {
    hide UpdateGrab, CrushesBegan;
    var left := UpdateGrab(g, Left, slider, now);
    GrabCrushesNothing(g, Left, slider, now);
    GrabCrushesNothing(left, Right, slider, now);
    CrushesAdd(g.physics, left.physics, UpdateGrab(left, Right, slider, now).physics, {}, {});
    var none: set<string> := {};
    assert none + none == none;
  }

  /** The two grabs of a frame take only what the hands pinch. */
  lemma GrabsTake(shelf: Shelf, g: Grip, index: map<nat, string>, frame: XRFrame, slider: Option<Hand>,
                  tableMoving: bool)
    requires CandidatesFrom(shelf, g.physics, index, frame, g.hands)
    ensures GrabsFrom(shelf, g.physics, index, frame, g.owner, Grabs(g, slider, tableMoving, frame.now).owner)
  {
    hide UpdateGrab, Pinchable;
    GrabTakes(g, Left, slider, frame.now);
    var half := UpdateGrab(g, Left, slider, frame.now);
    HandsStay(g, Left, slider, frame.now);
    GrabTakes(half, Right, slider, frame.now);
  }

  lemma HandsStay(g: Grip, h: Hand, slider: Option<Hand>, now: int)
    ensures UpdateGrab(g, h, slider, now).hands.Keys == g.hands.Keys
  {
  }

  lemma OwnersKeptTransitive(owner: map<string, Hand>, owner': map<string, Hand>, owner'': map<string, Hand>)
    requires OwnersKept(owner, owner') && OwnersKept(owner', owner'')
    ensures OwnersKept(owner, owner'')
  {
  }

  lemma GrabsNarrowed(shelf: Shelf, physics: map<string, Physics>, index: map<nat, string>, frame: XRFrame,
                      owner: map<string, Hand>, owner': map<string, Hand>, owner'': map<string, Hand>)
    requires GrabsFrom(shelf, physics, index, frame, owner, owner') && OwnersKept(owner', owner'')
    ensures GrabsFrom(shelf, physics, index, frame, owner, owner'')
  {
    hide Pinchable;
  }

  lemma OwnersStay(owner: map<string, Hand>)
    ensures OwnersKept(owner, owner)
  {
  }

  lemma CrushKeepsOwners(shelf: Shelf, g: Grip, p: string)
    ensures OwnersKept(g.owner, StartCrush(shelf, g, p).owner)
  {
    hide BeginCrush;
  }

  /** Hands only let go, and no entry changes but for its body. */
  predicate LetsGo(g: Grip, g': Grip) {
    SameEntries(g.physics, g'.physics) && OwnersKept(g.owner, g'.owner) && CrushesBegan(g.physics, g'.physics, {})
  }

  /** What is grabbed after hands only let go. */
  lemma GrabsWidened(shelf: Shelf, g: Grip, g': Grip, index: map<nat, string>, frame: XRFrame, owner: map<string, Hand>)
    requires LetsGo(g, g') && GrabsFrom(shelf, g'.physics, index, frame, g'.owner, owner)
    ensures GrabsFrom(shelf, g.physics, index, frame, g.owner, owner)
  {
    hide Touched;
  }

  lemma SampleLetsGo(g: Grip, physicsOn: bool, sample: HandSample)
    requires GripOK(g) && (physicsOn || g.hands == map[])
    ensures LetsGo(g, SampleHand(g, physicsOn, sample))
  {
    hide GripOK, SameEntries, ClearHand, OwnersKept, CrushesBegan;
    SampleHandKeeps(g, physicsOn, sample);
    ReleaseKeepsOwners(g, sample.hand);
    OwnersStay(g.owner);
    NoCrush(g.physics);
  }

  lemma NobodyLetsGo(g: Grip)
    ensures LetsGo(g, g)
  {
  }

  lemma LetsGoTransitive(g: Grip, g': Grip, g'': Grip)
    requires LetsGo(g, g') && LetsGo(g', g'')
    ensures LetsGo(g, g'')
  {
  }

  lemma ReleaseKeepsOwners(g: Grip, h: Hand)
    ensures OwnersKept(g.owner, ReleaseGrab(g, h).owner) && OwnersKept(g.owner, ClearHand(g, h).owner)
    ensures CrushesBegan(g.physics, ReleaseGrab(g, h).physics, {})
    ensures CrushesBegan(g.physics, ClearHand(g, h).physics, {})
  {
  }

  // ---------------------------------------------------------------- gusts

  /** A hand in the gust pose that neither holds nor pinches. */
  predicate MayBlow(hands: map<Hand, HandState>, h: Hand) {
    h in hands && hands[h].gustPoseActive && hands[h].grabbedPodId.None? && !hands[h].pinchActive
  }

  function BlowOne(k: Rack, physicsOn: bool, hands: map<Hand, HandState>, sweeping: set<Hand>, h: Hand): Rack {
    if physicsOn && MayBlow(hands, h) && h in sweeping then LaunchGust(k) else k
  }

  /** The gusts of a frame: the right hand's only while the table stays. */
  function Blow(k: Rack, physicsOn: bool, hands: map<Hand, HandState>, sweeping: set<Hand>, tableMoving: bool): Rack {
    var left := BlowOne(k, physicsOn, hands, sweeping, Left);
    if tableMoving then left else BlowOne(left, physicsOn, hands, sweeping, Right)
  }

  /** A hand in the gust pose that sweeps, free and unpinched. */
  predicate Blows(hands: map<Hand, HandState>, sweeping: set<Hand>, h: Hand) {
    && h in sweeping && h in hands
    && hands[h].gustPoseActive && hands[h].grabbedPodId == None && hands[h].pinchActive == false
  }

  /** A frame adds one gust for each such hand to those that are active, the right one's only while the table stays. */
  lemma BlowAdds(k: Rack, physicsOn: bool, hands: map<Hand, HandState>, sweeping: set<Hand>, tableMoving: bool)
    ensures var k' := Blow(k, physicsOn, hands, sweeping, tableMoving);
            && k.active <= k'.active
            && |k'.active| == |k.active| + (if physicsOn && Blows(hands, sweeping, Left) then 1 else 0)
                              + (if physicsOn && !tableMoving && Blows(hands, sweeping, Right) then 1 else 0)
  {
  }

  // ---------------------------------------------------------------- palms

  /** A crush that starts touches no other pod's crush, and cannot fail for a pod that is shown. */
  lemma StartCrushOnly(shelf: Shelf, g: Grip, p: string)
    requires GripOK(g) && (p in shelf.shown ==> !(shelf.shown[p] in shelf.status && shelf.status[shelf.shown[p]].Gone?))
    ensures CrushesBegan(g.physics, StartCrush(shelf, g, p).physics, if p in shelf.shown then {p} else {})
  {
    hide LetGo, Owners;
    LetGoCrushes(g, p);
    assert p in g.physics ==> BodyOK(g.physics[p], p in g.owner);
  }

  /** The pods of the set are being crushed, and the crush of every other is as it was. */
  predicate CrushesBegan(physics: map<string, Physics>, physics': map<string, Physics>, crushed: set<string>) {
    && physics'.Keys == physics.Keys
    && forall p <- physics ::
         if p in crushed then physics'[p].crushProgress > 0.0 else physics'[p].crushProgress == physics[p].crushProgress
  }

  lemma CrushesAdd(physics: map<string, Physics>, physics': map<string, Physics>, physics'': map<string, Physics>,
                   crushed: set<string>, more: set<string>)
    requires CrushesBegan(physics, physics', crushed) && CrushesBegan(physics', physics'', more)
    ensures CrushesBegan(physics, physics'', crushed + more)
  {
  }

  lemma NoCrush(physics: map<string, Physics>)
    ensures CrushesBegan(physics, physics, {})
  {
  }

  lemma NoneGone(s: Scene)
    requires Inv(s)
    ensures forall m <- s.shelf.status :: !s.shelf.status[m].Gone?
  {
    hide GripOK, RackOK, Handles, Fired;
  }

  lemma LetGoCrushes(g: Grip, p: string)
    ensures LetGo(g, p).physics.Keys == g.physics.Keys
    ensures forall q <- g.physics :: LetGo(g, p).physics[q].crushProgress == g.physics[q].crushProgress
  {
  }

  // ---------------------------------------------------------------- starting physics and resetting

  /** What `initializePhysics` starts its loop from. */
  lemma PhysicsStarted(s: Scene, s': Scene)
    requires Inv(s) && !s.physicsOn
    requires s' == s.(physicsOn := true, grip := s.grip.(hands := map[Left := IDLE_HAND, Right := IDLE_HAND]))
    ensures Filed(s') && Later(s, s', 0.0) && s'.grip.physics.Keys == {}
  {
    hide ShelfOK, RackOK, Handles, Fired;
  }

  lemma FiledInv(s: Scene)
    requires Filed(s) && s.physicsOn && s.shelf.shown.Keys == s.grip.physics.Keys
    ensures Inv(s)
  {
  }

  lemma FiledLater(s: Scene)
    requires Filed(s)
    ensures Later(s, s, 0.0)
  {
    hide ShelfOK, RackOK, Handles, Fired, Owners;
    SameEntriesReflexive(s.grip.physics);
    SameEntriesAged(s.grip.physics, s.grip.physics, s.grip.owner, s.log.made);
  }

  lemma PartsOf(s: Scene)
    requires Inv(s)
    ensures ShelfOK(s.shelf) && RackOK(s.rack) && Handles(s.grip.physics, s.index) && Fired(s.grip.physics, s.log)
    ensures Owners(s.grip.owner, s.grip.hands)
    ensures s.physicsOn || (s.grip == Grip(map[], map[], map[]) && s.rack.pool == [] && s.rack.active == [])
  {
    hide ShelfOK, RackOK, Handles, Fired, Owners, Bodies;
  }

  /** Once no entry is left, clearing a hand only empties it. */
  lemma ClearedHands(g: Grip, h: Hand)
    requires Owners(g.owner, g.hands) && g.physics == map[]
    ensures var g' := ClearHand(g, h);
            && Owners(g'.owner, g'.hands) && g'.physics == map[] && g'.hands.Keys == g.hands.Keys
            && (h in g.hands ==> g'.hands[h] == IDLE_HAND)
            && forall k <- g.hands :: k != h ==> g'.hands[k] == g.hands[k]
  {
    hide Owners;
    if h in g.hands && g.hands[h].grabbedPodId.Some? {
      ReleasedOwners(g.owner, g.hands, h, g.hands[h].grabbedPodId.value);
    }
    if h in g.hands {
      OwnersSet(ReleaseGrab(g, h).owner, ReleaseGrab(g, h).hands, h, IDLE_HAND);
    }
  }

  lemma OwnersSet(owner: map<string, Hand>, hands: map<Hand, HandState>, h: Hand, state: HandState)
    requires Owners(owner, hands) && h in hands && hands[h].grabbedPodId == state.grabbedPodId
    ensures Owners(owner, hands[h := state])
  {
  }

  lemma ResetKeeps(s: Scene, s': Scene)
    requires Inv(s) && s'.physicsOn == s.physicsOn && s'.log == s.log
    requires ShelfOK(s'.shelf) && s'.shelf.shown == map[] && s'.shelf.built == s.shelf.built
    requires RackOK(s'.rack) && s'.rack.active == [] && s'.rack.built == s.rack.built
    requires s'.grip.physics == map[] && s'.grip.owner == map[]
    requires forall h <- s'.grip.hands :: s'.grip.hands[h] == IDLE_HAND
    requires s.physicsOn || (s'.grip.hands == map[] && s'.rack.pool == [])
    requires Handles(s'.grip.physics, s'.index) && Fired(s'.grip.physics, s'.log)
    ensures Inv(s') && Fine(s, s')
  {
    hide ShelfOK, RackOK, Handles, Fired;
  }

  lemma ClearHandOnly(g: Grip, h: Hand)
    ensures var g' := ClearHand(g, h);
            && g'.hands.Keys == g.hands.Keys && (h in g.hands ==> g'.hands[h] == IDLE_HAND)
            && forall k <- g.hands :: k != h ==> g'.hands[k] == g.hands[k]
  {
  }

  lemma NobodyOwns(s: Scene)
    requires Inv(s) && forall h <- s.grip.hands :: s.grip.hands[h] == IDLE_HAND
    ensures s.grip.owner == map[]
  {
    hide ShelfOK, RackOK, Handles, Fired, Bodies;
    assert s.grip.owner.Keys == {};
  }
}
