/** The guide-point tracer with stray rejection (app/test2/page.tsx).

    The pointer handlers are modelled as atomic transitions on a snapshot of
    the tracing state: `Start`, `Move` and `End` are the pure specification
    of `handleDrawingStart`, `handleDrawingMove` and `handleDrawingEnd`, and
    the class `Tracer` keeps the component's state in fields and updates
    them step by step as the handlers do. Within one handler the setters
    apply in order, so the last write wins. */
module GuidedTracer {
  import opened Geometry
  import opened Letters

  const HitTolerance: real := 28.0
  const StartTolerance: real := 40.0
  const StrayTolerance: real := 30.0
  const InitialActiveGuideDotRadius: real := 12.0

  /** The tracing state of the component: `currentStrokeIndex`,
      `nextExpectedPointIndex`, `isDrawing`, the live pointer points of the
      stroke being drawn, `completedStrokeSegments` and
      `isLetterFullyCompleted`. */
  datatype TraceState = TraceState(
    strokeIndex: nat,
    pointIndex: nat,
    drawing: bool,
    live: seq<Point>,
    segments: seq<Segment>,
    completed: bool)

  /** The state `loadLetter` installs. */
  const Fresh: TraceState := TraceState(0, 0, false, [], [], false)

  function Max(a: real, b: real): (r: real)
    ensures r >= a && r >= b && (r == a || r == b)
  {
    if a >= b then a else b
  }

  /** Tolerance for a pointer-down: more forgiving at a stroke's first point. */
  function ClickTolerance(pointIndex: nat): (r: real)
    ensures pointIndex == 0 ==> r == 40.0
    ensures pointIndex > 0 ==> r == HitTolerance
  {
    if pointIndex == 0 then Max(StartTolerance, InitialActiveGuideDotRadius) else HitTolerance
  }

  /** The current stroke exists and has a point at the expected index. */
  predicate HasTarget(letter: Letter, s: TraceState)
  {
    s.strokeIndex < |letter.strokes| && s.pointIndex < |letter.strokes[s.strokeIndex]|
  }

  /** The guide point the user must reach next. */
  function Target(letter: Letter, s: TraceState): Point
    requires HasTarget(letter, s)
  {
    letter.strokes[s.strokeIndex][s.pointIndex]
  }

  /** `prevGuidePointOrUserStart`: the start of the segment the pointer must
      stay near, the previous guide point, or at a stroke's first point the
      user's first live point (the first guide point if there is none). */
  function StrayReference(letter: Letter, s: TraceState): Point
    requires HasTarget(letter, s)
  {
    var stroke := letter.strokes[s.strokeIndex];
    if s.pointIndex == 0 then (if |s.live| > 0 then s.live[0] else stroke[0])
    else stroke[s.pointIndex - 1]
  }

  /** `segmentStartPoint`: where the segment recorded by a hit at `pos`
      begins; at a stroke's first point it is the user's start position. */
  function SegmentStart(letter: Letter, s: TraceState, pos: Point): Point
    requires HasTarget(letter, s)
  {
    if s.pointIndex == 0 then (s.live + [pos])[0]
    else letter.strokes[s.strokeIndex][s.pointIndex - 1]
  }

  // ---------------------------------------------------------------------
  // Classification of events, in terms of plain distances
  // ---------------------------------------------------------------------

  /** A pointer-down at `pos` is accepted. */
  predicate StartAccepted(letter: Letter, s: TraceState, pos: Point)
  {
    !s.completed && HasTarget(letter, s) &&
    DistSq(pos, Target(letter, s)) < Sqr(ClickTolerance(s.pointIndex))
  }

  /** A move is examined against the current target. */
  predicate Tracing(letter: Letter, s: TraceState)
  {
    s.drawing && !s.completed && HasTarget(letter, s)
  }

  /** A move at `pos` strays too far from the segment towards the target. */
  predicate Strays(letter: Letter, s: TraceState, pos: Point)
  {
    Tracing(letter, s) &&
    SegmentDistSq(pos, StrayReference(letter, s), Target(letter, s)) > Sqr(StrayTolerance)
  }

  /** A move at `pos` reaches the target. */
  predicate Hits(letter: Letter, s: TraceState, pos: Point)
  {
    Tracing(letter, s) && DistSq(pos, Target(letter, s)) < Sqr(HitTolerance)
  }

  /** The target of a hit is near enough to the segment that no hit is
      also a stray: stray rejection never pre-empts a hit. */
  lemma HitIsNeverStray(letter: Letter, s: TraceState, pos: Point)
    requires Hits(letter, s, pos)
    ensures !Strays(letter, s, pos)
  {
    SegmentDistAtMostEndpoints(pos, StrayReference(letter, s), Target(letter, s));
  }

  // ---------------------------------------------------------------------
  // The three handlers
  // ---------------------------------------------------------------------

  /** `handleDrawingStart` at pointer position `pos`. */
  function Start(letter: Letter, s: TraceState, pos: Point): (r: TraceState)
    ensures r.strokeIndex == s.strokeIndex && r.pointIndex == s.pointIndex
    ensures r.segments == s.segments && r.completed == s.completed
    ensures StartAccepted(letter, s, pos) ==> r == s.(drawing := true, live := [pos])
    ensures !StartAccepted(letter, s, pos) ==> r == s
  {
    if s.completed then s
    else if s.strokeIndex >= |letter.strokes| then s
    else
      var stroke := letter.strokes[s.strokeIndex];
      if |stroke| == 0 || s.pointIndex >= |stroke| then s
      else
        var target := stroke[s.pointIndex];
        if SegmentDistSq(pos, target, target) < Sqr(ClickTolerance(s.pointIndex))
        then s.(drawing := true, live := [pos])
        else s
  }

  /** The state after a move at `pos` that reached the target: the segment
      from its start to the target is recorded and the next guide point of
      the stroke becomes the target; after the stroke's last point the next
      stroke begins and, after the last stroke, the letter is completed. */
  function Advance(letter: Letter, s: TraceState, pos: Point): (r: TraceState)
    requires Tracing(letter, s)
    ensures r.segments == s.segments + [Segment(SegmentStart(letter, s, pos), Target(letter, s))]
    ensures s.pointIndex + 1 < |letter.strokes[s.strokeIndex]| ==>
      && r.strokeIndex == s.strokeIndex && r.pointIndex == s.pointIndex + 1
      && r.drawing && r.live == [Target(letter, s)] && !r.completed
    ensures s.pointIndex + 1 == |letter.strokes[s.strokeIndex]| ==>
      && r.strokeIndex == s.strokeIndex + 1 && r.pointIndex == 0
      && !r.drawing && r.live == []
      && (r.completed <==> r.strokeIndex == |letter.strokes|)
  {
    var stroke := letter.strokes[s.strokeIndex];
    var target := stroke[s.pointIndex];
    var live := s.live + [pos];
    var segmentStart := if s.pointIndex == 0 then live[0] else stroke[s.pointIndex - 1];
    var segments := s.segments + [Segment(segmentStart, target)];
    var next := s.pointIndex + 1;
    if next >= |stroke| then
      var nextStroke := s.strokeIndex + 1;
      TraceState(nextStroke, 0, false, [], segments,
                 if nextStroke >= |letter.strokes| then true else s.completed)
    else
      s.(pointIndex := next, live := [target], segments := segments)
  }

  /** `handleDrawingMove` at pointer position `pos`. */
  function Move(letter: Letter, s: TraceState, pos: Point): (r: TraceState)
    ensures !s.drawing || s.completed ==> r == s
    ensures s.drawing && !s.completed && !HasTarget(letter, s) ==> r == s.(drawing := false)
    ensures Strays(letter, s, pos) ==> r == s.(drawing := false, live := [])
    ensures Tracing(letter, s) && !Strays(letter, s, pos) && Hits(letter, s, pos) ==>
      r == Advance(letter, s, pos)
    ensures Tracing(letter, s) && !Strays(letter, s, pos) && !Hits(letter, s, pos) ==>
      r == s.(live := s.live + [pos])
  {
    if !s.drawing || s.completed then s
    else if s.strokeIndex >= |letter.strokes| || s.pointIndex >= |letter.strokes[s.strokeIndex]| then
      s.(drawing := false)
    else
      var stroke := letter.strokes[s.strokeIndex];
      var reference := if s.pointIndex == 0 then (if |s.live| > 0 then s.live[0] else stroke[0])
                       else stroke[s.pointIndex - 1];
      var target := stroke[s.pointIndex];
      if SegmentDistSq(pos, reference, target) > Sqr(StrayTolerance) then
        s.(drawing := false, live := [])
      else if SegmentDistSq(pos, target, target) < Sqr(HitTolerance) then
        Advance(letter, s, pos)
      else
        s.(live := s.live + [pos])
  }

  /** A move that reaches the target always advances: it is never rejected
      as a stray. */
  lemma MoveHit(letter: Letter, s: TraceState, pos: Point)
    requires Hits(letter, s, pos)
    ensures Move(letter, s, pos) == Advance(letter, s, pos)
  {
    HitIsNeverStray(letter, s, pos);
  }

  /** A move changes the stroke index by at most one, only appends to the
      completed segments (at most one segment), and sets the completed flag
      exactly when it finishes the last stroke. */
  lemma MoveProgress(letter: Letter, s: TraceState, pos: Point)
    ensures var r := Move(letter, s, pos);
      && (r.strokeIndex == s.strokeIndex || r.strokeIndex == s.strokeIndex + 1)
      && |s.segments| <= |r.segments| <= |s.segments| + 1
      && r.segments[..|s.segments|] == s.segments
      && (s.completed ==> r == s)
      && (!s.completed ==>
            (r.completed <==> s.strokeIndex < |letter.strokes| && r.strokeIndex == |letter.strokes|))
  {
    var r := Move(letter, s, pos);
    if Tracing(letter, s) && !Strays(letter, s, pos) && Hits(letter, s, pos) {
      assert r.segments[..|s.segments|] == s.segments;
    }
  }

  /** `handleDrawingEnd` (pointer up, leave or cancel). */
  function End(letter: Letter, s: TraceState): (r: TraceState)
    ensures !r.drawing
    ensures r.strokeIndex == s.strokeIndex && r.pointIndex == s.pointIndex
    ensures r.segments == s.segments && r.completed == s.completed
    ensures r.live == (if DropsLive(letter, s) then [] else s.live)
    ensures !s.drawing ==> r == s
  {
    var r := s.(drawing := false);
    if s.drawing && |s.live| > 0 && !s.completed then
      if s.strokeIndex < |letter.strokes| && s.pointIndex < |letter.strokes[s.strokeIndex]| then
        var target := letter.strokes[s.strokeIndex][s.pointIndex];
        if SegmentDistSq(s.live[|s.live| - 1], target, target) >= Sqr(HitTolerance)
        then r.(live := [])
        else r
      else r
    else r
  }

  /** The release drops the live points: the stroke is being drawn and the
      last live point is not within the hit tolerance of the target. */
  predicate DropsLive(letter: Letter, s: TraceState)
  {
    s.drawing && |s.live| > 0 && !s.completed && HasTarget(letter, s) &&
    DistSq(s.live[|s.live| - 1], Target(letter, s)) >= Sqr(HitTolerance)
  }

  // ---------------------------------------------------------------------
  // The invariant the handlers keep
  // ---------------------------------------------------------------------

  /** Indices stay in range, the completed flag means the last stroke is
      done, and a stroke in progress has a target and a live point. */
  predicate Inv(letter: Letter, s: TraceState)
  {
    && s.strokeIndex <= |letter.strokes|
    && (s.strokeIndex < |letter.strokes| ==> s.pointIndex < |letter.strokes[s.strokeIndex]|)
    && (s.completed ==> s.strokeIndex == |letter.strokes|)
    && (s.drawing ==> s.strokeIndex < |letter.strokes| && |s.live| > 0)
  }

  lemma FreshInv(letter: Letter)
    requires WellFormed(letter)
    ensures Inv(letter, Fresh)
  {
  }

  lemma StartKeepsInv(letter: Letter, s: TraceState, pos: Point)
    requires Inv(letter, s)
    ensures Inv(letter, Start(letter, s, pos))
  {
  }

  lemma MoveKeepsInv(letter: Letter, s: TraceState, pos: Point)
    requires WellFormed(letter) && Inv(letter, s)
    ensures Inv(letter, Move(letter, s, pos))
  {
    if Hits(letter, s, pos) && s.pointIndex + 1 == |letter.strokes[s.strokeIndex]|
       && s.strokeIndex + 1 < |letter.strokes| {
      assert |letter.strokes[s.strokeIndex + 1]| > 0;
    }
  }

  lemma EndKeepsInv(letter: Letter, s: TraceState)
    requires Inv(letter, s)
    ensures Inv(letter, End(letter, s))
  {
  }

  /** Releasing twice is the same as releasing once. */
  lemma EndIdempotent(letter: Letter, s: TraceState)
    ensures End(letter, End(letter, s)) == End(letter, s)
  {
  }

  // ---------------------------------------------------------------------
  // The component
  // ---------------------------------------------------------------------

  class Tracer {
    const catalog: seq<Letter>
    var alphabetIndex: nat
    var letter: Letter
    var strokeIndex: nat
    var pointIndex: nat
    var drawing: bool
    var live: seq<Point>
    var segments: seq<Segment>
    var completed: bool

    function State(): TraceState
      reads this
    {
      TraceState(strokeIndex, pointIndex, drawing, live, segments, completed)
    }

    ghost predicate Valid()
      reads this
    {
      WellFormedCatalog(catalog) && alphabetIndex < |catalog| &&
      letter == catalog[alphabetIndex]
    }

    /** The component once mounted: the effect has loaded letter 0. */
    constructor (catalog: seq<Letter>)
      requires WellFormedCatalog(catalog)
      ensures Valid() && Inv(letter, State()) && this.catalog == catalog
      ensures alphabetIndex == 0 && letter == catalog[0] && State() == Fresh
    {
      this.catalog := catalog;
      alphabetIndex := 0;
      letter := catalog[0];
      strokeIndex, pointIndex, drawing := 0, 0, false;
      live, segments, completed := [], [], false;
    }

    /** `loadLetter(index)`: out-of-range indices are ignored. */
    method LoadLetter(index: int)
      requires Valid()
      modifies this
      ensures Valid()
      ensures !(0 <= index < |catalog|) ==> unchanged(this)
      ensures 0 <= index < |catalog| ==>
        alphabetIndex == index && letter == catalog[index] && State() == Fresh
      ensures 0 <= index < |catalog| ==> Inv(letter, State())
    {
      if index < 0 || index >= |catalog| {
        return;
      }
      alphabetIndex := index;
      letter := catalog[index];
      strokeIndex := 0;
      pointIndex := 0;
      live := [];
      segments := [];
      drawing := false;
      completed := false;
    }

    /** `setCurrentAlphabetIndex(index)` followed by the effect that
        reloads the letter: the effect only runs when the index changes. */
    method ChangeAlphabetIndex(index: nat)
      requires Valid() && index < |catalog|
      modifies this
      ensures Valid()
      ensures index == old(alphabetIndex) ==> unchanged(this)
      ensures index != old(alphabetIndex) ==>
        alphabetIndex == index && letter == catalog[index] && State() == Fresh
    {
      if index != alphabetIndex {
        LoadLetter(index);
      }
    }

    method HandleDrawingStart(pos: Point)
      requires Valid()
      modifies this`drawing, this`live
      ensures Valid()
      ensures State() == Start(letter, old(State()), pos)
      ensures Inv(letter, old(State())) ==> Inv(letter, State())
    {
      if Inv(letter, State()) {
        StartKeepsInv(letter, State(), pos);
      }
      if completed {
        return;
      }
      if strokeIndex >= |letter.strokes| {
        return;
      }
      var stroke := letter.strokes[strokeIndex];
      if |stroke| == 0 || pointIndex >= |stroke| {
        return;
      }
      var target := stroke[pointIndex];
      var tolerance := if pointIndex == 0 then Max(StartTolerance, InitialActiveGuideDotRadius) else HitTolerance;
      if SegmentDistSq(pos, target, target) < Sqr(tolerance) {
        drawing := true;
        live := [pos];
      }
    }

    method HandleDrawingMove(pos: Point)
      requires Valid()
      modifies this`strokeIndex, this`pointIndex, this`drawing, this`live, this`segments, this`completed
      ensures Valid()
      ensures State() == Move(letter, old(State()), pos)
      ensures Inv(letter, old(State())) ==> Inv(letter, State())
    {
      if Inv(letter, State()) {
        MoveKeepsInv(letter, State(), pos);
      }
      if !drawing || completed {
        return;
      }
      if strokeIndex >= |letter.strokes| || pointIndex >= |letter.strokes[strokeIndex]| {
        drawing := false;
        return;
      }
      var stroke := letter.strokes[strokeIndex];
      var reference := if pointIndex == 0 then (if |live| > 0 then live[0] else stroke[0])
                       else stroke[pointIndex - 1];
      var target := stroke[pointIndex];
      if SegmentDistSq(pos, reference, target) > Sqr(StrayTolerance) {
        drawing := false;
        live := [];
        return;
      }
      live := live + [pos];
      if SegmentDistSq(pos, target, target) < Sqr(HitTolerance) {
        var segmentStart := if pointIndex == 0 then live[0] else stroke[pointIndex - 1];
        segments := segments + [Segment(segmentStart, target)];
        live := [target];
        var next := pointIndex + 1;
        pointIndex := next;
        if next >= |stroke| {
          live := [];
          drawing := false;
          var nextStroke := strokeIndex + 1;
          strokeIndex := nextStroke;
          pointIndex := 0;
          if nextStroke >= |letter.strokes| {
            completed := true;
          }
        }
      }
    }

    method HandleDrawingEnd()
      requires Valid()
      modifies this`drawing, this`live
      ensures Valid()
      ensures State() == End(letter, old(State()))
      ensures Inv(letter, old(State())) ==> Inv(letter, State())
    {
      if Inv(letter, State()) {
        EndKeepsInv(letter, State());
      }
      var wasDrawing := drawing;
      drawing := false;
      if wasDrawing && |live| > 0 && !completed {
        if strokeIndex < |letter.strokes| && pointIndex < |letter.strokes[strokeIndex]| {
          var lastDrawn := live[|live| - 1];
          var target := letter.strokes[strokeIndex][pointIndex];
          if SegmentDistSq(lastDrawn, target, target) >= Sqr(HitTolerance) {
            live := [];
          }
        }
      }
    }

    method HandleNextLetter()
      requires Valid()
      modifies this
      ensures Valid()
      ensures alphabetIndex == NextIndex(old(alphabetIndex), |catalog|)
      ensures alphabetIndex != old(alphabetIndex) ==> letter == catalog[alphabetIndex] && State() == Fresh
      ensures alphabetIndex == old(alphabetIndex) ==> unchanged(this)
    {
      ChangeAlphabetIndex(NextIndex(alphabetIndex, |catalog|));
    }

    method HandlePrevLetter()
      requires Valid()
      modifies this
      ensures Valid()
      ensures alphabetIndex == PrevIndex(old(alphabetIndex), |catalog|)
      ensures alphabetIndex != old(alphabetIndex) ==> letter == catalog[alphabetIndex] && State() == Fresh
      ensures alphabetIndex == old(alphabetIndex) ==> unchanged(this)
    {
      ChangeAlphabetIndex(PrevIndex(alphabetIndex, |catalog|));
    }

    /** Reloads the current letter directly, so progress is always reset. */
    method HandleResetLetter()
      requires Valid()
      modifies this
      ensures Valid()
      ensures alphabetIndex == old(alphabetIndex) && letter == old(letter) && State() == Fresh
    {
      LoadLetter(alphabetIndex);
    }

    /** Selecting a character not in the catalog changes nothing; selecting
        the letter already shown keeps its progress, since the index does
        not change and the reloading effect does not run. */
    method HandleSelectLetter(ch: string)
      requires Valid()
      modifies this
      ensures Valid()
      ensures FindIndex(catalog, ch) == -1 ==> unchanged(this)
      ensures FindIndex(catalog, ch) == old(alphabetIndex) ==> unchanged(this)
      ensures FindIndex(catalog, ch) != -1 && FindIndex(catalog, ch) != old(alphabetIndex) ==>
        alphabetIndex == FindIndex(catalog, ch) && letter.character == ch && State() == Fresh
    {
      var index := FindIndex(catalog, ch);
      if index != -1 {
        ChangeAlphabetIndex(index);
      }
    }

    /** The delayed callback scheduled when the letter is completed: clear
        the completed flag and move on to the next letter. */
    method CompletionTimerFires()
      requires Valid()
      modifies this
      ensures Valid()
      ensures alphabetIndex == NextIndex(old(alphabetIndex), |catalog|)
      ensures alphabetIndex != old(alphabetIndex) ==> letter == catalog[alphabetIndex] && State() == Fresh
      ensures alphabetIndex == old(alphabetIndex) ==>
        State() == old(State()).(completed := false) && letter == old(letter)
    {
      completed := false;
      ChangeAlphabetIndex(NextIndex(alphabetIndex, |catalog|));
    }
  }
}
