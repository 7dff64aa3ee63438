/** The simpler guide-point tracer (app/test3/page.tsx): the same
    stroke-by-stroke, point-by-point progression as the guided tracer, but
    without stray rejection and without a completed flag; the letter is
    finished once the stroke index has passed the last stroke.

    `Start`, `Move` and `End` specify `handleDrawingStart`,
    `handleDrawingMove` and `handleDrawingEnd` as atomic transitions; the
    class `Tracer` holds the component's state and updates it as the
    handlers do. */
module SimpleTracer {
  import opened Geometry
  import opened Letters

  const HitTolerance: real := 28.0
  const StartTolerance: real := 40.0

  /** `currentStrokeIndex`, `nextExpectedPointIndex`, `isDrawing`, the live
      pointer points and `completedStrokesData`. */
  datatype TraceState = TraceState(
    strokeIndex: nat,
    pointIndex: nat,
    drawing: bool,
    live: seq<Point>,
    segments: seq<Segment>)

  /** The state `loadLetter` installs. */
  const Fresh: TraceState := TraceState(0, 0, false, [], [])

  /** Tolerance for a pointer-down: more forgiving at a stroke's first point. */
  function ClickTolerance(pointIndex: nat): (r: real)
    ensures r == if pointIndex == 0 then 40.0 else 28.0
  {
    if pointIndex == 0 then StartTolerance else HitTolerance
  }

  predicate HasTarget(letter: Letter, s: TraceState)
  {
    s.strokeIndex < |letter.strokes| && s.pointIndex < |letter.strokes[s.strokeIndex]|
  }

  function Target(letter: Letter, s: TraceState): Point
    requires HasTarget(letter, s)
  {
    letter.strokes[s.strokeIndex][s.pointIndex]
  }

  /** Every stroke has been traced. */
  predicate Finished(letter: Letter, s: TraceState)
  {
    s.strokeIndex >= |letter.strokes|
  }

  /** A pointer-down at `pos` is accepted. */
  predicate StartAccepted(letter: Letter, s: TraceState, pos: Point)
  {
    HasTarget(letter, s) && DistSq(pos, Target(letter, s)) < Sqr(ClickTolerance(s.pointIndex))
  }

  /** A move is examined against the current target. */
  predicate Tracing(letter: Letter, s: TraceState)
  {
    s.drawing && HasTarget(letter, s)
  }

  /** A move at `pos` reaches the target. */
  predicate Hits(letter: Letter, s: TraceState, pos: Point)
  {
    Tracing(letter, s) && DistSq(pos, Target(letter, s)) < Sqr(HitTolerance)
  }

  /** `handleDrawingStart`. When the expected point index is past the end
      of the stroke, the handler reads a coordinate of an undefined target
      and throws before any state is set; the state is then unchanged. */
  function Start(letter: Letter, s: TraceState, pos: Point): (r: TraceState)
    ensures StartAccepted(letter, s, pos) ==> r == s.(drawing := true, live := [pos])
    ensures !StartAccepted(letter, s, pos) ==> r == s
  {
    if s.strokeIndex >= |letter.strokes| then s
    else
      var stroke := letter.strokes[s.strokeIndex];
      if |stroke| == 0 || s.pointIndex >= |stroke| then s
      else if DistSq(pos, stroke[s.pointIndex]) < Sqr(ClickTolerance(s.pointIndex))
      then s.(drawing := true, live := [pos])
      else s
  }

  /** The state after a move at `pos` that reached the target: the segment
      from the previous guide point (at a stroke's first point, from the
      press position) to the target is recorded; after the stroke's last
      point the next stroke begins. */
  function Advance(letter: Letter, s: TraceState, pos: Point): (r: TraceState)
    requires Tracing(letter, s)
    ensures r.segments == s.segments +
      [Segment(if s.pointIndex > 0 then letter.strokes[s.strokeIndex][s.pointIndex - 1]
               else (s.live + [pos])[0], Target(letter, s))]
    ensures s.pointIndex + 1 < |letter.strokes[s.strokeIndex]| ==>
      && r.strokeIndex == s.strokeIndex && r.pointIndex == s.pointIndex + 1
      && r.drawing && r.live == [Target(letter, s)]
    ensures s.pointIndex + 1 == |letter.strokes[s.strokeIndex]| ==>
      && r.strokeIndex == s.strokeIndex + 1 && r.pointIndex == 0
      && !r.drawing && r.live == []
  {
    var stroke := letter.strokes[s.strokeIndex];
    var target := stroke[s.pointIndex];
    var live := s.live + [pos];
    var previous := if s.pointIndex > 0 then stroke[s.pointIndex - 1] else live[0];
    var segments := s.segments + [Segment(previous, target)];
    if s.pointIndex + 1 >= |stroke| then
      TraceState(s.strokeIndex + 1, 0, false, [], segments)
    else
      s.(pointIndex := s.pointIndex + 1, live := [target], segments := segments)
  }

  /** `handleDrawingMove`. The position is appended to the live points
      first; a move while no stroke remains stops there (the handler fails
      reading the missing stroke), and so does a move with no expected
      point left. */
  function Move(letter: Letter, s: TraceState, pos: Point): (r: TraceState)
    ensures !s.drawing ==> r == s
    ensures s.drawing && !HasTarget(letter, s) ==> r == s.(live := s.live + [pos])
    ensures Hits(letter, s, pos) ==> r == Advance(letter, s, pos)
    ensures Tracing(letter, s) && !Hits(letter, s, pos) ==> r == s.(live := s.live + [pos])
  {
    if !s.drawing then s
    else
      var live := s.live + [pos];
      if s.strokeIndex >= |letter.strokes| then s.(live := live)
      else
        var stroke := letter.strokes[s.strokeIndex];
        if s.pointIndex >= |stroke| then s.(live := live)
        else if DistSq(pos, stroke[s.pointIndex]) < Sqr(HitTolerance) then Advance(letter, s, pos)
        else s.(live := live)
  }

  /** `handleDrawingEnd`: a release while drawing drops the live points when
      an expected point remains, and stops drawing. */
  function End(letter: Letter, s: TraceState): (r: TraceState)
    ensures !r.drawing
    ensures r.strokeIndex == s.strokeIndex && r.pointIndex == s.pointIndex && r.segments == s.segments
    ensures r.live == (if s.drawing && HasTarget(letter, s) then [] else s.live)
  {
    if !s.drawing then s
    else if s.strokeIndex < |letter.strokes| && s.pointIndex < |letter.strokes[s.strokeIndex]|
    then s.(drawing := false, live := [])
    else s.(drawing := false)
  }

  // ---------------------------------------------------------------------
  // The invariant the handlers keep
  // ---------------------------------------------------------------------

  /** Indices stay in range and a stroke in progress has a target and a
      live point. */
  predicate Inv(letter: Letter, s: TraceState)
  {
    && s.strokeIndex <= |letter.strokes|
    && (s.strokeIndex < |letter.strokes| ==> s.pointIndex < |letter.strokes[s.strokeIndex]|)
    && (s.drawing ==> s.strokeIndex < |letter.strokes| && |s.live| > 0)
  }

  lemma FreshInv(letter: Letter)
    requires WellFormed(letter)
    ensures Inv(letter, Fresh)
  {
  }

  lemma StartKeepsInv(letter: Letter, s: TraceState, pos: Point)
    requires Inv(letter, s)
    ensures Inv(letter, Start(letter, s, pos))
  {
  }

  lemma MoveKeepsInv(letter: Letter, s: TraceState, pos: Point)
    requires WellFormed(letter) && Inv(letter, s)
    ensures Inv(letter, Move(letter, s, pos))
  {
    if Hits(letter, s, pos) && s.pointIndex + 1 == |letter.strokes[s.strokeIndex]|
       && s.strokeIndex + 1 < |letter.strokes| {
      assert |letter.strokes[s.strokeIndex + 1]| > 0;
    }
  }

  lemma EndKeepsInv(letter: Letter, s: TraceState)
    requires Inv(letter, s)
    ensures Inv(letter, End(letter, s))
  {
  }

  /** A move changes the stroke index by at most one and only appends to
      the completed segments, at most one segment at a time. */
  lemma MoveProgress(letter: Letter, s: TraceState, pos: Point)
    ensures var r := Move(letter, s, pos);
      && (r.strokeIndex == s.strokeIndex || r.strokeIndex == s.strokeIndex + 1)
      && |s.segments| <= |r.segments| <= |s.segments| + 1
      && r.segments[..|s.segments|] == s.segments
  {
    var r := Move(letter, s, pos);
    if Hits(letter, s, pos) {
      assert r.segments[..|s.segments|] == s.segments;
    }
  }

  /** Once every stroke is traced, no event changes the progress: presses
      are ignored, and (by the invariant) nothing is being drawn. */
  lemma FinishedIsFinal(letter: Letter, s: TraceState, pos: Point)
    requires Inv(letter, s) && Finished(letter, s)
    ensures Start(letter, s, pos) == s && Move(letter, s, pos) == s && End(letter, s) == s
  {
  }

  // ---------------------------------------------------------------------
  // Runs of events
  // ---------------------------------------------------------------------

  function Step(letter: Letter, s: TraceState, e: Event): TraceState
  {
    match e
    case Down(p) => Start(letter, s, p)
    case MoveTo(p) => Move(letter, s, p)
    case Up => End(letter, s)
  }

  function Run(letter: Letter, s: TraceState, events: seq<Event>): TraceState
    decreases |events|
  {
    if events == [] then s else Run(letter, Step(letter, s, events[0]), events[1..])
  }

  lemma {:induction false} RunAppend(letter: Letter, s: TraceState, a: seq<Event>, b: seq<Event>)
    ensures Run(letter, s, a + b) == Run(letter, Run(letter, s, a), b)
    decreases |a|
  {
    if a != [] {
      assert (a + b)[0] == a[0];
      assert (a + b)[1..] == a[1..] + b;
      RunAppend(letter, Step(letter, s, a[0]), a[1..], b);
    } else {
      assert a + b == b;
    }
  }

  /** The handlers keep the invariant over any run. */
  lemma {:induction false} RunKeepsInv(letter: Letter, s: TraceState, events: seq<Event>)
    requires WellFormed(letter) && Inv(letter, s)
    ensures Inv(letter, Run(letter, s, events))
    decreases |events|
  {
    if events != [] {
      match events[0] {
        case Down(p) => StartKeepsInv(letter, s, p);
        case MoveTo(p) => MoveKeepsInv(letter, s, p);
        case Up => EndKeepsInv(letter, s);
      }
      RunKeepsInv(letter, Step(letter, s, events[0]), events[1..]);
    }
  }

  /** Mid-stroke, with guide point i - 1 just reached: moving through the
      remaining guide points finishes the stroke. */
  lemma {:induction false} MovesFinishStroke(letter: Letter, k: nat, i: nat, segments: seq<Segment>)
    requires k < |letter.strokes| && 0 < i < |letter.strokes[k]|
    ensures var stroke := letter.strokes[k];
      Run(letter, TraceState(k, i, true, [stroke[i - 1]], segments), MovesFrom(stroke, i))
      == TraceState(k + 1, 0, false, [], segments + SegmentsFrom(stroke, i))
    decreases |letter.strokes[k]| - i
  {
    var stroke := letter.strokes[k];
    var s := TraceState(k, i, true, [stroke[i - 1]], segments);
    assert Hits(letter, s, stroke[i]);
    var added := [Segment(stroke[i - 1], stroke[i])];
    if i + 1 == |stroke| {
      assert MovesFrom(stroke, i + 1) == [];
      assert SegmentsFrom(stroke, i) == added;
    } else {
      assert Move(letter, s, stroke[i]) == TraceState(k, i + 1, true, [stroke[i]], segments + added);
      MovesFinishStroke(letter, k, i + 1, segments + added);
      assert SegmentsFrom(stroke, i) == added + SegmentsFrom(stroke, i + 1);
      assert segments + added + SegmentsFrom(stroke, i + 1) == segments + SegmentsFrom(stroke, i);
    }
  }

  /** Tracing a stroke along its guide points finishes it and records its
      segments. */
  lemma StrokePathFinishes(letter: Letter, k: nat, segments: seq<Segment>)
    requires k < |letter.strokes| && |letter.strokes[k]| > 0
    ensures Run(letter, TraceState(k, 0, false, [], segments), StrokePath(letter.strokes[k]))
      == TraceState(k + 1, 0, false, [], segments + StrokeSegments(letter.strokes[k]))
  {
    var stroke := letter.strokes[k];
    var s0 := TraceState(k, 0, false, [], segments);
    var s1 := Start(letter, s0, stroke[0]);
    assert s1 == TraceState(k, 0, true, [stroke[0]], segments);
    assert Hits(letter, s1, stroke[0]);
    var s2 := Move(letter, s1, stroke[0]);
    var first := [Segment(stroke[0], stroke[0])];
    assert s2.segments == segments + first;
    RunAppend(letter, s0, [Down(stroke[0])] + MovesFrom(stroke, 0), [Up]);
    RunAppend(letter, s0, [Down(stroke[0])], MovesFrom(stroke, 0));
    assert Run(letter, s0, [Down(stroke[0])]) == s1;
    RunAppend(letter, s1, [MoveTo(stroke[0])], MovesFrom(stroke, 1));
    assert MovesFrom(stroke, 0) == [MoveTo(stroke[0])] + MovesFrom(stroke, 1);
    assert Run(letter, s1, [MoveTo(stroke[0])]) == s2;
    if |stroke| == 1 {
      assert MovesFrom(stroke, 1) == [];
    } else {
      assert s2 == TraceState(k, 1, true, [stroke[0]], segments + first);
      MovesFinishStroke(letter, k, 1, segments + first);
      assert segments + first + SegmentsFrom(stroke, 1) == segments + StrokeSegments(stroke);
    }
    var s3 := Run(letter, s0, [Down(stroke[0])] + MovesFrom(stroke, 0));
    assert Run(letter, s3, [Up]) == End(letter, s3);
  }

  lemma {:induction false} LetterPathFinishes(letter: Letter, k: nat, segments: seq<Segment>)
    requires WellFormed(letter) && k < |letter.strokes|
    ensures Run(letter, TraceState(k, 0, false, [], segments), LetterPath(letter.strokes[k..]))
      == TraceState(|letter.strokes|, 0, false, [], segments + AllSegments(letter.strokes[k..]))
    decreases |letter.strokes| - k
  {
    var strokes := letter.strokes[k..];
    assert strokes[0] == letter.strokes[k];
    assert strokes[1..] == letter.strokes[k + 1..];
    var here := StrokeSegments(letter.strokes[k]);
    RunAppend(letter, TraceState(k, 0, false, [], segments), StrokePath(letter.strokes[k]), LetterPath(strokes[1..]));
    StrokePathFinishes(letter, k, segments);
    if k + 1 == |letter.strokes| {
      assert strokes[1..] == [];
    } else {
      LetterPathFinishes(letter, k + 1, segments + here);
      assert segments + here + AllSegments(strokes[1..]) == segments + AllSegments(strokes);
    }
  }

  /** Pressing, moving through and releasing on every guide point of a
      well-formed letter, stroke by stroke, finishes it, recording one
      segment per guide point: the same segments as the guided tracer. */
  lemma GuidePathFinishesLetter(letter: Letter)
    requires WellFormed(letter)
    ensures var r := Run(letter, Fresh, LetterPath(letter.strokes));
      && Finished(letter, r) && !r.drawing
      && r.segments == AllSegments(letter.strokes)
      && |r.segments| == TotalPoints(letter.strokes)
  {
    LetterPathFinishes(letter, 0, []);
    assert letter.strokes[0..] == letter.strokes;
    AllSegmentsLength(letter.strokes);
  }

  // ---------------------------------------------------------------------
  // The letter "L" of this tracer's catalog
  // ---------------------------------------------------------------------

  /** Two strokes of two guide points each. */
  const LetterL: Letter := Letter("L", [
    [Point(100.0, 50.0), Point(100.0, 350.0)],
    [Point(100.0, 350.0), Point(300.0, 350.0)]])

  lemma LetterLFirstStroke()
    ensures |LetterL.strokes| == 2 && |LetterL.strokes[0]| == 2
    ensures LetterL.strokes[0][0] == Point(100.0, 50.0)
    ensures LetterL.strokes[0][1] == Point(100.0, 350.0)
  {
  }

  /** Pressing on the top of the "L" and moving straight to its corner in
      one move: the target is still the first guide point, 300 units away,
      so the move is only appended to the live points; releasing then
      drops them and nothing is recorded. */
  lemma DirectMoveToCornerMisses(q: Point)
    requires q == Point(100.0, 350.0)
    ensures var p := Point(100.0, 50.0);
      && Move(LetterL, Start(LetterL, Fresh, p), q) == TraceState(0, 0, true, [p, q], [])
      && End(LetterL, Move(LetterL, Start(LetterL, Fresh, p), q)) == Fresh
  {
    var p := Point(100.0, 50.0);
    LetterLFirstStroke();
    var s1 := Start(LetterL, Fresh, p);
    assert s1 == TraceState(0, 0, true, [p], []);
    assert DistSq(q, p) == 90000.0;
    assert !Hits(LetterL, s1, q);
    assert s1.live + [q] == [p, q];
  }

  // ---------------------------------------------------------------------
  // The component
  // ---------------------------------------------------------------------

  class Tracer {
    const catalog: seq<Letter>
    var alphabetIndex: nat
    var letter: Letter
    var strokeIndex: nat
    var pointIndex: nat
    var drawing: bool
    var live: seq<Point>
    var segments: seq<Segment>

    function State(): TraceState
      reads this
    {
      TraceState(strokeIndex, pointIndex, drawing, live, segments)
    }

    ghost predicate Valid()
      reads this
    {
      WellFormedCatalog(catalog) && alphabetIndex < |catalog| && letter == catalog[alphabetIndex]
    }

    /** The component once mounted, showing the first letter. */
    constructor (catalog: seq<Letter>)
      requires WellFormedCatalog(catalog)
      ensures Valid() && Inv(letter, State()) && this.catalog == catalog
      ensures alphabetIndex == 0 && letter == catalog[0] && State() == Fresh
    {
      this.catalog := catalog;
      alphabetIndex := 0;
      letter := catalog[0];
      strokeIndex, pointIndex, drawing := 0, 0, false;
      live, segments := [], [];
    }

    /** `loadLetter(index)`: out-of-range indices are ignored. */
    method LoadLetter(index: int)
      requires Valid()
      modifies this
      ensures Valid()
      ensures !(0 <= index < |catalog|) ==> unchanged(this)
      ensures 0 <= index < |catalog| ==>
        alphabetIndex == index && letter == catalog[index] && State() == Fresh && Inv(letter, State())
    {
      if index < 0 || index >= |catalog| {
        return;
      }
      alphabetIndex := index;
      letter := catalog[index];
      strokeIndex := 0;
      pointIndex := 0;
      live := [];
      segments := [];
      drawing := false;
    }

    method HandleDrawingStart(pos: Point)
      requires Valid()
      modifies this`drawing, this`live
      ensures Valid()
      ensures State() == Start(letter, old(State()), pos)
      ensures Inv(letter, old(State())) ==> Inv(letter, State())
    {
      if Inv(letter, State()) {
        StartKeepsInv(letter, State(), pos);
      }
      if strokeIndex >= |letter.strokes| {
        return;
      }
      var stroke := letter.strokes[strokeIndex];
      if |stroke| == 0 || pointIndex >= |stroke| {
        return;
      }
      var target := stroke[pointIndex];
      var tolerance := if pointIndex == 0 then StartTolerance else HitTolerance;
      if DistSq(pos, target) < Sqr(tolerance) {
        drawing := true;
        live := [pos];
      }
    }

    method HandleDrawingMove(pos: Point)
      requires Valid()
      modifies this`strokeIndex, this`pointIndex, this`drawing, this`live, this`segments
      ensures Valid()
      ensures State() == Move(letter, old(State()), pos)
      ensures Inv(letter, old(State())) ==> Inv(letter, State())
    {
      if Inv(letter, State()) {
        MoveKeepsInv(letter, State(), pos);
      }
      if !drawing {
        return;
      }
      live := live + [pos];
      if strokeIndex >= |letter.strokes| {
        return;
      }
      var stroke := letter.strokes[strokeIndex];
      if pointIndex >= |stroke| {
        return;
      }
      var target := stroke[pointIndex];
      if DistSq(pos, target) < Sqr(HitTolerance) {
        var previous := if pointIndex > 0 then stroke[pointIndex - 1] else live[0];
        segments := segments + [Segment(previous, target)];
        live := [target];
        pointIndex := pointIndex + 1;
        if pointIndex >= |stroke| {
          live := [];
          drawing := false;
          strokeIndex := strokeIndex + 1;
          pointIndex := 0;
        }
      }
    }

    method HandleDrawingEnd()
      requires Valid()
      modifies this`drawing, this`live
      ensures Valid()
      ensures State() == End(letter, old(State()))
      ensures Inv(letter, old(State())) ==> Inv(letter, State())
    {
      if !drawing {
        return;
      }
      if strokeIndex < |letter.strokes| {
        var stroke := letter.strokes[strokeIndex];
        if pointIndex < |stroke| {
          live := [];
        }
      }
      drawing := false;
    }

    /** Every navigation reloads the letter, resetting its progress. */
    method HandleNextLetter()
      requires Valid()
      modifies this
      ensures Valid()
      ensures alphabetIndex == NextIndex(old(alphabetIndex), |catalog|)
      ensures letter == catalog[alphabetIndex] && State() == Fresh
    {
      LoadLetter(NextIndex(alphabetIndex, |catalog|));
    }

    method HandlePrevLetter()
      requires Valid()
      modifies this
      ensures Valid()
      ensures alphabetIndex == PrevIndex(old(alphabetIndex), |catalog|)
      ensures letter == catalog[alphabetIndex] && State() == Fresh
    {
      LoadLetter(PrevIndex(alphabetIndex, |catalog|));
    }

    method HandleResetLetter()
      requires Valid()
      modifies this
      ensures Valid()
      ensures alphabetIndex == old(alphabetIndex) && letter == old(letter) && State() == Fresh
    {
      LoadLetter(alphabetIndex);
    }

    /** Selecting a character not in the catalog changes nothing; selecting
        any other, including the letter shown, reloads it. */
    method HandleSelectLetter(ch: string)
      requires Valid()
      modifies this
      ensures Valid()
      ensures FindIndex(catalog, ch) == -1 ==> unchanged(this)
      ensures FindIndex(catalog, ch) != -1 ==>
        alphabetIndex == FindIndex(catalog, ch) && letter.character == ch && State() == Fresh
    {
      var index := FindIndex(catalog, ch);
      if index != -1 {
        LoadLetter(index);
      }
    }

    /** The delayed callback scheduled when the last stroke is finished: it
        loads the letter after the one shown when it was scheduled. */
    method CompletionTimerFires(scheduledAt: nat)
      requires Valid() && scheduledAt < |catalog|
      modifies this
      ensures Valid()
      ensures alphabetIndex == NextIndex(scheduledAt, |catalog|)
      ensures letter == catalog[alphabetIndex] && State() == Fresh
    {
      LoadLetter(NextIndex(scheduledAt, |catalog|));
    }
  }
}
