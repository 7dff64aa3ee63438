/** Sequences of pointer events fed to the guided tracer: tracing every
    guide point of a letter in order completes it, and the completed
    segments are then exactly the guide path's segments. */
module GuidedPaths {
  import opened Geometry
  import opened Letters
  import opened GuidedTracer

  /** The handler an event triggers. */
  function Step(letter: Letter, s: TraceState, e: Event): (r: TraceState)
    ensures e.Up? ==> !r.drawing
  {
    match e
    case Down(p) => Start(letter, s, p)
    case MoveTo(p) => Move(letter, s, p)
    case Up => End(letter, s)
  }

  /** The state after handling `events` in order. */
  function Run(letter: Letter, s: TraceState, events: seq<Event>): TraceState
    decreases |events|
  {
    if events == [] then s else Run(letter, Step(letter, s, events[0]), events[1..])
  }

  lemma {:induction false} RunAppend(letter: Letter, s: TraceState, a: seq<Event>, b: seq<Event>)
    ensures Run(letter, s, a + b) == Run(letter, Run(letter, s, a), b)
    decreases |a|
  {
    if a != [] {
      assert (a + b)[0] == a[0];
      assert (a + b)[1..] == a[1..] + b;
      RunAppend(letter, Step(letter, s, a[0]), a[1..], b);
    } else {
      assert a + b == b;
    }
  }

  /** Handling one more event after a run. */
  lemma RunSnoc(letter: Letter, s: TraceState, events: seq<Event>, e: Event)
    ensures Run(letter, s, events + [e]) == Step(letter, Run(letter, s, events), e)
  {
    RunAppend(letter, s, events, [e]);
  }

  /** The handlers keep the invariant over any run. */
  lemma {:induction false} RunKeepsInv(letter: Letter, s: TraceState, events: seq<Event>)
    requires WellFormed(letter) && Inv(letter, s)
    ensures Inv(letter, Run(letter, s, events))
    decreases |events|
  {
    if events != [] {
      match events[0] {
        case Down(p) => StartKeepsInv(letter, s, p);
        case MoveTo(p) => MoveKeepsInv(letter, s, p);
        case Up => EndKeepsInv(letter, s);
      }
      RunKeepsInv(letter, Step(letter, s, events[0]), events[1..]);
    }
  }

  // ---------------------------------------------------------------------
  // The guide path of a letter
  // ---------------------------------------------------------------------

  /** The state in which stroke `k` is about to be pressed. */
  function Ready(k: nat, segments: seq<Segment>): TraceState
  {
    TraceState(k, 0, false, [], segments, false)
  }

  /** The state once stroke `k` is finished. */
  function Finished(letter: Letter, k: nat, segments: seq<Segment>): TraceState
  {
    TraceState(k + 1, 0, false, [], segments, k + 1 == |letter.strokes|)
  }

  /** Mid-stroke, with guide point i - 1 just reached: moving through the
      remaining guide points finishes the stroke. */
  lemma {:induction false} MovesFinishStroke(letter: Letter, k: nat, i: nat, segments: seq<Segment>)
    requires k < |letter.strokes| && 0 < i < |letter.strokes[k]|
    ensures var stroke := letter.strokes[k];
      Run(letter, TraceState(k, i, true, [stroke[i - 1]], segments, false), MovesFrom(stroke, i))
      == Finished(letter, k, segments + SegmentsFrom(stroke, i))
    decreases |letter.strokes[k]| - i
  {
    var stroke := letter.strokes[k];
    var s := TraceState(k, i, true, [stroke[i - 1]], segments, false);
    SegmentDistAtEndpoint(stroke[i - 1], stroke[i]);
    assert Hits(letter, s, stroke[i]);
    MoveHit(letter, s, stroke[i]);
    var s' := Move(letter, s, stroke[i]);
    var added := [Segment(stroke[i - 1], stroke[i])];
    assert s'.segments == segments + added;
    if i + 1 == |stroke| {
      assert MovesFrom(stroke, i + 1) == [];
      assert SegmentsFrom(stroke, i) == added;
    } else {
      assert s' == TraceState(k, i + 1, true, [stroke[i]], segments + added, false);
      MovesFinishStroke(letter, k, i + 1, segments + added);
      assert SegmentsFrom(stroke, i) == added + SegmentsFrom(stroke, i + 1);
      assert segments + added + SegmentsFrom(stroke, i + 1) == segments + SegmentsFrom(stroke, i);
    }
  }

  /** Tracing a stroke along its guide points finishes it and records its
      segments. */
  lemma StrokePathFinishes(letter: Letter, k: nat, segments: seq<Segment>)
    requires k < |letter.strokes| && |letter.strokes[k]| > 0
    ensures Run(letter, Ready(k, segments), StrokePath(letter.strokes[k]))
      == Finished(letter, k, segments + StrokeSegments(letter.strokes[k]))
  {
    var stroke := letter.strokes[k];
    var s0 := Ready(k, segments);
    var s1 := Start(letter, s0, stroke[0]);
    assert s1 == TraceState(k, 0, true, [stroke[0]], segments, false);
    assert Hits(letter, s1, stroke[0]);
    MoveHit(letter, s1, stroke[0]);
    var s2 := Move(letter, s1, stroke[0]);
    var first := [Segment(stroke[0], stroke[0])];
    assert s2.segments == segments + first;
    RunAppend(letter, s0, [Down(stroke[0])] + MovesFrom(stroke, 0), [Up]);
    RunAppend(letter, s0, [Down(stroke[0])], MovesFrom(stroke, 0));
    assert Run(letter, s0, [Down(stroke[0])]) == s1;
    RunAppend(letter, s1, [MoveTo(stroke[0])], MovesFrom(stroke, 1));
    assert MovesFrom(stroke, 0) == [MoveTo(stroke[0])] + MovesFrom(stroke, 1);
    assert Run(letter, s1, [MoveTo(stroke[0])]) == s2;
    if |stroke| == 1 {
      assert s2 == Finished(letter, k, segments + StrokeSegments(stroke));
      assert MovesFrom(stroke, 1) == [];
    } else {
      assert s2 == TraceState(k, 1, true, [stroke[0]], segments + first, false);
      MovesFinishStroke(letter, k, 1, segments + first);
      assert segments + first + SegmentsFrom(stroke, 1) == segments + StrokeSegments(stroke);
    }
    var s3 := Run(letter, s0, [Down(stroke[0])] + MovesFrom(stroke, 0));
    assert Run(letter, s3, [Up]) == End(letter, s3);
  }

  /** Tracing strokes `k` onwards along their guide points finishes the
      letter. */
  lemma {:induction false} LetterPathFinishes(letter: Letter, k: nat, segments: seq<Segment>)
    requires WellFormed(letter) && k < |letter.strokes|
    ensures Run(letter, Ready(k, segments), LetterPath(letter.strokes[k..]))
      == TraceState(|letter.strokes|, 0, false, [],
                    segments + AllSegments(letter.strokes[k..]), true)
    decreases |letter.strokes| - k
  {
    var strokes := letter.strokes[k..];
    assert strokes[0] == letter.strokes[k];
    assert strokes[1..] == letter.strokes[k + 1..];
    var here := StrokeSegments(letter.strokes[k]);
    RunAppend(letter, Ready(k, segments), StrokePath(letter.strokes[k]), LetterPath(strokes[1..]));
    StrokePathFinishes(letter, k, segments);
    if k + 1 == |letter.strokes| {
      assert strokes[1..] == [];
    } else {
      assert Finished(letter, k, segments + here) == Ready(k + 1, segments + here);
      LetterPathFinishes(letter, k + 1, segments + here);
      assert segments + here + AllSegments(strokes[1..]) == segments + AllSegments(strokes);
    }
  }

  /** Pressing, moving through and releasing on every guide point of a
      well-formed letter, stroke by stroke, completes it; the completed
      segments are those of the guide path, one per guide point. */
  lemma GuidePathCompletesLetter(letter: Letter)
    requires WellFormed(letter)
    ensures var r := Run(letter, Fresh, LetterPath(letter.strokes));
      && r.completed && !r.drawing
      && r.strokeIndex == |letter.strokes|
      && r.segments == AllSegments(letter.strokes)
      && |r.segments| == TotalPoints(letter.strokes)
  {
    LetterPathFinishes(letter, 0, []);
    assert letter.strokes[0..] == letter.strokes;
    assert Ready(0, []) == Fresh;
    AllSegmentsLength(letter.strokes);
  }

  // ---------------------------------------------------------------------
  // The letter "L" of the catalog
  // ---------------------------------------------------------------------

  /** The catalog's "L": a vertical stroke of six guide points, then a
      horizontal stroke of five starting where the first ends. */
  const LetterL: Letter := Letter("L", [
    [Point(100.0, 50.0), Point(100.0, 110.0), Point(100.0, 170.0),
     Point(100.0, 230.0), Point(100.0, 290.0), Point(100.0, 350.0)],
    [Point(100.0, 350.0), Point(150.0, 350.0), Point(200.0, 350.0),
     Point(250.0, 350.0), Point(300.0, 350.0)]])

  lemma LetterLWellFormed()
    ensures WellFormed(LetterL) && TotalPoints(LetterL.strokes) == 11
  {
    assert LetterL.strokes[1..][1..] == [];
  }

  /** The first two guide points of the "L". */
  lemma LetterLFirstPoints()
    ensures |LetterL.strokes| == 2 && |LetterL.strokes[0]| == 6
    ensures LetterL.strokes[0][0] == Point(100.0, 50.0)
    ensures LetterL.strokes[0][1] == Point(100.0, 110.0)
  {
  }

  /** A press beyond the start tolerance of the first guide point is ignored. */
  lemma PressFarFromStartIgnored()
    ensures Start(LetterL, Fresh, Point(100.0, 100.0)) == Fresh
  {
    LetterLFirstPoints();
    assert DistSq(Point(100.0, 100.0), Point(100.0, 50.0)) == 2500.0;
  }

  /** Distance to the segment between the first two guide points of the
      "L", from a point level with its middle. */
  lemma MidSegmentDistance(q: Point)
    requires q.y == 80.0
    ensures SegmentDistSq(q, Point(100.0, 50.0), Point(100.0, 110.0)) == Sqr(q.x - 100.0)
  {
    var p0, p1 := Point(100.0, 50.0), Point(100.0, 110.0);
    assert DistSq(p0, p1) == 3600.0;
    assert Dot(q, p0, p1) == 1800.0;
    assert Clamp01(1800.0 / 3600.0) == 0.5;
    assert Lerp(p0, p1, 0.5) == Point(100.0, 80.0);
  }

  /** Pressing on the first guide point and moving onto it: the degenerate
      first segment is recorded and the second guide point is the target. */
  const AfterFirstPoint: TraceState :=
    TraceState(0, 1, true, [Point(100.0, 50.0)], [Segment(Point(100.0, 50.0), Point(100.0, 50.0))], false)

  lemma FirstGuidePointReached()
    ensures Move(LetterL, Start(LetterL, Fresh, Point(100.0, 50.0)), Point(100.0, 50.0)) == AfterFirstPoint
  {
    var p0 := Point(100.0, 50.0);
    LetterLFirstPoints();
    var s1 := Start(LetterL, Fresh, p0);
    assert s1 == TraceState(0, 0, true, [p0], [], false);
    MoveHit(LetterL, s1, p0);
  }

  /** A move level with the middle of the segment towards the second guide
      point, more than 30 units to its side, is a stray: drawing stops and
      the live points are dropped, while the progress already made is
      kept. */
  lemma SidewaysMoveIsStray(q: Point)
    requires q.y == 80.0 && Sqr(q.x - 100.0) > 900.0
    ensures Move(LetterL, AfterFirstPoint, q) == AfterFirstPoint.(drawing := false, live := [])
  {
    LetterLFirstPoints();
    MidSegmentDistance(q);
    assert Tracing(LetterL, AfterFirstPoint) && StrayReference(LetterL, AfterFirstPoint) == Point(100.0, 50.0);
    assert Strays(LetterL, AfterFirstPoint, q);
  }

  /** A move level with the middle of that segment and within 30 units of
      it is not a stray; it is at least 30 units from the second guide
      point, so not a hit either, and only extends the live points. */
  lemma DriftWithinToleranceKept(q: Point)
    requires q.y == 80.0 && Sqr(q.x - 100.0) <= 900.0
    ensures Move(LetterL, AfterFirstPoint, q) == AfterFirstPoint.(live := [Point(100.0, 50.0), q])
  {
    var s2, p1 := AfterFirstPoint, Point(100.0, 110.0);
    LetterLFirstPoints();
    MidSegmentDistance(q);
    assert Tracing(LetterL, s2) && StrayReference(LetterL, s2) == Point(100.0, 50.0);
    assert !Strays(LetterL, s2, q);
    assert Target(LetterL, s2) == p1;
    assert DistSq(q, p1) == Sqr(q.x - 100.0) + 900.0;
    assert !Hits(LetterL, s2, q);
    assert s2.live + [q] == [Point(100.0, 50.0), q];
  }

  /** A single move from the press straight to the end of the vertical
      stroke is a stray: at the stroke's first point the target is the
      first guide point, and the move is 300 units away from it. */
  lemma DirectJumpToStrokeEndIsStray()
    ensures Move(LetterL, Start(LetterL, Fresh, Point(100.0, 50.0)), Point(100.0, 350.0)) == Fresh
  {
    var p0 := Point(100.0, 50.0);
    LetterLFirstPoints();
    var s1 := Start(LetterL, Fresh, p0);
    assert s1 == TraceState(0, 0, true, [p0], [], false);
    assert SegmentDistSq(Point(100.0, 350.0), p0, p0) == 90000.0;
  }

  /** Tracing the "L" guide point by guide point completes it with eleven
      segments. */
  lemma TracingLetterLCompletesIt()
    ensures var r := Run(LetterL, Fresh, LetterPath(LetterL.strokes));
      r.completed && |r.segments| == 11
  {
    LetterLWellFormed();
    GuidePathCompletesLetter(LetterL);
  }
}
