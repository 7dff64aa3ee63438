/** How the two guide-point tracers relate: forgetting the completed flag,
    the guided tracer (app/test2/page.tsx) makes exactly the transitions
    of the simpler one (app/test3/page.tsx), except that it rejects stray
    moves and keeps the live points of a release made on the target. */
module Engines {
  import opened Geometry
  import opened Letters
  import G = GuidedTracer
  import S = SimpleTracer

  /** The guided tracer's state without its completed flag. */
  function Forget(g: G.TraceState): S.TraceState
  {
    S.TraceState(g.strokeIndex, g.pointIndex, g.drawing, g.live, g.segments)
  }

  /** Both tracers accept the same presses. */
  lemma StartAgrees(letter: Letter, g: G.TraceState, pos: Point)
    requires !g.completed
    ensures Forget(G.Start(letter, g, pos)) == S.Start(letter, Forget(g), pos)
  {
    if G.HasTarget(letter, g) {
      assert G.Target(letter, g) == S.Target(letter, Forget(g));
      assert G.ClickTolerance(g.pointIndex) == S.ClickTolerance(g.pointIndex);
    }
  }

  /** A move that is not a stray has the same effect in both tracers. */
  lemma MoveAgreesUnlessStray(letter: Letter, g: G.TraceState, pos: Point)
    requires G.Inv(letter, g) && !G.Strays(letter, g, pos)
    ensures Forget(G.Move(letter, g, pos)) == S.Move(letter, Forget(g), pos)
  {
    var t := Forget(g);
    if G.Tracing(letter, g) {
      assert G.Target(letter, g) == S.Target(letter, t);
      if G.Hits(letter, g, pos) {
        assert S.Hits(letter, t, pos);
        assert Forget(G.Advance(letter, g, pos)) == S.Advance(letter, t, pos);
      } else {
        assert !S.Hits(letter, t, pos);
      }
    }
  }

  /** On a stray the guided tracer stops drawing and drops the live points,
      while the simpler tracer keeps drawing and only appends the move. */
  lemma StrayDiverges(letter: Letter, g: G.TraceState, pos: Point)
    requires G.Strays(letter, g, pos)
    ensures !G.Move(letter, g, pos).drawing && G.Move(letter, g, pos).live == []
    ensures S.Move(letter, Forget(g), pos) == Forget(g).(live := g.live + [pos])
  {
    var t := Forget(g);
    SegmentDistAtMostEndpoints(pos, G.StrayReference(letter, g), G.Target(letter, g));
    assert G.Target(letter, g) == S.Target(letter, t);
    assert !S.Hits(letter, t, pos);
  }

  /** A release away from the target has the same effect in both tracers. */
  lemma EndAgreesAwayFromTarget(letter: Letter, g: G.TraceState)
    requires G.Inv(letter, g) && !g.completed
    requires g.drawing && G.HasTarget(letter, g) && |g.live| > 0 ==>
      DistSq(g.live[|g.live| - 1], G.Target(letter, g)) >= Sqr(G.HitTolerance)
    ensures Forget(G.End(letter, g)) == S.End(letter, Forget(g))
  {
  }

  /** A release on the target keeps the live points in the guided tracer
      and drops them in the simpler one. */
  lemma EndDivergesOnTarget(letter: Letter, g: G.TraceState)
    requires G.Inv(letter, g) && !g.completed && g.drawing
    requires DistSq(g.live[|g.live| - 1], G.Target(letter, g)) < Sqr(G.HitTolerance)
    ensures G.End(letter, g).live == g.live && g.live != []
    ensures S.End(letter, Forget(g)).live == []
  {
  }
}
