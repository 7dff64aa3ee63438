# Letter tracing: a verified model

This project models the core of three letter-tracing exercises from a
React application.

- **Guided tracer** (`app/test2/page.tsx`). A letter is a list of strokes, and
  each stroke is a list of guide points. The child presses on the next guide
  point and drags through the points in order. A move that strays more than 30
  units from the segment leading to the next point ends the stroke attempt. A
  move within 28 units of the next point reaches it, records a segment and
  advances. After the last point of the last stroke, the letter is completed.
- **Simpler tracer** (`app/test3/page.tsx`). It progresses point by point the
  same way, but it never rejects a move. It has no completed flag: the letter
  is finished once the stroke index passes the last stroke.
- **Coverage tracer** (`app/test1/page.tsx`). The glyph is approximated by a
  rectangle of pixel cells. Every pointer position while drawing stamps a disk
  of radius 5 into the set of traced cells. Completion is the traced share of
  the rectangle, capped at 100. A celebration is raised above 40%.

## Files

- `geometry.dfy` (module `Geometry`): squared distances and the clamped
  point-to-segment distance. Every tolerance test compares a distance with a
  positive constant, and `sqrt(d) < tol` holds exactly when `d < tol * tol`.
  So the model compares squared distances and needs no square root.
- `letters.dfy` (module `Letters`):
  - letters, segments and catalog navigation;
  - pointer events;
  - the guide path of a letter: press on the first guide point of each stroke, move through its points, release.
- `guided_tracer.dfy` (module `GuidedTracer`):
  - the guided tracer's handlers as pure transitions `Start`, `Move` and `End` on a `TraceState`;
  - the invariant those handlers keep;
  - the class `Tracer`, whose fields are the component's state and whose methods update them step by step. Each method is proved to produce the state the pure transition specifies.
- `guided_paths.dfy` (module `GuidedPaths`):
  - runs of events through the guided tracer;
  - the theorem that tracing the guide path completes any well-formed letter;
  - scenarios on the catalog's letter "L".
- `simple_tracer.dfy` (module `SimpleTracer`): the same for the simpler tracer.
- `engines.dfy` (module `Engines`): how the two tracers relate. With the
  completed flag set aside, and in every state the handlers reach (the
  guided tracer's invariant) before the letter is completed, they agree on
  every press, on every move that is not a stray, and on every release away
  from the target.
- `coverage.dfy` (module `Coverage`): the coverage tracer as the class
  `CoverageTracer`. Its loops build the traceable rectangle, stamp disks and
  count hits.

## Model

| member | source | states |
|---|---|---|
| Geometry.DistSq | app/test2/page.tsx:104-105 | the squared distance is non-negative and zero from a point to itself |
| Geometry.DistSqZero | app/test2/page.tsx:105 | a squared distance of zero means the two points are equal |
| Geometry.DistSqSymmetric | app/test3/page.tsx:305-308 | the distance does not depend on the order of the points |
| Geometry.Clamp01 | app/test2/page.tsx:110 | the projection parameter is clamped into [0, 1], and left unchanged when it is already there |
| Geometry.SegmentDistSq | app/test2/page.tsx:106-113 | the squared distance to a degenerate segment (v, v) is the squared distance to v |
| Geometry.LerpDistSq | app/test2/page.tsx:111-112 | the squared distance to the point at parameter t is the quadratic d0 - 2t·a + t²·l2 |
| Geometry.ClampedQuadraticBound | app/test2/page.tsx:109-112 | at the clamped minimiser, that quadratic is at most its values at t = 0 and t = 1 |
| Geometry.SegmentDistAtMostEndpoints | app/test2/page.tsx:106-113 | the distance to the segment never exceeds the distance to either endpoint |
| Geometry.SegmentDistAtEndpoint | app/test2/page.tsx:106-113 | the end point of a segment is at distance 0 from it |
| Letters.FindIndex | app/test2/page.tsx:459 | returns the first index holding the character, or -1 exactly when no letter has it |
| Letters.NextIndex | app/test2/page.tsx:449-451 | the next index is in range: index + 1, or wraps from the last to 0 |
| Letters.PrevIndex | app/test2/page.tsx:452-454 | the previous index is in range: index - 1, or wraps from 0 to the last |
| Letters.PrevNextInverse | app/test3/page.tsx:407-414 | previous and next undo each other |
| Letters.SegmentsFrom | app/test2/page.tsx:404 | a run of guide points from index i records one segment per remaining point |
| Letters.StrokeSegments | app/test2/page.tsx:401-404 | a traced stroke of k guide points records k segments |
| Letters.AllSegmentsLength | app/test2/page.tsx:401-404 | the guide path's segments number as many as the letter's guide points |
| GuidedTracer.ClickTolerance | app/test2/page.tsx:368 | the press tolerance is max(40, 12) = 40 at a stroke's first point and 28 elsewhere |
| GuidedTracer.HitIsNeverStray | app/test2/page.tsx:385-399 | a move within the hit tolerance is never beyond the stray tolerance, so stray rejection never pre-empts a hit |
| GuidedTracer.Start | app/test2/page.tsx:358-373 | nothing changes when the letter is completed, no stroke or point remains, or the press is not within the tolerance of the target; otherwise drawing starts with live = [pos]; indices, segments and the flag never change |
| GuidedTracer.Advance | app/test2/page.tsx:399-417 | a hit appends exactly one segment from the start point to the target; it then either moves to the next point with live = [target], or moves to the next stroke with point 0, live cleared and drawing stopped, setting the completed flag exactly after the last stroke |
| GuidedTracer.Move | app/test2/page.tsx:375-430 | no change when not drawing or completed; drawing stops when no target exists; a stray stops drawing and clears live with nothing else changed; a hit that is not a stray advances; any other move appends pos to live |
| GuidedTracer.MoveHit | app/test2/page.tsx:385-417 | every move within the hit tolerance advances |
| GuidedTracer.MoveProgress | app/test2/page.tsx:404-417 | a move raises the stroke index by at most one and appends at most one segment; the completed flag is set exactly when the last stroke is finished, and a completed state never changes |
| GuidedTracer.End | app/test2/page.tsx:432-446 | drawing stops; indices, segments and the flag are unchanged; live is cleared exactly when the stroke is in progress and its last point is at least 28 from the target; not drawing means no change |
| GuidedTracer.FreshInv | app/test2/page.tsx:312-325 | the loaded state satisfies the invariant |
| GuidedTracer.StartKeepsInv | app/test2/page.tsx:358-373 | a press keeps the invariant: indices in range, completed only after the last stroke, drawing only with a target and a live point |
| GuidedTracer.MoveKeepsInv | app/test2/page.tsx:375-430 | a move keeps the invariant on a well-formed letter |
| GuidedTracer.EndKeepsInv | app/test2/page.tsx:432-446 | a release keeps the invariant |
| GuidedTracer.EndIdempotent | app/test2/page.tsx:432-446 | releasing twice is the same as releasing once |
| GuidedTracer.Tracer.constructor | app/test2/page.tsx:327-334 | once mounted, the component shows letter 0 in the fresh state |
| GuidedTracer.Tracer.LoadLetter | app/test2/page.tsx:312-325 | an out-of-range index changes nothing; otherwise the letter is installed with stroke 0, point 0, no segments, no live points, not drawing, not completed, and the invariant holds |
| GuidedTracer.Tracer.ChangeAlphabetIndex | app/test2/page.tsx:327-334 | the letter is reloaded only when the index changes |
| GuidedTracer.Tracer.HandleDrawingStart | app/test2/page.tsx:358-373 | the new state is `Start` of the old one, and the invariant is kept |
| GuidedTracer.Tracer.HandleDrawingMove | app/test2/page.tsx:375-430 | the new state is `Move` of the old one, and the invariant is kept |
| GuidedTracer.Tracer.HandleDrawingEnd | app/test2/page.tsx:432-446 | the new state is `End` of the old one, and the invariant is kept |
| GuidedTracer.Tracer.HandleNextLetter | app/test2/page.tsx:449-451 | the index becomes (index + 1) mod n, and the letter is reloaded when the index changes |
| GuidedTracer.Tracer.HandlePrevLetter | app/test2/page.tsx:452-454 | the index becomes (index - 1 + n) mod n, and the letter is reloaded when the index changes |
| GuidedTracer.Tracer.HandleResetLetter | app/test2/page.tsx:455-457 | the current letter is reloaded, so its progress is reset |
| GuidedTracer.Tracer.HandleSelectLetter | app/test2/page.tsx:458-463 | an unknown character changes nothing; the current letter's character keeps its progress; any other loads that letter |
| GuidedTracer.Tracer.CompletionTimerFires | app/test2/page.tsx:418-421 | the completed flag is cleared and the next letter is shown |
| GuidedPaths.RunAppend | app/test2/page.tsx:358-446 | handling a + b is handling a, then b |
| GuidedPaths.RunKeepsInv | app/test2/page.tsx:358-446 | every run of events keeps the invariant |
| GuidedPaths.MovesFinishStroke | app/test2/page.tsx:399-417 | moving through the remaining guide points of a stroke finishes it and records their segments |
| GuidedPaths.StrokePathFinishes | app/test2/page.tsx:358-446 | pressing, moving through and releasing on a stroke's guide points finishes the stroke and records its k segments |
| GuidedPaths.LetterPathFinishes | app/test2/page.tsx:358-446 | tracing the strokes from k onwards completes the letter |
| GuidedPaths.GuidePathCompletesLetter | app/test2/page.tsx:358-446 | tracing every guide point completes any well-formed letter, with exactly the guide path's segments, one per guide point |
| GuidedPaths.LetterLWellFormed | app/test2/page.tsx:68-74 | the catalog's "L" is well-formed with 11 guide points |
| GuidedPaths.PressFarFromStartIgnored | app/test2/page.tsx:366-372 | on the "L", a press 50 units from the first guide point is ignored |
| GuidedPaths.MidSegmentDistance | app/test2/page.tsx:106-113 | a point level with the middle of the "L"'s first segment is at its horizontal offset from that segment |
| GuidedPaths.FirstGuidePointReached | app/test2/page.tsx:399-407 | pressing on the first point and moving onto it records the degenerate segment (p0, p0) and targets the second point |
| GuidedPaths.SidewaysMoveIsStray | app/test2/page.tsx:385-396 | a move more than 30 units to the side of the segment is a stray: drawing stops, live is cleared, progress is kept |
| GuidedPaths.DriftWithinToleranceKept | app/test2/page.tsx:385-399 | a move within 30 units of the segment and not on the target only extends the live points |
| GuidedPaths.DirectJumpToStrokeEndIsStray | app/test2/page.tsx:381-396 | a single move from the press to the stroke's end is a stray, because at point 0 the target is the first guide point |
| GuidedPaths.TracingLetterLCompletesIt | app/test2/page.tsx:68-74 | tracing the "L" guide point by guide point completes it with 11 segments |
| SimpleTracer.Start | app/test3/page.tsx:310-329 | nothing changes when no stroke or expected point remains, or the press is beyond the tolerance; otherwise drawing starts with live = [pos] |
| SimpleTracer.Advance | app/test3/page.tsx:350-378 | a hit appends exactly one segment [previous guide point or press position, target]; it then moves to the next point with live = [target], or to the next stroke with point 0, live cleared and drawing stopped |
| SimpleTracer.Move | app/test3/page.tsx:331-391 | no change when not drawing; otherwise pos is always appended first, a hit advances, and nothing is ever rejected |
| SimpleTracer.End | app/test3/page.tsx:393-405 | drawing stops and indices and segments are unchanged; live is cleared exactly when drawing with an expected point left |
| SimpleTracer.FreshInv | app/test3/page.tsx:267-277 | the loaded state satisfies the invariant |
| SimpleTracer.StartKeepsInv | app/test3/page.tsx:310-329 | a press keeps the invariant: indices in range, drawing only with a target and a live point |
| SimpleTracer.MoveKeepsInv | app/test3/page.tsx:331-391 | a move keeps the invariant on a well-formed letter |
| SimpleTracer.EndKeepsInv | app/test3/page.tsx:393-405 | a release keeps the invariant |
| SimpleTracer.MoveProgress | app/test3/page.tsx:367-378 | the stroke index never decreases and grows by at most one; segments are only appended, at most one at a time |
| SimpleTracer.FinishedIsFinal | app/test3/page.tsx:313 | once every stroke is traced, presses, moves and releases change nothing |
| SimpleTracer.RunAppend | app/test3/page.tsx:310-405 | handling a + b is handling a, then b |
| SimpleTracer.RunKeepsInv | app/test3/page.tsx:310-405 | every run of events keeps the invariant |
| SimpleTracer.MovesFinishStroke | app/test3/page.tsx:350-378 | moving through the remaining guide points finishes the stroke |
| SimpleTracer.StrokePathFinishes | app/test3/page.tsx:310-405 | tracing one stroke's guide path finishes it with its k segments |
| SimpleTracer.LetterPathFinishes | app/test3/page.tsx:310-405 | tracing the strokes from k onwards finishes the letter |
| SimpleTracer.GuidePathFinishesLetter | app/test3/page.tsx:310-405 | tracing every guide point finishes any well-formed letter, with the same segments as the guided tracer |
| SimpleTracer.LetterLFirstStroke | app/test3/page.tsx:36-40 | the catalog's "L" has two strokes of two guide points |
| SimpleTracer.DirectMoveToCornerMisses | app/test3/page.tsx:338-350 | a single move from the top of the "L" to its corner is not a hit, and the release then drops it, so nothing is recorded |
| SimpleTracer.Tracer.constructor | app/test3/page.tsx:68-76 | the component starts on letter 0 in the fresh state |
| SimpleTracer.Tracer.LoadLetter | app/test3/page.tsx:267-277 | an out-of-range index changes nothing; otherwise the letter is installed with all progress reset |
| SimpleTracer.Tracer.HandleDrawingStart | app/test3/page.tsx:310-329 | the new state is `Start` of the old one, and the invariant is kept |
| SimpleTracer.Tracer.HandleDrawingMove | app/test3/page.tsx:331-391 | the new state is `Move` of the old one, and the invariant is kept |
| SimpleTracer.Tracer.HandleDrawingEnd | app/test3/page.tsx:393-405 | the new state is `End` of the old one, and the invariant is kept |
| SimpleTracer.Tracer.HandleNextLetter | app/test3/page.tsx:407-410 | the next letter (wrapping) is loaded, with its progress reset |
| SimpleTracer.Tracer.HandlePrevLetter | app/test3/page.tsx:411-414 | the previous letter (wrapping) is loaded, with its progress reset |
| SimpleTracer.Tracer.HandleResetLetter | app/test3/page.tsx:415-417 | the current letter is reloaded |
| SimpleTracer.Tracer.HandleSelectLetter | app/test3/page.tsx:418-423 | an unknown character changes nothing; any other, including the current letter, is loaded afresh |
| SimpleTracer.Tracer.CompletionTimerFires | app/test3/page.tsx:380-385 | loads the letter after the one shown when the timer was scheduled |
| Engines.StartAgrees | app/test3/page.tsx:310-329 | before completion, both tracers treat every press the same (max(40, 12) = 40) |
| Engines.MoveAgreesUnlessStray | app/test2/page.tsx:385-399 | any move that is not a stray has the same effect in both tracers |
| Engines.StrayDiverges | app/test3/page.tsx:338-350 | on a stray the guided tracer stops drawing, while the simpler one keeps drawing and only appends the move |
| Engines.EndAgreesAwayFromTarget | app/test3/page.tsx:393-405 | a release away from the target has the same effect in both tracers |
| Engines.EndDivergesOnTarget | app/test2/page.tsx:436-443 | a release on the target keeps the live points in the guided tracer and drops them in the simpler one |
| Coverage.LetterLayout | app/test1/page.tsx:109-123 | the glyph's estimated width and height are positive, the width is even and the height a multiple of 4, so all cell bounds are integers |
| Coverage.Rect | app/test1/page.tsx:128-134 | the rectangle holds exactly the cells with x0 <= x < x1 and y0 <= y < y1 |
| Coverage.ColumnSize | app/test1/page.tsx:130-133 | one column of the rectangle has y1 - y0 cells |
| Coverage.RectSize | app/test1/page.tsx:128-134 | a rectangle of w by h cells has w * h cells |
| Coverage.TraceableRegionSize | app/test1/page.tsx:113-134 | the traceable region has 80 × 200 = 16000 cells in the modal and 30 × 75 = 2250 on the small canvas |
| Coverage.InDiskBounded | app/test1/page.tsx:242-244 | every offset within the radius-5 disk lies within the loops' bounds [-5, 5] |
| Coverage.FullBand | app/test1/page.tsx:242-249 | the loops over [-5, 5]² with the disk test visit exactly the disk's offsets |
| Coverage.Disk | app/test1/page.tsx:241-249 | a stamp holds exactly the cells (x + dx, y + dy) with dx² + dy² <= 25, including the centre |
| Coverage.Percentage | app/test1/page.tsx:265-272 | the percentage is in [0, 100]; it is 0 with nothing to trace or nothing traced, and 100 when every traceable cell is traced |
| Coverage.PercentageMonotone | app/test1/page.tsx:246-268 | more traced cells never lower the percentage |
| Coverage.AboveThresholdIff | app/test1/page.tsx:276 | the percentage exceeds 40 exactly when 5 × hits > 2 × traceable cells, so exactly 40% does not celebrate |
| Coverage.CoverageTracer.constructor | app/test1/page.tsx:14-30 | starts on the small canvas with no traced cells, percentage 0, not drawing, no celebration |
| Coverage.CoverageTracer.BuildTraceable | app/test1/page.tsx:117-134 | the traceable set is rebuilt from empty as exactly the rectangle of the current layout |
| Coverage.CoverageTracer.InitializeCanvas | app/test1/page.tsx:33-80 | the traceable set is rebuilt, the traced set emptied and the percentage set to 0 |
| Coverage.CoverageTracer.ResetCanvas | app/test1/page.tsx:139-141 | same as initialising the canvas |
| Coverage.CoverageTracer.SetModal | app/test1/page.tsx:85-93 | the canvas is initialised again exactly when the modal setting changes |
| Coverage.CoverageTracer.Stamp | app/test1/page.tsx:241-249 | the traced set grows by exactly the disk around the position, and nothing is removed |
| Coverage.CoverageTracer.CountHits | app/test1/page.tsx:252-262 | hitCount is the number of traced traceable cells, totalPixels the number of traceable cells, and hitCount <= totalPixels |
| Coverage.CoverageTracer.UpdateCompletionPercentage | app/test1/page.tsx:238-281 | stamps the position; the stored percentage is the traced share, never decreases, and the celebration is raised exactly when above 40 |
| Coverage.CoverageTracer.StartDrawing | app/test1/page.tsx:172-194 | drawing starts and the press position is stamped |
| Coverage.CoverageTracer.Draw | app/test1/page.tsx:197-229 | stamps the position while drawing, and otherwise changes nothing |
| Coverage.CoverageTracer.HandleMouseMove | app/test1/page.tsx:146-163 | a pointer move changes nothing unless drawing; while drawing it stamps the disk, the percentage never decreases, and the celebration is raised exactly when the new percentage exceeds 40 |
| Coverage.CoverageTracer.StopDrawing | app/test1/page.tsx:232-234 | drawing stops |
| Coverage.CoverageTracer.HandleMouseLeave | app/test1/page.tsx:166-169 | leaving the canvas stops drawing |
| Coverage.CoverageTracer.HideCelebration | app/test1/page.tsx:279 | the celebration is hidden; a later update above 40% raises it again |

## Behaviour worth noting

- A finished stroke of k guide points records k segments, one per guide
  point rather than one per pair of consecutive points. The hit on
  guide point 0 records a segment from the press position to that point. See
  app/test2/page.tsx:401-404 and app/test3/page.tsx:364-367, and
  `GuidedPaths.GuidePathCompletesLetter`.
- A single pointer move from the top of the "L" straight to the end of its
  vertical stroke does not reach any point. At point index 0 the target is the
  stroke's first guide point. The guided tracer treats such a move as a stray
  (`GuidedPaths.DirectJumpToStrokeEndIsStray`). The simpler tracer treats it as
  a miss, and the release then drops it (`SimpleTracer.DirectMoveToCornerMisses`).
- The celebration threshold is strict: exactly 40% does not celebrate. Once the
  celebration is hidden, it can be raised again (app/test1/page.tsx:276-279).
- In the guided tracer, navigation only changes the alphabet index, and an
  effect reloads the letter when the index changes. Selecting the letter
  already shown therefore keeps its progress. The simpler tracer calls
  `loadLetter` directly, so every navigation resets the progress.

## Left out

- Square roots and IEEE floating point. Coordinates are exact reals, and every
  tolerance test compares squared distances.
- Rendering: canvas drawing, the grid, guide dots and colours, the glyph,
  toasts and messages, the help box, the pencil cursor and the fireworks.
- React and DOM plumbing: reading pointer positions from events,
  `preventDefault`, and re-creating callbacks. Each handler is one atomic
  transition that takes the pointer position as a parameter. Setter calls
  within a handler apply in order, so the last write wins.
- Timers are not clocked. Each delayed callback is an explicit operation that
  can be called at any time: `CompletionTimerFires` (both tracers) and
  `HideCelebration`. The toast removal timer is left out with the toasts.
- The alphabet tables are static data. Each tracer's constructor takes the
  catalog as a parameter and requires it to be non-empty and well-formed, as
  every entry of the tables is. The guided tracer starts with no letter until
  its mount effect loads letter 0; the model starts from that loaded state.
  Only the letter "L" appears, as a fixture for scenario lemmas.
- SimpleTracer.Start: a press whose expected point index is past the end of
  the current stroke makes the handler throw (it reads a coordinate of an
  undefined target) before any state is set. The model returns the state
  unchanged. The invariant kept by `SimpleTracer.StartKeepsInv`,
  `SimpleTracer.MoveKeepsInv` and `SimpleTracer.EndKeepsInv` keeps the point
  index inside the current stroke, so no reachable state takes this path.
- SimpleTracer.Move: a move while no stroke remains makes the handler fail
  after appending the position (it reads the length of a missing stroke). The
  model keeps the append and stops there. By `SimpleTracer.FinishedIsFinal`,
  this cannot happen in a reachable state.
- Coverage: pointer positions are integers, so `Math.round` is the identity.
  Cells are integer pairs rather than their "x,y" string keys. The last pointer
  position is only used for drawing lines, so it is not kept.
- Coverage.CoverageTracer.UpdateCompletionPercentage: the celebration is
  raised when the computed percentage exceeds 40 and none is shown. The
  component reads the flag from its last render, while the model reads the
  current value.
