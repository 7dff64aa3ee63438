/** The letter catalog shared by both guide-point tracers: a letter is an
    ordered list of strokes, each an ordered list of guide points, and the
    catalog is navigated circularly. */
module Letters {
  import opened Geometry

  /** One continuous pen motion: its guide points in tracing order. */
  type Stroke = seq<Point>

  /** `LetterDefinition`: the character and its strokes in tracing order. */
  datatype Letter = Letter(character: string, strokes: seq<Stroke>)

  /** A completed segment, the pair `[from, to]` pushed onto the list of
      completed segments. */
  datatype Segment = Segment(from: Point, to: Point)

  /** A letter the tracers can finish: at least one stroke, and every
      stroke has at least one guide point (true of every catalog entry). */
  predicate WellFormed(letter: Letter)
  {
    |letter.strokes| > 0 &&
    forall i :: 0 <= i < |letter.strokes| ==> |letter.strokes[i]| > 0
  }

  /** `ALPHABET_DATA`: a non-empty table of well-formed letters. */
  predicate WellFormedCatalog(catalog: seq<Letter>)
  {
    |catalog| > 0 &&
    forall i :: 0 <= i < |catalog| ==> WellFormed(catalog[i])
  }

  /** Number of guide points over all strokes. */
  function TotalPoints(strokes: seq<Stroke>): nat
  {
    if strokes == [] then 0 else |strokes[0]| + TotalPoints(strokes[1..])
  }

  /** `ALPHABET_DATA.findIndex(def => def.character === ch)`: the first
      index holding `ch`, or -1 when no letter has that character. */
  function FindIndex(catalog: seq<Letter>, ch: string): (r: int)
    ensures -1 <= r < |catalog|
    ensures r == -1 <==> forall i :: 0 <= i < |catalog| ==> catalog[i].character != ch
    ensures 0 <= r ==> catalog[r].character == ch
    ensures 0 <= r ==> forall i :: 0 <= i < r ==> catalog[i].character != ch
  {
    if catalog == [] then -1
    else if catalog[0].character == ch then 0
    else
      var k := FindIndex(catalog[1..], ch);
      if k == -1 then -1 else k + 1
  }

  /** `(index + 1) % length`: the next letter, wrapping to the first. */
  function NextIndex(index: nat, length: nat): (r: nat)
    requires index < length
    ensures r < length
    ensures index + 1 < length ==> r == index + 1
    ensures index == length - 1 ==> r == 0
  {
    (index + 1) % length
  }

  /** `(index - 1 + length) % length`: the previous letter, wrapping to
      the last. */
  function PrevIndex(index: nat, length: nat): (r: nat)
    requires index < length
    ensures r < length
    ensures 0 < index ==> r == index - 1
    ensures index == 0 ==> r == length - 1
  {
    (index - 1 + length) % length
  }

  /** Previous and next undo each other. */
  lemma PrevNextInverse(index: nat, length: nat)
    requires index < length
    ensures PrevIndex(NextIndex(index, length), length) == index
    ensures NextIndex(PrevIndex(index, length), length) == index
  {
  }

  // ---------------------------------------------------------------------
  // Tracing a letter along its guide points
  // ---------------------------------------------------------------------

  /** A pointer event reaching the canvas: pointer down, pointer move, and
      pointer up (also leave and cancel). */
  datatype Event = Down(at: Point) | MoveTo(to: Point) | Up

  /** Moves through the guide points of `stroke` from index `i` on. */
  function MovesFrom(stroke: Stroke, i: nat): seq<Event>
    decreases |stroke| - i
  {
    if i >= |stroke| then [] else [MoveTo(stroke[i])] + MovesFrom(stroke, i + 1)
  }

  /** Press on the first guide point, move through every guide point, release. */
  function StrokePath(stroke: Stroke): seq<Event>
    requires |stroke| > 0
  {
    [Down(stroke[0])] + MovesFrom(stroke, 0) + [Up]
  }

  /** The strokes' paths one after the other. */
  function LetterPath(strokes: seq<Stroke>): seq<Event>
    requires forall i :: 0 <= i < |strokes| ==> |strokes[i]| > 0
  {
    if strokes == [] then [] else StrokePath(strokes[0]) + LetterPath(strokes[1..])
  }

  /** Segments between consecutive guide points from index `i` on. */
  function SegmentsFrom(stroke: Stroke, i: nat): (r: seq<Segment>)
    requires 0 < i
    ensures |r| == if i < |stroke| then |stroke| - i else 0
    decreases |stroke| - i
  {
    if i >= |stroke| then [] else [Segment(stroke[i - 1], stroke[i])] + SegmentsFrom(stroke, i + 1)
  }

  /** The segments recorded for a stroke traced along its guide points: the
      degenerate segment from the press point to the first guide point, then
      one per pair of consecutive guide points. */
  function StrokeSegments(stroke: Stroke): (r: seq<Segment>)
    requires |stroke| > 0
    ensures |r| == |stroke|
  {
    [Segment(stroke[0], stroke[0])] + SegmentsFrom(stroke, 1)
  }

  function AllSegments(strokes: seq<Stroke>): seq<Segment>
    requires forall i :: 0 <= i < |strokes| ==> |strokes[i]| > 0
  {
    if strokes == [] then [] else StrokeSegments(strokes[0]) + AllSegments(strokes[1..])
  }

  lemma {:induction false} AllSegmentsLength(strokes: seq<Stroke>)
    requires forall i :: 0 <= i < |strokes| ==> |strokes[i]| > 0
    ensures |AllSegments(strokes)| == TotalPoints(strokes)
    decreases |strokes|
  {
    if strokes != [] {
      AllSegmentsLength(strokes[1..]);
    }
  }

}
