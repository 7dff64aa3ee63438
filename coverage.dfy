/** The pixel-coverage tracer (app/test1/page.tsx). The letter to trace is
    approximated by a rectangle of integer cells; every pointer position
    while drawing stamps a disk of radius 5 into the set of traced cells,
    and completion is the share of the rectangle's cells that are traced.
    Pointer positions are integers here, so rounding a coordinate is the
    identity, and a cell is a pair of integers rather than its "x,y" key. */
module Coverage {
  import Geometry

  datatype Cell = Cell(x: int, y: int)

  /** Radius of the stamp around each pointer position. */
  const StampRadius: int := 5

  /** The celebration is raised above this percentage. */
  const CelebrationThreshold: real := 40.0

  /** Where the letter to trace sits and its estimated size, in the small
      canvas or in the enlarged one shown in the modal. */
  datatype Layout = Layout(letterX: int, letterY: int, width: int, height: int)

  function LetterLayout(modal: bool): (l: Layout)
    ensures l.width > 0 && l.height > 0 && l.width % 2 == 0 && l.height % 4 == 0
  {
    if modal then Layout(300, 140, 80, 160) else Layout(120, 60, 30, 60)
  }

  // ---------------------------------------------------------------------
  // Cells of a rectangle
  // ---------------------------------------------------------------------

  /** The cells of column x with y0 <= y < y1. */
  function Column(x: int, y0: int, y1: int): set<Cell>
  {
    set y | y0 <= y < y1 :: Cell(x, y)
  }

  /** The cells with x0 <= x < x1 and y0 <= y < y1. */
  function Rect(x0: int, x1: int, y0: int, y1: int): (r: set<Cell>)
    ensures forall c :: c in r <==> x0 <= c.x < x1 && y0 <= c.y < y1
  {
    set x, y | x0 <= x < x1 && y0 <= y < y1 :: Cell(x, y)
  }

  /** The cells the letter is estimated to cover: half its width on either
      side of its position, from its height above the baseline to a quarter
      of its height below. */
  function TraceableRegion(modal: bool): set<Cell>
  {
    var l := LetterLayout(modal);
    Rect(l.letterX - l.width / 2, l.letterX + l.width / 2, l.letterY - l.height, l.letterY + l.height / 4)
  }

  lemma {:induction false} ColumnSize(x: int, y0: int, y1: int)
    requires y0 <= y1
    ensures |Column(x, y0, y1)| == y1 - y0
    decreases y1 - y0
  {
    if y0 < y1 {
      ColumnSize(x, y0, y1 - 1);
      assert Column(x, y0, y1) == Column(x, y0, y1 - 1) + {Cell(x, y1 - 1)};
    } else {
      assert Column(x, y0, y1) == {};
    }
  }

  lemma RectExtend(x0: int, x1: int, y0: int, y1: int)
    requires x0 <= x1
    ensures Rect(x0, x1 + 1, y0, y1) == Rect(x0, x1, y0, y1) + Column(x1, y0, y1)
  {
    forall c | c in Column(x1, y0, y1)
      ensures c.x == x1 && y0 <= c.y < y1
    {
    }
    forall c | c in Rect(x0, x1 + 1, y0, y1) && c.x == x1
      ensures c in Column(x1, y0, y1)
    {
      assert c == Cell(x1, c.y);
    }
  }

  /** A rectangle of w by h cells has w * h cells. */
  lemma {:induction false} RectSize(x0: int, x1: int, y0: int, y1: int)
    requires x0 <= x1 && y0 <= y1
    ensures |Rect(x0, x1, y0, y1)| == (x1 - x0) * (y1 - y0)
    decreases x1 - x0
  {
    if x0 < x1 {
      RectSize(x0, x1 - 1, y0, y1);
      RectExtend(x0, x1 - 1, y0, y1);
      ColumnSize(x1 - 1, y0, y1);
      assert Rect(x0, x1 - 1, y0, y1) * Column(x1 - 1, y0, y1) == {};
      assert (x1 - x0) * (y1 - y0) == (x1 - 1 - x0) * (y1 - y0) + (y1 - y0);
    } else {
      assert Rect(x0, x1, y0, y1) == {};
    }
  }

  /** The traceable region has 80 * 200 cells in the modal and 30 * 75
      cells in the small canvas. */
  lemma TraceableRegionSize(modal: bool)
    ensures |TraceableRegion(modal)| == if modal then 16000 else 2250
  {
    var l := LetterLayout(modal);
    RectSize(l.letterX - l.width / 2, l.letterX + l.width / 2, l.letterY - l.height, l.letterY + l.height / 4);
  }

  // ---------------------------------------------------------------------
  // The stamp
  // ---------------------------------------------------------------------

  /** An offset within the stamp's disk. */
  predicate InDisk(dx: int, dy: int)
  {
    dx * dx + dy * dy <= StampRadius * StampRadius
  }

  /** Offsets of the disk lie within the square of side 11 around it. */
  lemma InDiskBounded(dx: int, dy: int)
    requires InDisk(dx, dy)
    ensures -StampRadius <= dx <= StampRadius && -StampRadius <= dy <= StampRadius
  {
  }

  /** Disk rows dx < dxEnd of the stamp centred at (x, y). */
  function Band(x: int, y: int, dxEnd: int): set<Cell>
  {
    set dx, dy | -StampRadius <= dx < dxEnd && -StampRadius <= dy <= StampRadius && InDisk(dx, dy)
      :: Cell(x + dx, y + dy)
  }

  /** Cells of disk row dx with dy < dyEnd. */
  function Row(x: int, y: int, dx: int, dyEnd: int): set<Cell>
  {
    set dy | -StampRadius <= dy < dyEnd && InDisk(dx, dy) :: Cell(x + dx, y + dy)
  }

  /** All rows of the band hold exactly the cells within the disk. */
  lemma FullBand(x: int, y: int)
    ensures forall c: Cell :: c in Band(x, y, StampRadius + 1) <==> InDisk(c.x - x, c.y - y)
  {
    forall c: Cell | InDisk(c.x - x, c.y - y)
      ensures c in Band(x, y, StampRadius + 1)
    {
      InDiskBounded(c.x - x, c.y - y);
      assert c == Cell(x + (c.x - x), y + (c.y - y));
    }
  }

  /** The cells within distance 5 of (x, y): a stamp. */
  function Disk(x: int, y: int): (r: set<Cell>)
    ensures forall c: Cell :: c in r <==> InDisk(c.x - x, c.y - y)
    ensures Cell(x, y) in r
  {
    FullBand(x, y);
    assert InDisk(0, 0);
    Band(x, y, StampRadius + 1)
  }

  lemma BandExtend(x: int, y: int, dx: int)
    requires -StampRadius <= dx
    ensures Band(x, y, dx + 1) == Band(x, y, dx) + Row(x, y, dx, StampRadius + 1)
  {
  }

  lemma RowExtend(x: int, y: int, dx: int, dy: int)
    requires -StampRadius <= dy
    ensures Row(x, y, dx, dy + 1) ==
      Row(x, y, dx, dy) + (if InDisk(dx, dy) then {Cell(x + dx, y + dy)} else {})
  {
  }

  // ---------------------------------------------------------------------
  // The completion percentage
  // ---------------------------------------------------------------------

  /** `hitCount / totalPixels * 100`, or 0 when there is nothing to trace. */
  function Percentage(traceable: set<Cell>, traced: set<Cell>): (r: real)
    ensures 0.0 <= r <= 100.0
    ensures |traceable| == 0 ==> r == 0.0
    ensures traceable * traced == {} ==> r == 0.0
    ensures |traceable| > 0 && traceable <= traced ==> r == 100.0
  {
    if |traceable| > 0 then
      var hits := traceable * traced;
      assert |hits| <= |traceable| by { SubsetSize(hits, traceable); }
      assert traceable <= traced ==> hits == traceable;
      (|hits| as real / |traceable| as real) * 100.0
    else 0.0
  }

  lemma SubsetSize<T>(a: set<T>, b: set<T>)
    requires a <= b
    ensures |a| <= |b|
  {
    assert b == a + (b - a);
  }

  lemma ProductNonNegative(a: real, b: real)
    requires 0.0 <= a && 0.0 < b
    ensures 0.0 <= a * b
  {
  }

  /** For a positive denominator, a quotient exceeds c exactly when the
      numerator exceeds c times the denominator. */
  lemma QuotientAbove(h: real, t: real, c: real)
    requires 0.0 < t
    ensures h / t > c <==> h > c * t
  {
    var q := h / t;
    assert q * t == h;
    if q > c {
      Geometry.ProductPositive((q - c) * t, q - c, t);
      assert (q - c) * t == h - c * t;
    } else {
      ProductNonNegative(c - q, t);
      assert (c - q) * t == c * t - h;
    }
  }

  /** More traced cells never lower the percentage. */
  lemma PercentageMonotone(traceable: set<Cell>, traced: set<Cell>, traced': set<Cell>)
    requires traced <= traced'
    ensures Percentage(traceable, traced) <= Percentage(traceable, traced')
  {
    if |traceable| > 0 {
      SubsetSize(traceable * traced, traceable * traced');
      var t := |traceable| as real;
      var h, h' := |traceable * traced| as real, |traceable * traced'| as real;
      QuotientAbove(h, t, h' / t);
      assert h' / t * t == h';
      assert h / t <= h' / t;
    }
  }

  /** The celebration threshold in whole cells: above 40% exactly when five
      times the traced cells exceed twice the traceable ones. */
  lemma AboveThresholdIff(traceable: set<Cell>, traced: set<Cell>)
    ensures Percentage(traceable, traced) > CelebrationThreshold <==>
      |traceable| > 0 && 5 * |traceable * traced| > 2 * |traceable|
  {
    if |traceable| > 0 {
      var t := |traceable| as real;
      var h := |traceable * traced| as real;
      assert Percentage(traceable, traced) == (h / t) * 100.0;
      QuotientAbove(h, t, 0.4);
      assert (5 * |traceable * traced|) as real == 5.0 * h;
      assert (2 * |traceable|) as real == 2.0 * t;
    }
  }

  /** Moving one cell from the uncounted rest to the counted part adds one
      cell, and one hit exactly when that cell is traced. */
  lemma CountStep(traceable: set<Cell>, traced: set<Cell>, rest: set<Cell>, cell: Cell)
    requires rest <= traceable && cell in rest
    ensures |traceable - (rest - {cell})| == |traceable - rest| + 1
    ensures |(traceable - (rest - {cell})) * traced| ==
      |(traceable - rest) * traced| + (if cell in traced then 1 else 0)
  {
    var done := traceable - rest;
    assert cell !in done;
    assert traceable - (rest - {cell}) == done + {cell};
    if cell in traced {
      assert (done + {cell}) * traced == done * traced + {cell};
    } else {
      assert (done + {cell}) * traced == done * traced;
    }
  }

  // ---------------------------------------------------------------------
  // The component
  // ---------------------------------------------------------------------

  class CoverageTracer {
    var modal: bool
    var traceable: set<Cell>
    var traced: set<Cell>
    var percentage: real
    var drawing: bool
    var celebrating: bool

    /** The traceable cells belong to the current canvas, and the stored
        percentage is the traced share of them. */
    ghost predicate Valid()
      reads this
    {
      traceable == TraceableRegion(modal) && percentage == Percentage(traceable, traced)
    }

    /** The component once mounted, on the small canvas. */
    constructor ()
      ensures Valid() && !modal && traced == {} && percentage == 0.0
      ensures !drawing && !celebrating
    {
      modal := false;
      drawing := false;
      celebrating := false;
      traced := {};
      percentage := 0.0;
      traceable := {};
      new;
      BuildTraceable();
    }

    /** The nested loops of `drawTraceableLetter` filling the traceable set. */
    method BuildTraceable()
      modifies this`traceable
      ensures traceable == TraceableRegion(modal)
    {
      var l := LetterLayout(modal);
      var x0, x1 := l.letterX - l.width / 2, l.letterX + l.width / 2;
      var y0, y1 := l.letterY - l.height, l.letterY + l.height / 4;
      traceable := {};
      var x := x0;
      while x < x1
        invariant x0 <= x <= x1
        invariant traceable == Rect(x0, x, y0, y1)
      {
        var y := y0;
        while y < y1
          invariant y0 <= y <= y1
          invariant traceable == Rect(x0, x, y0, y1) + Column(x, y0, y)
        {
          traceable := traceable + {Cell(x, y)};
          y := y + 1;
          assert Column(x, y0, y) == Column(x, y0, y - 1) + {Cell(x, y - 1)};
        }
        RectExtend(x0, x, y0, y1);
        x := x + 1;
      }
    }

    /** `initializeCanvas`: the traceable set is rebuilt, the traced set
        emptied and the percentage set to 0. */
    method InitializeCanvas()
      modifies this`traceable, this`traced, this`percentage
      ensures Valid() && traced == {} && percentage == 0.0
    {
      BuildTraceable();
      traced := {};
      percentage := 0.0;
    }

    /** `resetCanvas` */
    method ResetCanvas()
      modifies this`traceable, this`traced, this`percentage
      ensures Valid() && traced == {} && percentage == 0.0
    {
      InitializeCanvas();
    }

    /** Opening or closing the modal; the canvas is initialised again only
        when the setting changes. */
    method SetModal(open: bool)
      requires Valid()
      modifies this`modal, this`traceable, this`traced, this`percentage
      ensures Valid() && modal == open
      ensures open == old(modal) ==> traced == old(traced) && percentage == old(percentage)
      ensures open != old(modal) ==> traced == {} && percentage == 0.0
    {
      if open != modal {
        modal := open;
        InitializeCanvas();
      }
    }

    /** The nested loops of `updateCompletionPercentage` adding the stamp's
        cells to the traced set. */
    method Stamp(x: int, y: int)
      modifies this`traced
      ensures traced == old(traced) + Disk(x, y)
    {
      var dx := -StampRadius;
      while dx <= StampRadius
        invariant -StampRadius <= dx <= StampRadius + 1
        invariant traced == old(traced) + Band(x, y, dx)
      {
        var dy := -StampRadius;
        while dy <= StampRadius
          invariant -StampRadius <= dy <= StampRadius + 1
          invariant traced == old(traced) + Band(x, y, dx) + Row(x, y, dx, dy)
        {
          RowExtend(x, y, dx, dy);
          if dx * dx + dy * dy <= StampRadius * StampRadius {
            traced := traced + {Cell(x + dx, y + dy)};
          }
          dy := dy + 1;
        }
        BandExtend(x, y, dx);
        dx := dx + 1;
      }
    }

    /** The counting loop: the traceable cells that are traced, and all
        traceable cells. */
    method CountHits() returns (hitCount: nat, totalPixels: nat)
      ensures hitCount == |traceable * traced| && totalPixels == |traceable|
      ensures hitCount <= totalPixels
    {
      hitCount, totalPixels := 0, 0;
      var rest := traceable;
      while rest != {}
        invariant rest <= traceable
        invariant totalPixels == |traceable - rest|
        invariant hitCount == |(traceable - rest) * traced|
        decreases |rest|
      {
        var cell :| cell in rest;
        CountStep(traceable, traced, rest, cell);
        totalPixels := totalPixels + 1;
        if cell in traced {
          hitCount := hitCount + 1;
        }
        rest := rest - {cell};
      }
      assert traceable - rest == traceable;
      SubsetSize(traceable * traced, traceable);
    }

    /** `updateCompletionPercentage(x, y)`: stamp, recount, store the capped
        percentage, and raise the celebration above 40% unless it is
        already shown. */
    method UpdateCompletionPercentage(x: int, y: int)
      requires Valid()
      modifies this`traced, this`percentage, this`celebrating
      ensures Valid()
      ensures traced == old(traced) + Disk(x, y)
      ensures old(percentage) <= percentage
      ensures celebrating == (old(celebrating) || percentage > CelebrationThreshold)
    {
      PercentageMonotone(traceable, traced, traced + Disk(x, y));
      Stamp(x, y);
      var hitCount, totalPixels := CountHits();
      var computed := 0.0;
      if totalPixels > 0 {
        computed := (hitCount as real / totalPixels as real) * 100.0;
      }
      percentage := if computed < 100.0 then computed else 100.0;
      if computed > CelebrationThreshold && !celebrating {
        celebrating := true;
      }
    }

    /** `startDrawing`: drawing begins and the press position is stamped. */
    method StartDrawing(x: int, y: int)
      requires Valid()
      modifies this`drawing, this`traced, this`percentage, this`celebrating
      ensures Valid() && drawing
      ensures traced == old(traced) + Disk(x, y)
      ensures old(percentage) <= percentage
      ensures celebrating == (old(celebrating) || percentage > CelebrationThreshold)
    {
      drawing := true;
      UpdateCompletionPercentage(x, y);
    }

    /** `draw`: while drawing, the position is stamped; otherwise nothing
        happens. */
    method Draw(x: int, y: int)
      requires Valid()
      modifies this`traced, this`percentage, this`celebrating
      ensures Valid()
      ensures !drawing ==> unchanged(this)
      ensures drawing ==> traced == old(traced) + Disk(x, y)
      ensures drawing ==> celebrating == (old(celebrating) || percentage > CelebrationThreshold)
      ensures old(percentage) <= percentage
    {
      if !drawing {
        return;
      }
      UpdateCompletionPercentage(x, y);
    }

    /** `handleMouseMove`: draws when drawing (the pencil cursor is not
        modelled). */
    method HandleMouseMove(x: int, y: int)
      requires Valid()
      modifies this`traced, this`percentage, this`celebrating
      ensures Valid()
      ensures !drawing ==> unchanged(this)
      ensures drawing ==> traced == old(traced) + Disk(x, y)
      ensures drawing ==> celebrating == (old(celebrating) || percentage > CelebrationThreshold)
      ensures old(percentage) <= percentage
    {
      if drawing {
        Draw(x, y);
      }
    }

    /** `stopDrawing` */
    method StopDrawing()
      modifies this`drawing
      ensures !drawing
    {
      drawing := false;
    }

    /** `handleMouseLeave` */
    method HandleMouseLeave()
      modifies this`drawing
      ensures !drawing
    {
      StopDrawing();
    }

    /** The delayed callback hiding the celebration; a later update above
        40% raises it again. */
    method HideCelebration()
      modifies this`celebrating
      ensures !celebrating
    {
      celebrating := false;
    }
  }
}
