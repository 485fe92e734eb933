/**
 * What bresenhamRasterize (wireframe.cpp) draws, stated as values: the
 * frame the segment is brought into (endpoints ordered by x, negative slopes
 * reflected about the lower endpoint's row, the iterated and the base axis
 * chosen by steepness), the rounded ideal line that the eps_d recurrence
 * tracks, and the sequence of plotPoint calls the loop makes. The shading
 * grid after a set of calls is the last shade written to each cell.
 */
module Raster {
  import opened Objects

  /** One plotPoint call: the cell and the shade written to it. */
  datatype Plot = Plot(at: Pixel, shade: real)

  /**
   * pointInBound(y, x) for a grid of yres rows and xres columns. The ensures
   * only puts the negated test in positive form; what rests on it is
   * PlainLine's on-grid cells and OffGridWritesNothing's early return.
   */
  predicate InBound(xres: int, yres: int, p: Pixel)
    ensures InBound(xres, yres, p) <==> 0 <= p.y < yres && 0 <= p.x < xres
  {
    !(p.y < 0 || p.y >= yres || p.x < 0 || p.x >= xres)
  }

  /*
   * The float slope dy * 1.0 / dx, compared with 0 and with +-1. With dx == 0
   * the quotient is -inf or +inf when dy != 0 and NaN when dy == 0; NaN fails
   * every comparison.
   */

  predicate SlopeIsNegative(dx: int, dy: int)
    requires dx >= 0
  {
    if dx == 0 then dy < 0 else (dy as real) / (dx as real) < 0.0
  }

  predicate SlopeIsSteep(dx: int, dy: int)
    requires dx >= 0
  {
    if dx == 0 then dy != 0
    else (dy as real) / (dx as real) < -1.0 || (dy as real) / (dx as real) > 1.0
  }

  lemma SlopeIsNegativeIff(dx: int, dy: int)
    requires dx >= 0
    ensures SlopeIsNegative(dx, dy) <==> dy < 0
  {
    if dx > 0 {
      var q := (dy as real) / (dx as real);
      assert q * (dx as real) == dy as real;
      if dy < 0 {
        SignOfProduct(q, dx as real);
      }
    }
  }

  lemma SignOfProduct(q: real, d: real)
    requires d > 0.0 && q * d < 0.0
    ensures q < 0.0
  {
  }

  /** The float test on the reflected slope is the integer test dy > dx. */
  lemma SlopeIsSteepIff(dx: int, dy: int)
    requires dx >= 0 && dy >= 0
    ensures SlopeIsSteep(dx, dy) <==> dy > dx
  {
    if dx > 0 {
      var d := dx as real;
      var q := (dy as real) / d;
      assert q * d == dy as real;
      if q > 1.0 {
        ExceedsOne(q, d);
      }
      if dy > dx {
        assert !(q <= 1.0) by {
          if q <= 1.0 {
            AtMostOne(q, d);
          }
        }
      }
    }
  }

  lemma ExceedsOne(q: real, d: real)
    requires d > 0.0 && q > 1.0
    ensures q * d > d
  {
  }

  lemma AtMostOne(q: real, d: real)
    requires d > 0.0 && q <= 1.0
    ensures q * d <= d
  {
  }

  /**
   * The segment as the loop sees it. lower and upper are the endpoints in
   * ascending x order (v2 first on a tie) with upper's row as given; upperY
   * is upper's row after reflection about lower's row. Along the loop the
   * iterated coordinate runs from incrLow to incrUp and the base coordinate
   * starts at base0; dBase and dIncr are the two extents.
   */
  datatype Frame = Frame(lower: Pixel, upper: Pixel, negative: bool, upperY: int, steep: bool,
                         base0: int, dBase: int, incrLow: int, incrUp: int, dIncr: int)

  function Abs(n: int): nat { if n < 0 then -n else n }

  function Max(a: int, b: int): int { if a < b then b else a }

  /**
   * The frame bresenhamRasterize sets up for the segment v1-v2. The float
   * slope tests are written as the integer tests they amount to
   * (SlopeIsNegativeIff, SlopeIsSteepIff).
   */
  function Orient(v1: Pixel, v2: Pixel): (f: Frame)
    ensures {f.lower, f.upper} == {v1, v2} && f.lower.x <= f.upper.x
    ensures f.lower == (if v1.x < v2.x then v1 else v2)
    ensures f.negative <==> f.upper.y < f.lower.y
    ensures f.upperY - f.lower.y == Abs(f.upper.y - f.lower.y)
    ensures f.steep <==> Abs(v2.y - v1.y) > Abs(v2.x - v1.x)
    ensures f.dIncr == f.incrUp - f.incrLow == Max(Abs(v2.x - v1.x), Abs(v2.y - v1.y))
    ensures f.dBase == (if f.steep then Abs(v2.x - v1.x) else Abs(v2.y - v1.y))
    ensures 0 <= f.dBase <= f.dIncr && (f.steep ==> f.dBase < f.dIncr)
    ensures f.base0 == (if f.steep then f.lower.x else f.lower.y)
    ensures f.incrLow == (if f.steep then f.lower.y else f.lower.x)
    ensures f.incrUp == (if f.steep then f.upperY else f.upper.x)
  {
    var lower := if v1.x < v2.x then v1 else v2;
    var upper := if v1.x < v2.x then v2 else v1;
    var dx := upper.x - lower.x;
    var dy := upper.y - lower.y;
    var negative := dy < 0;
    var upperY := if negative then 2 * lower.y - upper.y else upper.y;
    var dy' := if negative then -dy else dy;
    if dy' > dx then
      Frame(lower, upper, negative, upperY, true, lower.x, dx, lower.y, upperY, dy')
    else
      Frame(lower, upper, negative, upperY, false, lower.y, dy', lower.x, upper.x, dx)
  }

  /**
   * The rounded rise of the ideal line after k steps: the integer nearest to
   * k * dBase / dIncr, halves rounded up.
   */
  function Rise(dBase: int, dIncr: int, k: int): int
  {
    if dIncr == 0 then 0 else (2 * k * dBase + dIncr) / (2 * dIncr)
  }

  /** Integer division is determined by its bounds. */
  lemma DivUnique(n: int, d: int, q: int)
    requires d > 0 && q * d <= n < q * d + d
    ensures n / d == q
  {
    var r := n / d;
    assert n == r * d + n % d;
    if r > q {
      MulStep(r - q, d);
    } else if r < q {
      MulStep(q - r, d);
    }
  }

  lemma MulStep(m: int, d: int)
    requires m >= 1 && d > 0
    ensures m * d >= d
  {
  }

  /** From x * d < y * d with d > 0 follows x < y. */
  lemma CancelFactor(x: int, y: int, d: int)
    requires d > 0 && x * d < y * d
    ensures x < y
  {
    if x >= y {
      assert x * d - y * d == (x - y) * d;
      MulNonNegative(x - y, d);
    }
  }

  lemma MulNonNegative(a: int, b: int)
    requires a >= 0 && b >= 0
    ensures a * b >= 0
  {
  }

  /** The rounded rise stays within half a pixel of the ideal line k * dBase / dIncr. */
  lemma RiseNearIdeal(dBase: int, dIncr: int, k: int)
    requires dIncr > 0
    ensures -dIncr <= 2 * (k * dBase - Rise(dBase, dIncr, k) * dIncr) < dIncr
  {
    var n := 2 * k * dBase + dIncr;
    var q := n / (2 * dIncr);
    assert n == q * (2 * dIncr) + n % (2 * dIncr);
    assert 2 * (k * dBase - q * dIncr) == n % (2 * dIncr) - dIncr;
  }

  /** Any r within half a pixel of the ideal line is the rounded rise. */
  lemma RiseUnique(dBase: int, dIncr: int, k: int, r: int)
    requires dIncr > 0
    requires -dIncr <= 2 * (k * dBase - r * dIncr) < dIncr
    ensures r == Rise(dBase, dIncr, k)
  {
    DivUnique(2 * k * dBase + dIncr, 2 * dIncr, r);
  }

  /** Per step of the iterated coordinate the base coordinate rises by 0 or by 1. */
  lemma RiseStep(dBase: int, dIncr: int, k: int)
    requires 0 <= dBase <= dIncr && dIncr > 0
    ensures 0 <= Rise(dBase, dIncr, k + 1) - Rise(dBase, dIncr, k) <= 1
  {
    var q, q' := Rise(dBase, dIncr, k), Rise(dBase, dIncr, k + 1);
    RiseNearIdeal(dBase, dIncr, k);
    RiseNearIdeal(dBase, dIncr, k + 1);
    var a, a' := q * dIncr, q' * dIncr;
    assert (k + 1) * dBase == k * dBase + dBase;
    assert a' - a < 2 * dIncr;
    assert a' - a > -dIncr;
    assert (q' - q) * dIncr == a' - a;
    CancelFactor(q' - q, 2, dIncr);
    CancelFactor(-1, q' - q, dIncr);
  }

  /** The line starts at the lower endpoint's row and ends at the upper's, and keeps between them. */
  lemma {:induction false} RiseRange(dBase: int, dIncr: int, k: int)
    requires 0 <= dBase <= dIncr && dIncr > 0 && 0 <= k <= dIncr
    ensures 0 <= Rise(dBase, dIncr, k) <= dBase
    ensures k == 0 ==> Rise(dBase, dIncr, k) == 0
    ensures k == dIncr ==> Rise(dBase, dIncr, k) == dBase
  {
    if k == 0 {
      RiseUnique(dBase, dIncr, 0, 0);
    } else {
      RiseRange(dBase, dIncr, k - 1);
      RiseStep(dBase, dIncr, k - 1);
      RiseNearIdeal(dBase, dIncr, k);
      var q := Rise(dBase, dIncr, k);
      MulLeft(k, dIncr, dBase);
      assert (dBase + 1) * dIncr == dIncr * dBase + dIncr;
      assert q * dIncr < (dBase + 1) * dIncr;
      CancelFactor(q, dBase + 1, dIncr);
      if k == dIncr {
        RiseUnique(dBase, dIncr, k, dBase);
      }
    }
  }

  lemma MulLeft(k: int, dIncr: int, dBase: int)
    requires 0 <= k <= dIncr && dBase >= 0
    ensures k * dBase <= dIncr * dBase
  {
  }

  /** Undoes the reflection of a negative slope: rows are mirrored about lower's row. */
  function Reflect(f: Frame, y: int): int
  {
    if f.negative then 2 * f.lower.y - y else y
  }

  /**
   * The cell plotted at step k (iterated coordinate incrLow + k) with base
   * offset d: 0 for the main cell, 1 for the antialiasing neighbour.
   */
  function Cell(f: Frame, k: int, d: int): Pixel
  {
    var b := f.base0 + Rise(f.dBase, f.dIncr, k) + d;
    if f.steep then Pixel(b, Reflect(f, f.incrLow + k)) else Pixel(f.incrLow + k, Reflect(f, b))
  }

  /** The value of a cell after one plot. */
  lemma ShadeOne(p: Plot, c: Pixel, d: real)
    ensures Shade([p], c, d) == if p.at == c then p.shade else d
  {
    assert [p][..0] == [];
  }

  /** The value of a cell after two plots: the later one wins. */
  lemma ShadeTwo(p0: Plot, p1: Plot, c: Pixel, d: real)
    ensures Shade([p0, p1], c, d) == if p1.at == c then p1.shade else if p0.at == c then p0.shade else d
  {
    assert [p0, p1][..1] == [p0];
    ShadeOne(p0, c, d);
  }

  /** The two cells of step k once its rise r is known. */
  lemma CellsAt(f: Frame, k: int, r: int)
    requires r == Rise(f.dBase, f.dIncr, k)
    ensures Cell(f, k, 0) == if f.steep then Pixel(f.base0 + r, Reflect(f, f.incrLow + k))
                             else Pixel(f.incrLow + k, Reflect(f, f.base0 + r))
    ensures Cell(f, k, 1) == if f.steep then Pixel(f.base0 + r + 1, Reflect(f, f.incrLow + k))
                             else Pixel(f.incrLow + k, Reflect(f, f.base0 + r + 1))
  {
  }

  /**
   * The antialiasing intensity: float_base - base, that is the slope dy/dx
   * on a mild line and 1/slope = dx/dy on a steep one, in both cases
   * dBase / dIncr.
   */
  function Intensity(f: Frame): real
  {
    if f.dIncr == 0 then 0.0 else (f.dBase as real) / (f.dIncr as real)
  }

  /** The plotPoint calls of step k: two shaded cells on an antialiased interior step, else one full cell. */
  function StepPlots(f: Frame, antialias: bool, k: int): seq<Plot>
  {
    if antialias && k != 0 && k != f.dIncr then
      [Plot(Cell(f, k, 0), 1.0 - Intensity(f)), Plot(Cell(f, k, 1), Intensity(f))]
    else
      [Plot(Cell(f, k, 0), 1.0)]
  }

  /** The plotPoint calls of the first k steps, in order. */
  function Traced(f: Frame, antialias: bool, k: nat): seq<Plot>
  {
    if k == 0 then [] else Traced(f, antialias, k - 1) + StepPlots(f, antialias, k - 1)
  }

  /** All plotPoint calls bresenhamRasterize(v1, v2, antialias) makes: none if an endpoint is off the grid. */
  function LineWrites(xres: int, yres: int, v1: Pixel, v2: Pixel, antialias: bool): seq<Plot>
  {
    if !InBound(xres, yres, v1) || !InBound(xres, yres, v2) then []
    else
      var f := Orient(v1, v2);
      Traced(f, antialias, f.dIncr + 1)
  }

  /** The grid value of cell c after the plots ws, starting from d: the last shade written to c. */
  function Shade(ws: seq<Plot>, c: Pixel, d: real): real
  {
    if ws == [] then d
    else if ws[|ws| - 1].at == c then ws[|ws| - 1].shade
    else Shade(ws[..|ws| - 1], c, d)
  }

  lemma ShadeAppend(ws: seq<Plot>, p: Plot, c: Pixel, d: real)
    ensures Shade(ws + [p], c, d) == if p.at == c then p.shade else Shade(ws, c, d)
  {
    assert (ws + [p])[..|ws|] == ws;
  }

  /** Plotting ws1 and then ws2 is plotting ws2 over the grid ws1 left. */
  lemma {:induction false} ShadeConcat(ws1: seq<Plot>, ws2: seq<Plot>, c: Pixel, d: real)
    ensures Shade(ws1 + ws2, c, d) == Shade(ws2, c, Shade(ws1, c, d))
    decreases |ws2|
  {
    if ws2 == [] {
      assert ws1 + ws2 == ws1;
    } else {
      var init, last := ws2[..|ws2| - 1], ws2[|ws2| - 1];
      assert ws1 + ws2 == (ws1 + init) + [last];
      assert ws2 == init + [last];
      ShadeAppend(ws1 + init, last, c, d);
      ShadeAppend(init, last, c, Shade(ws1, c, d));
      ShadeConcat(ws1, init, c, d);
    }
  }

  /** A cell that no plot names keeps its value. */
  lemma {:induction false} ShadeUntouched(ws: seq<Plot>, c: Pixel, d: real)
    requires forall i | 0 <= i < |ws| :: ws[i].at != c
    ensures Shade(ws, c, d) == d
  {
    if ws != [] {
      ShadeUntouched(ws[..|ws| - 1], c, d);
    }
  }

  predicate ShadesInUnit(ws: seq<Plot>) {
    forall i | 0 <= i < |ws| :: 0.0 <= ws[i].shade <= 1.0
  }

  /** Shades in [0, 1] over a value in [0, 1] leave a value in [0, 1]. */
  lemma {:induction false} ShadeInUnit(ws: seq<Plot>, c: Pixel, d: real)
    requires ShadesInUnit(ws) && 0.0 <= d <= 1.0
    ensures 0.0 <= Shade(ws, c, d) <= 1.0
  {
    if ws != [] {
      ShadeInUnit(ws[..|ws| - 1], c, d);
    }
  }

  /** Without antialiasing step k plots exactly its main cell, at full shade. */
  lemma {:induction false} TracedPlain(f: Frame, k: nat)
    ensures |Traced(f, false, k)| == k
    ensures forall i | 0 <= i < k :: Traced(f, false, k)[i] == Plot(Cell(f, i, 0), 1.0)
  {
    if k > 0 {
      TracedPlain(f, k - 1);
    }
  }

  /** Every shade the loop writes lies in [0, 1], antialiased or not. */
  lemma {:induction false} TracedShadesInUnit(f: Frame, antialias: bool, k: nat)
    requires 0 <= f.dBase <= f.dIncr
    ensures ShadesInUnit(Traced(f, antialias, k))
  {
    if k > 0 {
      TracedShadesInUnit(f, antialias, k - 1);
      if f.dIncr > 0 {
        IntensityInUnit(f.dBase, f.dIncr);
      }
    }
  }

  lemma IntensityInUnit(dBase: int, dIncr: int)
    requires 0 <= dBase <= dIncr && dIncr > 0
    ensures 0.0 <= (dBase as real) / (dIncr as real) <= 1.0
  {
    QuotientInUnit(dBase as real, dIncr as real);
  }

  lemma QuotientInUnit(a: real, d: real)
    requires 0.0 <= a <= d && d > 0.0
    ensures 0.0 <= a / d <= 1.0
  {
  }

  /** All writes of a segment lie in [0, 1], so the grid keeps its cells in [0, 1]. */
  lemma LineShadesInUnit(xres: int, yres: int, v1: Pixel, v2: Pixel, antialias: bool)
    ensures ShadesInUnit(LineWrites(xres, yres, v1, v2, antialias))
  {
    var f := Orient(v1, v2);
    TracedShadesInUnit(f, antialias, f.dIncr + 1);
  }

  /** A segment with an endpoint off the grid writes nothing. */
  lemma OffGridWritesNothing(xres: int, yres: int, v1: Pixel, v2: Pixel, antialias: bool)
    requires !InBound(xres, yres, v1) || !InBound(xres, yres, v2)
    ensures forall c: Pixel, d: real :: Shade(LineWrites(xres, yres, v1, v2, antialias), c, d) == d
  {
  }

  /** The main cell of step k lies in the bounding box of the endpoints. */
  lemma CellInBox(f: Frame, v1: Pixel, v2: Pixel, k: int)
    requires f == Orient(v1, v2) && 0 <= k <= f.dIncr
    ensures var c := Cell(f, k, 0);
      && (v1.x <= c.x <= v2.x || v2.x <= c.x <= v1.x)
      && (v1.y <= c.y <= v2.y || v2.y <= c.y <= v1.y)
  {
    if f.dIncr > 0 {
      RiseRange(f.dBase, f.dIncr, k);
    }
  }

  /** The first main cell is the lower endpoint, the last the upper one. */
  lemma Endpoints(f: Frame, v1: Pixel, v2: Pixel)
    requires f == Orient(v1, v2)
    ensures Cell(f, 0, 0) == f.lower
    ensures Cell(f, f.dIncr, 0) == f.upper
  {
    if f.dIncr > 0 {
      RiseRange(f.dBase, f.dIncr, 0);
      RiseRange(f.dBase, f.dIncr, f.dIncr);
    }
  }

  /**
   * Without antialiasing a segment on the grid lights max(|dx|, |dy|) + 1
   * cells at full shade, one per value of the iterated coordinate, all of
   * them on the grid, the first and the last being the two endpoints.
   */
  lemma PlainLine(xres: int, yres: int, v1: Pixel, v2: Pixel)
    requires InBound(xres, yres, v1) && InBound(xres, yres, v2)
    ensures var ws := LineWrites(xres, yres, v1, v2, false); var f := Orient(v1, v2);
      && |ws| == Max(Abs(v2.x - v1.x), Abs(v2.y - v1.y)) + 1
      && (forall i | 0 <= i < |ws| :: ws[i] == Plot(Cell(f, i, 0), 1.0) && InBound(xres, yres, ws[i].at))
      && (forall i | 0 <= i < |ws| ::
            if f.steep then ws[i].at.y == Reflect(f, f.lower.y + i) else ws[i].at.x == f.lower.x + i)
      && {ws[0].at, ws[|ws| - 1].at} == {v1, v2}
  {
    var f := Orient(v1, v2);
    TracedPlain(f, f.dIncr + 1);
    Endpoints(f, v1, v2);
    forall i | 0 <= i <= f.dIncr
      ensures InBound(xres, yres, Cell(f, i, 0))
    {
      CellInBox(f, v1, v2, i);
    }
  }

  /** In the frame, the base coordinate of the main cells never decreases and rises by at most one per step. */
  lemma MainCellsStep(f: Frame, v1: Pixel, v2: Pixel, k: int)
    requires f == Orient(v1, v2) && 0 <= k < f.dIncr
    ensures var c, c' := Cell(f, k, 0), Cell(f, k + 1, 0);
      if f.steep then c'.x - c.x in {0, 1} && Reflect(f, c'.y) == Reflect(f, c.y) + 1
      else c'.x == c.x + 1 && Reflect(f, c'.y) - Reflect(f, c.y) in {0, 1}
  {
    RiseStep(f.dBase, f.dIncr, k);
  }

  /** A vertical segment is steep and keeps its column. */
  lemma VerticalLine(v1: Pixel, v2: Pixel, k: int)
    requires v1.x == v2.x && v1.y != v2.y && 0 <= k <= Orient(v1, v2).dIncr
    ensures Orient(v1, v2).steep
    ensures Cell(Orient(v1, v2), k, 0).x == v1.x
  {
    var f := Orient(v1, v2);
    RiseRange(f.dBase, f.dIncr, k);
  }

  /** With distinct columns the endpoints are ordered the same way either way round, so the writes are the same. */
  lemma SwapSymmetric(xres: int, yres: int, v1: Pixel, v2: Pixel, antialias: bool)
    requires v1.x != v2.x
    ensures LineWrites(xres, yres, v1, v2, antialias) == LineWrites(xres, yres, v2, v1, antialias)
  {
    assert Orient(v1, v2) == Orient(v2, v1);
  }

  /**
   * With antialiasing an interior step writes its main cell with 1 - m and
   * the next cell along the base axis with m, m = dBase / dIncr being the
   * same on every step; the two endpoints are written with 1.
   */
  lemma AntialiasedSteps(f: Frame, v1: Pixel, v2: Pixel, k: int)
    requires f == Orient(v1, v2) && 0 <= k <= f.dIncr
    ensures var ps := StepPlots(f, true, k);
      if k == 0 || k == f.dIncr then ps == [Plot(Cell(f, k, 0), 1.0)]
      else
        && |ps| == 2 && ps[0].shade == 1.0 - Intensity(f) && ps[1].shade == Intensity(f)
        && 0.0 <= Intensity(f) <= 1.0
        && (if f.steep then ps[1].at == Pixel(ps[0].at.x + 1, ps[0].at.y)
            else ps[1].at.x == ps[0].at.x && Abs(ps[1].at.y - ps[0].at.y) == 1)
  {
    if f.dIncr > 0 {
      IntensityInUnit(f.dBase, f.dIncr);
    }
  }

  /** A horizontal segment, such as (0,5)-(10,5), lights every cell between its ends in its row. */
  lemma HorizontalLine(xres: int, yres: int, x0: int, n: nat, y: int)
    requires InBound(xres, yres, Pixel(x0, y)) && InBound(xres, yres, Pixel(x0 + n, y))
    ensures var ws := LineWrites(xres, yres, Pixel(x0, y), Pixel(x0 + n, y), false);
      |ws| == n + 1 && forall i | 0 <= i <= n :: ws[i] == Plot(Pixel(x0 + i, y), 1.0)
  {
    var v1, v2 := Pixel(x0, y), Pixel(x0 + n, y);
    PlainLine(xres, yres, v1, v2);
    var f := Orient(v1, v2);
    forall i | 0 <= i <= n
      ensures Cell(f, i, 0) == Pixel(x0 + i, y)
    {
      if n > 0 {
        RiseUnique(0, n, i, 0);
        assert Rise(f.dBase, f.dIncr, i) == 0;
      }
    }
  }

  /** A diagonal segment, such as (0,0)-(5,5), lights the cells of the diagonal. */
  lemma DiagonalLine(xres: int, yres: int, x0: int, y0: int, n: nat)
    requires InBound(xres, yres, Pixel(x0, y0)) && InBound(xres, yres, Pixel(x0 + n, y0 + n))
    ensures var ws := LineWrites(xres, yres, Pixel(x0, y0), Pixel(x0 + n, y0 + n), false);
      |ws| == n + 1 && forall i | 0 <= i <= n :: ws[i] == Plot(Pixel(x0 + i, y0 + i), 1.0)
  {
    var v1, v2 := Pixel(x0, y0), Pixel(x0 + n, y0 + n);
    PlainLine(xres, yres, v1, v2);
    var f := Orient(v1, v2);
    forall i | 0 <= i <= n
      ensures Cell(f, i, 0) == Pixel(x0 + i, y0 + i)
    {
      if n > 0 {
        RiseUnique(n, n, i, i);
        assert Rise(f.dBase, f.dIncr, i) == i;
      }
    }
  }
}
