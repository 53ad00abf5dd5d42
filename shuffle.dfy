/**
 * The blur of shuffle_pattern (imgsmlr.c: shuffle, shuffle_pattern): every
 * detail quadrant of side 32, 16, 8 and 4 of a transformed pattern is blurred
 * with radius side / 4, each cell becoming the weighted root mean square of
 * the cells of its window, where the window is clamped to the quadrant and the
 * weight of a cell falls linearly with its distance from the centre.
 */
module Shuffle {
  import opened Types
  import opened Grid
  import opened Wavelet

  // ---------------------------------------------------------------- the window of a cell

  /** First row (or column) of the window of row i in a block starting at x: Max(x, i - w). */
  function WindowLo(x: int, i: int, w: int): int
  {
    IntMax(x, i - w)
  }

  /** One past the last row of the window: Min(x + sX, i + w + 1). */
  function WindowHi(x: int, sX: int, i: int, w: int): int
  {
    IntMin(x + sX, i + w + 1)
  }

  /** The window stays inside the block and within distance w of the centre, which it contains. */
  lemma WindowBounds(x: int, sX: int, i: int, w: int)
    requires x <= i < x + sX && w >= 0
    ensures x <= WindowLo(x, i, w) <= i < WindowHi(x, sX, i, w) <= x + sX
    ensures i - w <= WindowLo(x, i, w) && WindowHi(x, sX, i, w) <= i + w + 1
  {
  }

  /** The weight of a cell at offset (di, dj) from the centre: 1 - sqrt(di^2 + dj^2) / w. */
  function Closeness(sqrt: real -> real, w: int, di: int, dj: int): real
    requires w >= 1
  {
    1.0 - Root(sqrt, (di as real) * (di as real) + (dj as real) * (dj as real)) / (w as real)
  }

  /** What cell (ii, jj) adds to sum_r: its weight, or nothing when that is not positive. */
  function Share(sqrt: real -> real, w: int, i: int, j: int, ii: int, jj: int): real
    requires w >= 1
  {
    var r := Closeness(sqrt, w, i - ii, j - jj);
    if r <= 0.0 then 0.0 else r
  }

  /** What cell (ii, jj) adds to sum: its squared value times its weight, or nothing. */
  function Mass(s: Grid, sqrt: real -> real, w: int, i: int, j: int, ii: int, jj: int): real
    requires IsGrid(s) && w >= 1 && 0 <= ii < PatternSize && 0 <= jj < PatternSize
  {
    var r := Closeness(sqrt, w, i - ii, j - jj);
    if r <= 0.0 then 0.0 else At(s, ii, jj) * At(s, ii, jj) * r
  }

  /** sum_r over columns lo .. hi - 1 of row ii. */
  function RowShare(sqrt: real -> real, w: int, i: int, j: int, ii: int, lo: int, hi: int): real
    requires w >= 1 && lo <= hi
    decreases hi - lo
  {
    if hi == lo then 0.0 else RowShare(sqrt, w, i, j, ii, lo, hi - 1) + Share(sqrt, w, i, j, ii, hi - 1)
  }

  /** sum over columns lo .. hi - 1 of row ii. */
  function RowMass(s: Grid, sqrt: real -> real, w: int, i: int, j: int, ii: int, lo: int, hi: int): real
    requires IsGrid(s) && w >= 1 && 0 <= ii < PatternSize && 0 <= lo <= hi <= PatternSize
    decreases hi - lo
  {
    if hi == lo then 0.0 else RowMass(s, sqrt, w, i, j, ii, lo, hi - 1) + Mass(s, sqrt, w, i, j, ii, hi - 1)
  }

  /** sum_r over rows iLo .. iHi - 1 and columns jLo .. jHi - 1, row by row. */
  function WindowShare(sqrt: real -> real, w: int, i: int, j: int, iLo: int, iHi: int, jLo: int, jHi: int): real
    requires w >= 1 && iLo <= iHi && jLo <= jHi
    decreases iHi - iLo
  {
    if iHi == iLo then 0.0
    else WindowShare(sqrt, w, i, j, iLo, iHi - 1, jLo, jHi) + RowShare(sqrt, w, i, j, iHi - 1, jLo, jHi)
  }

  /** sum over rows iLo .. iHi - 1 and columns jLo .. jHi - 1, row by row. */
  function WindowMass(s: Grid, sqrt: real -> real, w: int, i: int, j: int, iLo: int, iHi: int, jLo: int, jHi: int): real
    requires IsGrid(s) && w >= 1 && 0 <= iLo <= iHi <= PatternSize && 0 <= jLo <= jHi <= PatternSize
    decreases iHi - iLo
  {
    if iHi == iLo then 0.0
    else WindowMass(s, sqrt, w, i, j, iLo, iHi - 1, jLo, jHi) + RowMass(s, sqrt, w, i, j, iHi - 1, jLo, jHi)
  }

  /** One more column in a row. */
  lemma RowStep(s: Grid, sqrt: real -> real, w: int, i: int, j: int, ii: int, lo: int, hi: int)
    requires IsGrid(s) && w >= 1 && 0 <= ii < PatternSize && 0 <= lo <= hi < PatternSize
    ensures RowMass(s, sqrt, w, i, j, ii, lo, hi + 1) == RowMass(s, sqrt, w, i, j, ii, lo, hi) + Mass(s, sqrt, w, i, j, ii, hi)
    ensures RowShare(sqrt, w, i, j, ii, lo, hi + 1) == RowShare(sqrt, w, i, j, ii, lo, hi) + Share(sqrt, w, i, j, ii, hi)
  {
  }

  /** One more row in a window. */
  lemma WindowStep(s: Grid, sqrt: real -> real, w: int, i: int, j: int, iLo: int, iHi: int, jLo: int, jHi: int)
    requires IsGrid(s) && w >= 1 && 0 <= iLo <= iHi < PatternSize && 0 <= jLo <= jHi <= PatternSize
    ensures WindowMass(s, sqrt, w, i, j, iLo, iHi + 1, jLo, jHi)
      == WindowMass(s, sqrt, w, i, j, iLo, iHi, jLo, jHi) + RowMass(s, sqrt, w, i, j, iHi, jLo, jHi)
    ensures WindowShare(sqrt, w, i, j, iLo, iHi + 1, jLo, jHi)
      == WindowShare(sqrt, w, i, j, iLo, iHi, jLo, jHi) + RowShare(sqrt, w, i, j, iHi, jLo, jHi)
  {
  }

  // ---------------------------------------------------------------- the two assertions of shuffle

  /** The centre has weight 1 (the square root of 0 being 0). */
  lemma CentreShare(sqrt: real -> real, w: int, i: int, j: int)
    requires w >= 1 && sqrt(0.0) == 0.0
    ensures Share(sqrt, w, i, j, i, j) == 1.0
  {
    assert (i - i) * (i - i) + (j - j) * (j - j) == 0;
  }

  lemma {:induction false} RowShareProps(sqrt: real -> real, w: int, i: int, j: int, ii: int, lo: int, hi: int)
    requires w >= 1 && lo <= hi
    decreases hi - lo
    ensures RowShare(sqrt, w, i, j, ii, lo, hi) >= 0.0
    ensures sqrt(0.0) == 0.0 && ii == i && lo <= j < hi ==> RowShare(sqrt, w, i, j, ii, lo, hi) >= 1.0
  {
    if hi > lo {
      RowShareProps(sqrt, w, i, j, ii, lo, hi - 1);
      if sqrt(0.0) == 0.0 && ii == i && j == hi - 1 {
        CentreShare(sqrt, w, i, j);
      }
    }
  }

  /** sum_r is never negative, and at least 1 when the window holds the centre (shuffle's `sum_r > 0` assertion). */
  lemma {:induction false} WindowShareProps(sqrt: real -> real, w: int, i: int, j: int, iLo: int, iHi: int, jLo: int, jHi: int)
    requires w >= 1 && iLo <= iHi && jLo <= jHi
    decreases iHi - iLo
    ensures WindowShare(sqrt, w, i, j, iLo, iHi, jLo, jHi) >= 0.0
    ensures sqrt(0.0) == 0.0 && iLo <= i < iHi && jLo <= j < jHi ==> WindowShare(sqrt, w, i, j, iLo, iHi, jLo, jHi) >= 1.0
  {
    if iHi > iLo {
      WindowShareProps(sqrt, w, i, j, iLo, iHi - 1, jLo, jHi);
      RowShareProps(sqrt, w, i, j, iHi - 1, jLo, jHi);
    }
  }

  lemma {:induction false} RowMassNonNeg(s: Grid, sqrt: real -> real, w: int, i: int, j: int, ii: int, lo: int, hi: int)
    requires IsGrid(s) && w >= 1 && 0 <= ii < PatternSize && 0 <= lo <= hi <= PatternSize
    decreases hi - lo
    ensures RowMass(s, sqrt, w, i, j, ii, lo, hi) >= 0.0
  {
    if hi > lo {
      RowMassNonNeg(s, sqrt, w, i, j, ii, lo, hi - 1);
      var v, r := At(s, ii, hi - 1), Closeness(sqrt, w, i - ii, j - (hi - 1));
      if r > 0.0 {
        SqNonNeg(v);
        NonNegMul(v * v, r);
      }
    }
  }

  /** sum is never negative (shuffle's `sum >= 0` assertion). */
  lemma {:induction false} WindowMassNonNeg(s: Grid, sqrt: real -> real, w: int, i: int, j: int, iLo: int, iHi: int, jLo: int, jHi: int)
    requires IsGrid(s) && w >= 1 && 0 <= iLo <= iHi <= PatternSize && 0 <= jLo <= jHi <= PatternSize
    decreases iHi - iLo
    ensures WindowMass(s, sqrt, w, i, j, iLo, iHi, jLo, jHi) >= 0.0
  {
    if iHi > iLo {
      WindowMassNonNeg(s, sqrt, w, i, j, iLo, iHi - 1, jLo, jHi);
      RowMassNonNeg(s, sqrt, w, i, j, iHi - 1, jLo, jHi);
    }
  }

  // ---------------------------------------------------------------- the blurred value

  /** The value shuffle writes to dst[i][j]: sqrt(sum / sum_r) over the window of (i, j). */
  function Blurred(s: Grid, sqrt: real -> real, x: int, y: int, sX: int, sY: int, w: int, i: int, j: int): real
    requires IsGrid(s) && InBlock(x, y, sX, sY) && w >= 1 && sqrt(0.0) == 0.0
    requires x <= i < x + sX && y <= j < y + sY
  {
    WindowBounds(x, sX, i, w);
    WindowBounds(y, sY, j, w);
    WindowShareProps(sqrt, w, i, j, WindowLo(x, i, w), WindowHi(x, sX, i, w), WindowLo(y, j, w), WindowHi(y, sY, j, w));
    Root(sqrt, WindowMass(s, sqrt, w, i, j, WindowLo(x, i, w), WindowHi(x, sX, i, w), WindowLo(y, j, w), WindowHi(y, sY, j, w))
             / WindowShare(sqrt, w, i, j, WindowLo(x, i, w), WindowHi(x, sX, i, w), WindowLo(y, j, w), WindowHi(y, sY, j, w)))
  }

  lemma {:induction false} RowMassLocal(s: Grid, s': Grid, sqrt: real -> real, w: int, i: int, j: int, ii: int, lo: int, hi: int)
    requires IsGrid(s) && IsGrid(s') && w >= 1 && 0 <= ii < PatternSize && 0 <= lo <= hi <= PatternSize
    requires forall jj :: lo <= jj < hi ==> At(s, ii, jj) == At(s', ii, jj)
    decreases hi - lo
    ensures RowMass(s, sqrt, w, i, j, ii, lo, hi) == RowMass(s', sqrt, w, i, j, ii, lo, hi)
  {
    if hi > lo {
      RowMassLocal(s, s', sqrt, w, i, j, ii, lo, hi - 1);
    }
  }

  /** Two grids that agree on a rectangle give it the same sum. */
  lemma {:induction false} WindowMassLocal(s: Grid, s': Grid, sqrt: real -> real, w: int, i: int, j: int, iLo: int, iHi: int, jLo: int, jHi: int)
    requires IsGrid(s) && IsGrid(s') && w >= 1 && 0 <= iLo <= iHi <= PatternSize && 0 <= jLo <= jHi <= PatternSize
    requires forall ii, jj :: iLo <= ii < iHi && jLo <= jj < jHi ==> At(s, ii, jj) == At(s', ii, jj)
    decreases iHi - iLo
    ensures WindowMass(s, sqrt, w, i, j, iLo, iHi, jLo, jHi) == WindowMass(s', sqrt, w, i, j, iLo, iHi, jLo, jHi)
  {
    if iHi > iLo {
      WindowMassLocal(s, s', sqrt, w, i, j, iLo, iHi - 1, jLo, jHi);
      RowMassLocal(s, s', sqrt, w, i, j, iHi - 1, jLo, jHi);
    }
  }

  /**
   * shuffle reads only the block-clamped window of a cell: two sources that
   * agree on the cells within distance w of (i, j) inside the block give
   * (i, j) the same blurred value.
   */
  lemma BlurredLocal(s: Grid, s': Grid, sqrt: real -> real, x: int, y: int, sX: int, sY: int, w: int, i: int, j: int)
    requires IsGrid(s) && IsGrid(s') && InBlock(x, y, sX, sY) && w >= 1 && sqrt(0.0) == 0.0
    requires x <= i < x + sX && y <= j < y + sY
    requires forall ii, jj :: x <= ii < x + sX && y <= jj < y + sY && i - w <= ii <= i + w && j - w <= jj <= j + w ==>
      At(s, ii, jj) == At(s', ii, jj)
    ensures Blurred(s, sqrt, x, y, sX, sY, w, i, j) == Blurred(s', sqrt, x, y, sX, sY, w, i, j)
  {
    WindowBounds(x, sX, i, w);
    WindowBounds(y, sY, j, w);
    WindowMassLocal(s, s', sqrt, w, i, j, WindowLo(x, i, w), WindowHi(x, sX, i, w), WindowLo(y, j, w), WindowHi(y, sY, j, w));
  }

  lemma {:induction false} ZeroRowMass(s: Grid, sqrt: real -> real, w: int, i: int, j: int, ii: int, lo: int, hi: int)
    requires IsGrid(s) && w >= 1 && 0 <= ii < PatternSize && 0 <= lo <= hi <= PatternSize
    requires forall jj :: lo <= jj < hi ==> At(s, ii, jj) == 0.0
    decreases hi - lo
    ensures RowMass(s, sqrt, w, i, j, ii, lo, hi) == 0.0
  {
    if hi > lo {
      ZeroRowMass(s, sqrt, w, i, j, ii, lo, hi - 1);
    }
  }

  lemma {:induction false} ZeroWindowMass(s: Grid, sqrt: real -> real, w: int, i: int, j: int, iLo: int, iHi: int, jLo: int, jHi: int)
    requires IsGrid(s) && w >= 1 && 0 <= iLo <= iHi <= PatternSize && 0 <= jLo <= jHi <= PatternSize
    requires forall ii, jj :: iLo <= ii < iHi && jLo <= jj < jHi ==> At(s, ii, jj) == 0.0
    decreases iHi - iLo
    ensures WindowMass(s, sqrt, w, i, j, iLo, iHi, jLo, jHi) == 0.0
  {
    if iHi > iLo {
      ZeroWindowMass(s, sqrt, w, i, j, iLo, iHi - 1, jLo, jHi);
      ZeroRowMass(s, sqrt, w, i, j, iHi - 1, jLo, jHi);
    }
  }

  /** A block that is all zero stays all zero. */
  lemma ZeroBlur(s: Grid, sqrt: real -> real, x: int, y: int, sX: int, sY: int, w: int, i: int, j: int)
    requires IsGrid(s) && InBlock(x, y, sX, sY) && w >= 1 && sqrt(0.0) == 0.0
    requires x <= i < x + sX && y <= j < y + sY
    requires forall ii, jj :: x <= ii < x + sX && y <= jj < y + sY ==> At(s, ii, jj) == 0.0
    ensures Blurred(s, sqrt, x, y, sX, sY, w, i, j) == 0.0
  {
    WindowBounds(x, sX, i, w);
    WindowBounds(y, sY, j, w);
    ZeroWindowMass(s, sqrt, w, i, j, WindowLo(x, i, w), WindowHi(x, sX, i, w), WindowLo(y, j, w), WindowHi(y, sY, j, w));
    WindowShareProps(sqrt, w, i, j, WindowLo(x, i, w), WindowHi(x, sX, i, w), WindowLo(y, j, w), WindowHi(y, sY, j, w));
    ZeroRatio(WindowShare(sqrt, w, i, j, WindowLo(x, i, w), WindowHi(x, sX, i, w), WindowLo(y, j, w), WindowHi(y, sY, j, w)));
  }

  // ---------------------------------------------------------------- shuffle

  /** What cell (ii, jj) adds to sum and to sum_r; both are 0 when its weight is not positive. */
  method CellTerms(src: array2<real>, sqrt: real -> real, w: int, i: int, j: int, ii: int, jj: int)
    returns (m: real, r: real)
    requires IsPattern(src) && w >= 1 && 0 <= ii < PatternSize && 0 <= jj < PatternSize
    ensures m == Mass(Snap(src), sqrt, w, i, j, ii, jj) && r == Share(sqrt, w, i, j, ii, jj)
  {
    r := Closeness(sqrt, w, i - ii, j - jj);
    if r <= 0.0 {
      m, r := 0.0, 0.0;
    } else {
      m := src[ii, jj] * src[ii, jj] * r;
    }
  }

  /** The innermost loop of shuffle: adds row ii of the window, columns lo .. hi - 1, to sum and sum_r. */
  method AddRow(src: array2<real>, sqrt: real -> real, w: int, i: int, j: int, ii: int, lo: int, hi: int,
                sum0: real, sumR0: real)
    returns (sum: real, sumR: real)
    requires IsPattern(src) && w >= 1 && 0 <= ii < PatternSize && 0 <= lo <= hi <= PatternSize
    ensures sum == sum0 + RowMass(Snap(src), sqrt, w, i, j, ii, lo, hi)
    ensures sumR == sumR0 + RowShare(sqrt, w, i, j, ii, lo, hi)
  {
    ghost var s := Snap(src);
    sum, sumR := sum0, sumR0;
    var jj := lo;
    while jj < hi
      invariant lo <= jj <= hi
      invariant sum == sum0 + RowMass(s, sqrt, w, i, j, ii, lo, jj)
      invariant sumR == sumR0 + RowShare(sqrt, w, i, j, ii, lo, jj)
    {
      var m, r := CellTerms(src, sqrt, w, i, j, ii, jj);
      RowStep(s, sqrt, w, i, j, ii, lo, jj);
      sum, sumR := sum + m, sumR + r;
      jj := jj + 1;
    }
  }

  /** The two inner loops of shuffle: sum and sum_r over the window of cell (i, j), clamped to the block. */
  method WindowSums(src: array2<real>, sqrt: real -> real, x: int, y: int, sX: int, sY: int, w: int, i: int, j: int)
    returns (sum: real, sumR: real)
    requires IsPattern(src) && InBlock(x, y, sX, sY) && w >= 1
    requires x <= i < x + sX && y <= j < y + sY
    ensures 0 <= WindowLo(x, i, w) <= WindowHi(x, sX, i, w) <= PatternSize
    ensures 0 <= WindowLo(y, j, w) <= WindowHi(y, sY, j, w) <= PatternSize
    ensures sum == WindowMass(Snap(src), sqrt, w, i, j, WindowLo(x, i, w), WindowHi(x, sX, i, w), WindowLo(y, j, w), WindowHi(y, sY, j, w))
    ensures sumR == WindowShare(sqrt, w, i, j, WindowLo(x, i, w), WindowHi(x, sX, i, w), WindowLo(y, j, w), WindowHi(y, sY, j, w))
  {
    ghost var s := Snap(src);
    WindowBounds(x, sX, i, w);
    WindowBounds(y, sY, j, w);
    var iiMin, iiMax := IntMax(x, i - w), IntMin(x + sX, i + w + 1);
    var jjMin, jjMax := IntMax(y, j - w), IntMin(y + sY, j + w + 1);
    sum, sumR := 0.0, 0.0;
    var ii := iiMin;
    while ii < iiMax
      invariant iiMin <= ii <= iiMax
      invariant sum == WindowMass(s, sqrt, w, i, j, iiMin, ii, jjMin, jjMax)
      invariant sumR == WindowShare(sqrt, w, i, j, iiMin, ii, jjMin, jjMax)
    {
      sum, sumR := AddRow(src, sqrt, w, i, j, ii, jjMin, jjMax, sum, sumR);
      WindowStep(s, sqrt, w, i, j, iiMin, ii, jjMin, jjMax);
      ii := ii + 1;
    }
  }

  /** Cell (i, j) of the block is in the rows already done, or in row i before column j. */
  predicate Done(x: int, y: int, sY: int, i: int, j: int, p: int, q: int)
  {
    (x <= p < i && y <= q < y + sY) || (p == i && y <= q < j)
  }

  /**
   * shuffle: every cell of the block (x, y) - (x + sX, y + sY) of dst
   * becomes the blurred value of the same cell of src; no other cell of dst
   * changes, and src is only read.
   */
  method Shuffle(dst: array2<real>, src: array2<real>, x: int, y: int, sX: int, sY: int, w: int, sqrt: real -> real)
    requires IsPattern(dst) && IsPattern(src) && dst != src
    requires InBlock(x, y, sX, sY) && w >= 1 && sqrt(0.0) == 0.0
    modifies dst
    ensures forall p, q :: 0 <= p < PatternSize && 0 <= q < PatternSize ==>
      dst[p, q] == if x <= p < x + sX && y <= q < y + sY then Blurred(old(Snap(src)), sqrt, x, y, sX, sY, w, p, q) else old(dst[p, q])
  {
    ghost var s := Snap(src);
    var i := x;
    while i < x + sX
      invariant x <= i <= x + sX
      invariant Snap(src) == s
      invariant forall p, q :: 0 <= p < PatternSize && 0 <= q < PatternSize ==>
        dst[p, q] == if Done(x, y, sY, i, y, p, q) then Blurred(s, sqrt, x, y, sX, sY, w, p, q) else old(dst[p, q])
    {
      var j := y;
      while j < y + sY
        invariant y <= j <= y + sY
        invariant Snap(src) == s
        invariant forall p, q :: 0 <= p < PatternSize && 0 <= q < PatternSize ==>
          dst[p, q] == if Done(x, y, sY, i, j, p, q) then Blurred(s, sqrt, x, y, sX, sY, w, p, q) else old(dst[p, q])
      {
        var sum, sumR := WindowSums(src, sqrt, x, y, sX, sY, w, i, j);
        WindowBounds(x, sX, i, w);
        WindowBounds(y, sY, j, w);
        WindowMassNonNeg(s, sqrt, w, i, j, WindowLo(x, i, w), WindowHi(x, sX, i, w), WindowLo(y, j, w), WindowHi(y, sY, j, w));
        WindowShareProps(sqrt, w, i, j, WindowLo(x, i, w), WindowHi(x, sX, i, w), WindowLo(y, j, w), WindowHi(y, sY, j, w));
        assert sum >= 0.0 && sumR > 0.0;
        dst[i, j] := Root(sqrt, sum / sumR);
        j := j + 1;
      }
      i := i + 1;
    }
  }

  // ---------------------------------------------------------------- shuffle_pattern

  /**
   * The value shuffle_pattern leaves in cell (i, j): the 4 x 4 corner is
   * copied, every other cell is blurred within its detail quadrant, of side
   * h = RingOf(i, j), with radius h / 4.
   */
  function PatternCell(s: Grid, sqrt: real -> real, i: int, j: int): real
    requires IsGrid(s) && sqrt(0.0) == 0.0 && 0 <= i < PatternSize && 0 <= j < PatternSize
  {
    if i < 4 && j < 4 then At(s, i, j)
    else
      RingSide(i, j);
      Blurred(s, sqrt, QuadRow(Orient(i, j, RingOf(i, j)), RingOf(i, j)), QuadCol(Orient(i, j, RingOf(i, j)), RingOf(i, j)),
              RingOf(i, j), RingOf(i, j), RingOf(i, j) / 4, i, j)
  }

  /** A cell outside the 4 x 4 corner lies in a quadrant of side 4 to 32, inside the pattern. */
  lemma RingSide(i: int, j: int)
    requires 0 <= i < PatternSize && 0 <= j < PatternSize && !(i < 4 && j < 4)
    ensures 4 <= RingOf(i, j) && 2 * RingOf(i, j) <= PatternSize && RingOf(i, j) / 4 >= 1
    ensures InQuad(Orient(i, j, RingOf(i, j)), RingOf(i, j), i, j)
    ensures InBlock(QuadRow(Orient(i, j, RingOf(i, j)), RingOf(i, j)), QuadCol(Orient(i, j, RingOf(i, j)), RingOf(i, j)),
                    RingOf(i, j), RingOf(i, j))
  {
    var h := RingOf(i, j);
    if 2 * h > PatternSize {
      Pow2Gap(h, PatternSize);
    }
    RingOrient(h, i, j);
  }

  /** Within ring h, PatternCell is the blur of the cell's own quadrant. */
  lemma LevelCell(s: Grid, sqrt: real -> real, h: int, i: int, j: int)
    requires IsGrid(s) && sqrt(0.0) == 0.0 && 0 <= i < PatternSize && 0 <= j < PatternSize
    requires IsPow2(h) && 4 <= h && 2 * h <= PatternSize && h <= IntMax(i, j) < 2 * h
    ensures InBlock(QuadRow(Orient(i, j, h), h), QuadCol(Orient(i, j, h), h), h, h) && InQuad(Orient(i, j, h), h, i, j)
    ensures PatternCell(s, sqrt, i, j)
      == Blurred(s, sqrt, QuadRow(Orient(i, j, h), h), QuadCol(Orient(i, j, h), h), h, h, h / 4, i, j)
  {
    RingUnique(h, i, j);
    RingOrient(h, i, j);
  }

  /** The 4 x 4 corner, which holds the coarsest coefficients, is left as it is. */
  lemma CornerKept(s: Grid, sqrt: real -> real, i: int, j: int)
    requires IsGrid(s) && sqrt(0.0) == 0.0 && 0 <= i < 4 && 0 <= j < 4
    ensures PatternCell(s, sqrt, i, j) == At(s, i, j)
  {
  }

  /** Detail quadrants that are all zero stay zero. */
  lemma FlatDetailsKept(s: Grid, sqrt: real -> real, i: int, j: int)
    requires IsGrid(s) && sqrt(0.0) == 0.0 && 0 <= i < PatternSize && 0 <= j < PatternSize
    requires forall p, q :: 0 <= p < PatternSize && 0 <= q < PatternSize && !(p < 4 && q < 4) ==> At(s, p, q) == 0.0
    ensures PatternCell(s, sqrt, i, j) == At(s, i, j)
  {
    if !(i < 4 && j < 4) {
      RingSide(i, j);
      var h := RingOf(i, j);
      var o := Orient(i, j, h);
      ZeroBlur(s, sqrt, QuadRow(o, h), QuadCol(o, h), h, h, h / 4, i, j);
    }
  }

  /** One pass of the loop of shuffle_pattern: blur the three quadrants of side `size`. */
  method ShuffleLevel(dst: array2<real>, src: array2<real>, sqrt: real -> real, size: int, ghost s: Grid)
    requires IsPattern(dst) && IsPattern(src) && dst != src && Snap(src) == s && sqrt(0.0) == 0.0
    requires IsPow2(size) && 4 <= size && 2 * size <= PatternSize
    requires forall i, j :: 0 <= i < PatternSize && 0 <= j < PatternSize ==>
      dst[i, j] == if IntMax(i, j) >= 2 * size then PatternCell(s, sqrt, i, j) else At(s, i, j)
    modifies dst
    ensures Snap(src) == s
    ensures forall i, j :: 0 <= i < PatternSize && 0 <= j < PatternSize ==>
      dst[i, j] == if IntMax(i, j) >= size then PatternCell(s, sqrt, i, j) else At(s, i, j)
  {
    Shuffle(dst, src, size, 0, size, size, size / 4, sqrt);
    Shuffle(dst, src, 0, size, size, size, size / 4, sqrt);
    Shuffle(dst, src, size, size, size, size, size / 4, sqrt);
    forall i, j | 0 <= i < PatternSize && 0 <= j < PatternSize && size <= IntMax(i, j) < 2 * size
      ensures PatternCell(s, sqrt, i, j)
        == Blurred(s, sqrt, QuadRow(Orient(i, j, size), size), QuadCol(Orient(i, j, size), size), size, size, size / 4, i, j)
    {
      LevelCell(s, sqrt, size, i, j);
    }
  }

  /**
   * shuffle_pattern: a copy of src in which every detail quadrant of side 32
   * down to 4 is blurred; src itself is unchanged.
   */
  method ShufflePattern(src: array2<real>, sqrt: real -> real) returns (dst: array2<real>)
    requires IsPattern(src) && sqrt(0.0) == 0.0
    ensures fresh(dst) && IsPattern(dst)
    ensures forall i, j :: 0 <= i < PatternSize && 0 <= j < PatternSize ==> dst[i, j] == PatternCell(Snap(src), sqrt, i, j)
  {
    ghost var s := Snap(src);
    dst := new real[PatternSize, PatternSize]((i, j) requires 0 <= i < PatternSize && 0 <= j < PatternSize reads src => src[i, j]);
    var size := PatternSize;
    while size > 4
      invariant IsPow2(size) && 4 <= size <= PatternSize
      invariant Snap(src) == s
      invariant forall i, j :: 0 <= i < PatternSize && 0 <= j < PatternSize ==>
        dst[i, j] == if IntMax(i, j) >= size then PatternCell(s, sqrt, i, j) else At(s, i, j)
    {
      size := size / 2;
      ShuffleLevel(dst, src, sqrt, size, s);
    }
  }
}
