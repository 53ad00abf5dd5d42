/**
 * The Haar wavelet transform of a pattern (imgsmlr.c: waveletTransform).
 *
 * One call on a square of side `size` stores in `dst` the three detail
 * coefficients of every 2 x 2 block of the top-left size x size square of
 * `src`, in the quadrants of side size / 2 at (h, 0), (0, h) and (h, h);
 * overwrites the top-left quadrant of `src` with the block averages; and
 * recurses on that quadrant, until the single remaining average is copied to
 * dst[0][0].
 *
 * The specification is out of place: `Shrink` is one averaging pass,
 * `Level` the contents of src when the recursion reaches a side, and
 * `Coefficient` the value each dst cell ends with.
 */
module Wavelet {
  import opened Types
  import opened Grid

  // ---------------------------------------------------------------- one 2 x 2 block

  /** The average of a block (a, b, c, d) = (src[2i][2j], src[2i+1][2j], src[2i][2j+1], src[2i+1][2j+1]). */
  function Average(a: real, b: real, c: real, d: real): real
  {
    (a + b + c + d) / 4.0
  }

  /**
   * The detail of orientation o of the same block: 0 is stored at
   * dst[i + size][j], 1 at dst[i][j + size], 2 at dst[i + size][j + size].
   */
  function Detail(o: int, a: real, b: real, c: real, d: real): real
  {
    if o == 0 then (-a + b - c + d) / 4.0
    else if o == 1 then (-a - b + c + d) / 4.0
    else (a - b - c + d) / 4.0
  }

  /** The cell (x, y) of a 2 x 2 block, rebuilt from the block's average and its three details. */
  function Recover(x: int, y: int, avg: real, d0: real, d1: real, d2: real): real
  {
    if x == 0 && y == 0 then avg - d0 - d1 + d2
    else if x == 1 && y == 0 then avg + d0 - d1 - d2
    else if x == 0 then avg - d0 + d1 - d2
    else avg + d0 + d1 + d2
  }

  /** One level of the transform loses nothing: the average and the three details give back the block. */
  lemma BlockInvertible(a: real, b: real, c: real, d: real)
    ensures Recover(0, 0, Average(a, b, c, d), Detail(0, a, b, c, d), Detail(1, a, b, c, d), Detail(2, a, b, c, d)) == a
    ensures Recover(1, 0, Average(a, b, c, d), Detail(0, a, b, c, d), Detail(1, a, b, c, d), Detail(2, a, b, c, d)) == b
    ensures Recover(0, 1, Average(a, b, c, d), Detail(0, a, b, c, d), Detail(1, a, b, c, d), Detail(2, a, b, c, d)) == c
    ensures Recover(1, 1, Average(a, b, c, d), Detail(0, a, b, c, d), Detail(1, a, b, c, d), Detail(2, a, b, c, d)) == d
  {
  }

  /** Two blocks with the same average and the same three details are the same block. */
  lemma BlockInjective(a: real, b: real, c: real, d: real, a': real, b': real, c': real, d': real)
    requires Average(a, b, c, d) == Average(a', b', c', d')
    requires Detail(0, a, b, c, d) == Detail(0, a', b', c', d')
    requires Detail(1, a, b, c, d) == Detail(1, a', b', c', d')
    requires Detail(2, a, b, c, d) == Detail(2, a', b', c', d')
    ensures a == a' && b == b' && c == c' && d == d'
  {
    BlockInvertible(a, b, c, d);
    BlockInvertible(a', b', c', d');
  }

  /** A constant block has average equal to the constant and no detail. */
  lemma ConstantBlock(v: real)
    ensures Average(v, v, v, v) == v
    ensures forall o :: Detail(o, v, v, v, v) == 0.0
  {
  }

  // ---------------------------------------------------------------- blocks of a grid

  /** The sides waveletTransform is called with: 64, 32, ..., 1. */
  predicate IsSide(n: int)
  {
    IsPow2(n) && n <= PatternSize
  }

  /** The average of the 2 x 2 block (2p, 2q) of a grid. */
  function BlockAverage(s: Grid, p: int, q: int): real
    requires IsGrid(s) && 0 <= p && 2 * p + 1 < PatternSize && 0 <= q && 2 * q + 1 < PatternSize
  {
    Average(At(s, 2 * p, 2 * q), At(s, 2 * p + 1, 2 * q), At(s, 2 * p, 2 * q + 1), At(s, 2 * p + 1, 2 * q + 1))
  }

  /** The detail of orientation o of the 2 x 2 block (2p, 2q) of a grid. */
  function BlockDetail(o: int, s: Grid, p: int, q: int): real
    requires IsGrid(s) && 0 <= p && 2 * p + 1 < PatternSize && 0 <= q && 2 * q + 1 < PatternSize
  {
    Detail(o, At(s, 2 * p, 2 * q), At(s, 2 * p + 1, 2 * q), At(s, 2 * p, 2 * q + 1), At(s, 2 * p + 1, 2 * q + 1))
  }

  /** Cell (i, j) after the averaging pass of side h. */
  function ShrunkCell(g: Grid, h: int, i: int, j: int): real
    requires IsGrid(g) && 0 <= h && 2 * h <= PatternSize && 0 <= i < PatternSize && 0 <= j < PatternSize
  {
    if i < h && j < h then BlockAverage(g, i, j) else At(g, i, j)
  }

  /**
   * The averaging pass of side h: each cell of the h x h corner becomes the
   * average of its 2 x 2 block, every other cell keeps its value.
   */
  function Shrink(g: Grid, h: int): (r: Grid)
    requires IsGrid(g) && 0 <= h && 2 * h <= PatternSize
    ensures IsGrid(r)
    ensures forall i, j {:trigger At(r, i, j)} :: 0 <= i < PatternSize && 0 <= j < PatternSize ==> At(r, i, j) == ShrunkCell(g, h, i, j)
  {
    seq(Cells, k requires 0 <= k < Cells => ShrunkCell(g, h, k / PatternSize, k % PatternSize))
  }

  /**
   * The contents of src when waveletTransform, started on s with side `top`,
   * reaches side `size`: s after the averaging passes of sides top / 2, ...,
   * size.
   */
  function Level(s: Grid, top: int, size: int): (g: Grid)
    requires IsGrid(s) && IsSide(top) && IsSide(size) && size <= top
    ensures IsGrid(g)
    decreases top - size
  {
    if size == top then s
    else
      Pow2Gap(size, top);
      Shrink(Level(s, top, 2 * size), size)
  }

  /** The detail cells at level t: the three quadrants of side t around the t x t corner. */
  predicate InRing(t: int, i: int, j: int)
  {
    0 <= i < 2 * t && 0 <= j < 2 * t && (t <= i || t <= j)
  }

  /** Position of a ring cell inside its quadrant. */
  function Offset(t: int, i: int): int
  {
    if t <= i then i - t else i
  }

  lemma RingOrient(t: int, i: int, j: int)
    requires 1 <= t && InRing(t, i, j)
    ensures InQuad(Orient(i, j, t), t, i, j)
    ensures Offset(t, i) == i - QuadRow(Orient(i, j, t), t)
    ensures Offset(t, j) == j - QuadCol(Orient(i, j, t), t)
  {
  }

  /** The level of a cell other than (0, 0): the side of the ring it lies in. */
  function RingOf(i: int, j: int): (t: int)
    requires 0 <= i && 0 <= j && (i > 0 || j > 0)
    ensures IsPow2(t) && InRing(t, i, j)
  {
    LevelOf(IntMax(i, j))
  }

  /** A cell lies in one ring only. */
  lemma RingUnique(t: int, i: int, j: int)
    requires IsPow2(t) && InRing(t, i, j)
    ensures (i > 0 || j > 0) && t == RingOf(i, j)
  {
    LevelOfUnique(IntMax(i, j), t);
  }

  /**
   * The value waveletTransform, started on s with side `top`, leaves in
   * dst[i][j]: the detail, in the orientation of the quadrant of (i, j), of
   * the matching 2 x 2 block of the level above the ring of (i, j); at
   * (0, 0) the last average.
   */
  function Coefficient(s: Grid, top: int, i: int, j: int): real
    requires IsGrid(s) && IsSide(top) && 0 <= i < top && 0 <= j < top
  {
    if i == 0 && j == 0 then At(Level(s, top, 1), 0, 0)
    else
      Pow2Gap(RingOf(i, j), top);
      BlockDetail(Orient(i, j, RingOf(i, j)), Level(s, top, 2 * RingOf(i, j)), Offset(RingOf(i, j), i), Offset(RingOf(i, j), j))
  }

  /**
   * The side of the last averaging pass that overwrites src[i][j] (the
   * smallest side above max(i, j)).
   */
  function LastPass(i: int, j: int): (h: int)
    requires 0 <= i && 0 <= j
    ensures IsPow2(h) && i < h && j < h
  {
    if i == 0 && j == 0 then 1 else 2 * RingOf(i, j)
  }

  /** Every cell of the first averaging pass is overwritten last by a pass no larger. */
  lemma LastPassBound(i: int, j: int, top: int)
    requires IsSide(top) && 1 < top && 0 <= i < top / 2 && 0 <= j < top / 2
    ensures LastPass(i, j) <= top / 2
  {
    if i > 0 || j > 0 {
      Pow2Gap(RingOf(i, j), top / 2);
    }
  }

  // ---------------------------------------------------------------- what src ends with

  /** The passes of sides n / 2, ..., m leave every cell outside the n / 2 corner alone. */
  lemma {:induction false} Untouched(s: Grid, top: int, n: int, m: int, i: int, j: int)
    requires IsGrid(s) && IsSide(top) && IsSide(n) && IsSide(m) && m <= n <= top
    requires 0 <= i < PatternSize && 0 <= j < PatternSize && !(i < n / 2 && j < n / 2)
    ensures At(Level(s, top, m), i, j) == At(Level(s, top, n), i, j)
    decreases n - m
  {
    if m < n {
      Pow2Gap(m, n);
      Pow2Gap(m, top);
      Pow2Double(m);
      Untouched(s, top, n, 2 * m, i, j);
    }
  }

  /**
   * What waveletTransform leaves in src[i][j]: the value the cell received
   * from its last averaging pass; cells outside the first pass keep their
   * value.
   */
  lemma ResidueCells(s: Grid, top: int, i: int, j: int)
    requires IsGrid(s) && IsSide(top) && 0 <= i < PatternSize && 0 <= j < PatternSize
    ensures 1 < top && i < top / 2 && j < top / 2 ==>
      LastPass(i, j) <= top / 2 && At(Level(s, top, 1), i, j) == At(Level(s, top, LastPass(i, j)), i, j)
    ensures !(i < top / 2 && j < top / 2) ==> At(Level(s, top, 1), i, j) == At(s, i, j)
  {
    if 1 < top && i < top / 2 && j < top / 2 {
      LastPassBound(i, j, top);
      var h := LastPass(i, j);
      Pow2Gap(h, top);
      if h > 1 {
        RingUnique(RingOf(i, j), i, j);
      }
      Untouched(s, top, h, 1, i, j);
    } else {
      Untouched(s, top, top, 1, i, j);
    }
  }

  // ---------------------------------------------------------------- from one side to the next

  /** The levels below side h are the same whether counted from s at side 2h or from its averages at side h. */
  lemma {:induction false} LevelShift(s: Grid, size: int, m: int)
    requires IsGrid(s) && IsSide(size) && 1 < size && IsSide(m) && m <= size / 2
    ensures Level(Shrink(s, size / 2), size / 2, m) == Level(s, size, m)
    decreases size / 2 - m
  {
    if m < size / 2 {
      Pow2Gap(m, size / 2);
      Pow2Double(m);
      LevelShift(s, size, 2 * m);
    }
  }

  /** The coefficients inside the corner of side h are those of the recursive call. */
  lemma CoefficientShift(s: Grid, size: int, i: int, j: int)
    requires IsGrid(s) && IsSide(size) && 1 < size && 0 <= i < size / 2 && 0 <= j < size / 2
    ensures Coefficient(Shrink(s, size / 2), size / 2, i, j) == Coefficient(s, size, i, j)
  {
    if i == 0 && j == 0 {
      LevelShift(s, size, 1);
    } else {
      Pow2Gap(RingOf(i, j), size / 2);
      Pow2Double(RingOf(i, j));
      LevelShift(s, size, 2 * RingOf(i, j));
    }
  }

  /** The value the detail pass of side h writes to a cell of its ring. */
  function RingValue(s: Grid, h: int, k: int, l: int): real
    requires IsGrid(s) && 1 <= h && 2 * h <= PatternSize && InRing(h, k, l)
  {
    BlockDetail(Orient(k, l, h), s, Offset(h, k), Offset(h, l))
  }

  /** The detail pass of side size / 2 writes the final coefficients of its ring. */
  lemma RingCoefficient(s: Grid, size: int, i: int, j: int)
    requires IsGrid(s) && IsSide(size) && 1 < size && InRing(size / 2, i, j)
    ensures RingValue(s, size / 2, i, j) == Coefficient(s, size, i, j)
  {
    RingUnique(size / 2, i, j);
  }

  // ---------------------------------------------------------------- layout of the result

  /**
   * Tiling: every cell other than (0, 0) lies in exactly one quadrant of
   * exactly one level, and (0, 0) lies in none.
   */
  lemma Tiling(i: int, j: int)
    requires 0 <= i < PatternSize && 0 <= j < PatternSize
    ensures (i > 0 || j > 0) ==> InQuad(Orient(i, j, RingOf(i, j)), RingOf(i, j), i, j)
    ensures forall t, o :: IsPow2(t) && 0 <= o < 3 && InQuad(o, t, i, j) ==>
      (i > 0 || j > 0) && t == RingOf(i, j) && o == Orient(i, j, t)
  {
    if i > 0 || j > 0 {
      RingOrient(RingOf(i, j), i, j);
    }
    forall t, o | IsPow2(t) && 0 <= o < 3 && InQuad(o, t, i, j)
      ensures (i > 0 || j > 0) && t == RingOf(i, j) && o == Orient(i, j, t)
    {
      assert InRing(t, i, j);
      RingUnique(t, i, j);
    }
  }

  /** Position (p, q) of quadrant o of side t is a cell of ring t, in that quadrant, at that offset. */
  lemma QuadrantPosition(t: int, o: int, p: int, q: int)
    requires IsPow2(t) && 0 <= o < 3 && 0 <= p < t && 0 <= q < t
    ensures InRing(t, QuadRow(o, t) + p, QuadCol(o, t) + q)
    ensures RingOf(QuadRow(o, t) + p, QuadCol(o, t) + q) == t
    ensures Orient(QuadRow(o, t) + p, QuadCol(o, t) + q, t) == o
    ensures Offset(t, QuadRow(o, t) + p) == p && Offset(t, QuadCol(o, t) + q) == q
  {
    RingUnique(t, QuadRow(o, t) + p, QuadCol(o, t) + q);
  }

  /**
   * The quadrant of orientation o and side t holds, at position (p, q), the
   * detail of block (2p, 2q) of the level of side 2t.
   */
  lemma {:induction false} QuadrantCoefficient(s: Grid, top: int, t: int, o: int, p: int, q: int)
    requires IsGrid(s) && IsSide(top) && IsPow2(t) && 2 * t <= top && 0 <= o < 3
    requires 0 <= p < t && 0 <= q < t
    ensures Coefficient(s, top, QuadRow(o, t) + p, QuadCol(o, t) + q) == BlockDetail(o, Level(s, top, 2 * t), p, q)
  {
    QuadrantPosition(t, o, p, q);
  }

  // ---------------------------------------------------------------- the transform is invertible

  /** The coefficients of the top x top corners of s and s' agree. */
  predicate SameCoefficients(s: Grid, s': Grid, top: int)
    requires IsGrid(s) && IsGrid(s') && IsSide(top)
  {
    forall i, j :: 0 <= i < top && 0 <= j < top ==> Coefficient(s, top, i, j) == Coefficient(s', top, i, j)
  }

  /** Equal coefficients mean equal details of every block of every level. */
  lemma DetailsAgree(s: Grid, s': Grid, top: int, t: int, o: int, p: int, q: int)
    requires IsGrid(s) && IsGrid(s') && IsSide(top) && SameCoefficients(s, s', top)
    requires IsPow2(t) && 2 * t <= top && 0 <= o < 3 && 0 <= p < t && 0 <= q < t
    ensures BlockDetail(o, Level(s, top, 2 * t), p, q) == BlockDetail(o, Level(s', top, 2 * t), p, q)
  {
    QuadrantCoefficient(s, top, t, o, p, q);
    QuadrantCoefficient(s', top, t, o, p, q);
    assert Coefficient(s, top, QuadRow(o, t) + p, QuadCol(o, t) + q)
        == Coefficient(s', top, QuadRow(o, t) + p, QuadCol(o, t) + q);
  }

  /** The cells of a 2 x 2 block of level 2t, recovered from the block's average at level t and its three details. */
  lemma CellRecovered(s: Grid, top: int, t: int, p: int, q: int)
    requires IsGrid(s) && IsSide(top) && IsPow2(t) && IsPow2(2 * t) && 2 * t <= top && 0 <= p < t && 0 <= q < t
    ensures At(Level(s, top, 2 * t), 2 * p, 2 * q)
      == Recover(0, 0, At(Level(s, top, t), p, q), BlockDetail(0, Level(s, top, 2 * t), p, q),
                 BlockDetail(1, Level(s, top, 2 * t), p, q), BlockDetail(2, Level(s, top, 2 * t), p, q))
    ensures At(Level(s, top, 2 * t), 2 * p + 1, 2 * q)
      == Recover(1, 0, At(Level(s, top, t), p, q), BlockDetail(0, Level(s, top, 2 * t), p, q),
                 BlockDetail(1, Level(s, top, 2 * t), p, q), BlockDetail(2, Level(s, top, 2 * t), p, q))
    ensures At(Level(s, top, 2 * t), 2 * p, 2 * q + 1)
      == Recover(0, 1, At(Level(s, top, t), p, q), BlockDetail(0, Level(s, top, 2 * t), p, q),
                 BlockDetail(1, Level(s, top, 2 * t), p, q), BlockDetail(2, Level(s, top, 2 * t), p, q))
    ensures At(Level(s, top, 2 * t), 2 * p + 1, 2 * q + 1)
      == Recover(1, 1, At(Level(s, top, t), p, q), BlockDetail(0, Level(s, top, 2 * t), p, q),
                 BlockDetail(1, Level(s, top, 2 * t), p, q), BlockDetail(2, Level(s, top, 2 * t), p, q))
  {
    var g := Level(s, top, 2 * t);
    assert At(Level(s, top, t), p, q) == BlockAverage(g, p, q) by {
      assert Level(s, top, t) == Shrink(g, t);
    }
    BlockInvertible(At(g, 2 * p, 2 * q), At(g, 2 * p + 1, 2 * q), At(g, 2 * p, 2 * q + 1), At(g, 2 * p + 1, 2 * q + 1));
  }

  /** Equal coefficients and equal averages at level t give equal cells at level 2t. */
  lemma BlockAgrees(s: Grid, s': Grid, top: int, t: int, i: int, j: int)
    requires IsGrid(s) && IsGrid(s') && IsSide(top) && SameCoefficients(s, s', top)
    requires IsPow2(t) && IsPow2(2 * t) && 2 * t <= top && 0 <= i < 2 * t && 0 <= j < 2 * t
    requires At(Level(s, top, t), i / 2, j / 2) == At(Level(s', top, t), i / 2, j / 2)
    ensures At(Level(s, top, 2 * t), i, j) == At(Level(s', top, 2 * t), i, j)
  {
    var p, q := i / 2, j / 2;
    CellRecovered(s, top, t, p, q);
    CellRecovered(s', top, t, p, q);
    DetailsAgree(s, s', top, t, 0, p, q);
    DetailsAgree(s, s', top, t, 1, p, q);
    DetailsAgree(s, s', top, t, 2, p, q);
    if i == 2 * p && j == 2 * q {
    } else if i == 2 * p + 1 && j == 2 * q {
    } else if i == 2 * p && j == 2 * q + 1 {
    } else {
      assert i == 2 * p + 1 && j == 2 * q + 1;
    }
  }

  /** Every level is recovered from the coefficients of the levels above it. */
  lemma {:induction false} LevelsAgree(s: Grid, s': Grid, top: int, m: int)
    requires IsGrid(s) && IsGrid(s') && IsSide(top) && SameCoefficients(s, s', top)
    requires IsSide(m) && m <= top
    ensures forall i, j :: 0 <= i < m && 0 <= j < m ==> At(Level(s, top, m), i, j) == At(Level(s', top, m), i, j)
    decreases m
  {
    if m == 1 {
      assert Coefficient(s, top, 0, 0) == Coefficient(s', top, 0, 0);
    } else {
      var h := m / 2;
      assert IsPow2(h) && m == 2 * h;
      LevelsAgree(s, s', top, h);
      forall i, j | 0 <= i < m && 0 <= j < m
        ensures At(Level(s, top, m), i, j) == At(Level(s', top, m), i, j)
      {
        BlockAgrees(s, s', top, h, i, j);
      }
    }
  }

  /**
   * The transform loses no information: two squares with the same
   * coefficients are the same square.
   */
  lemma TransformInjective(s: Grid, s': Grid, top: int)
    requires IsGrid(s) && IsGrid(s') && IsSide(top) && SameCoefficients(s, s', top)
    ensures forall i, j :: 0 <= i < top && 0 <= j < top ==> At(s, i, j) == At(s', i, j)
  {
    LevelsAgree(s, s', top, top);
    assert Level(s, top, top) == s && Level(s', top, top) == s';
  }

  // ---------------------------------------------------------------- a flat square

  /** Every level of a constant square is that constant, all over the square. */
  lemma {:induction false} ConstantLevel(s: Grid, top: int, v: real, m: int)
    requires IsGrid(s) && IsSide(top) && IsSide(m) && m <= top
    requires forall k, l :: 0 <= k < top && 0 <= l < top ==> At(s, k, l) == v
    ensures forall k, l :: 0 <= k < top && 0 <= l < top ==> At(Level(s, top, m), k, l) == v
    decreases top - m
  {
    if m < top {
      Pow2Gap(m, top);
      Pow2Double(m);
      ConstantLevel(s, top, v, 2 * m);
      ConstantBlock(v);
    }
  }

  /** A constant square transforms to its value at (0, 0) and zero everywhere else. */
  lemma ConstantTransform(s: Grid, top: int, v: real, i: int, j: int)
    requires IsGrid(s) && IsSide(top) && 0 <= i < top && 0 <= j < top
    requires forall k, l :: 0 <= k < top && 0 <= l < top ==> At(s, k, l) == v
    ensures Coefficient(s, top, i, j) == if i == 0 && j == 0 then v else 0.0
  {
    if i == 0 && j == 0 {
      ConstantLevel(s, top, v, 1);
    } else {
      var t := RingOf(i, j);
      Pow2Gap(t, top);
      Pow2Double(t);
      ConstantLevel(s, top, v, 2 * t);
      ConstantBlock(v);
    }
  }

  // ---------------------------------------------------------------- waveletTransform

  /**
   * The body of the first double loop: the three details of block (2i, 2j) of
   * src, which are the ring cells whose position in their quadrant is (i, j).
   */
  method WriteDetails(dst: array2<real>, src: array2<real>, ghost s: Grid, size: int, i: int, j: int)
    requires IsPattern(dst) && IsPattern(src) && dst != src && 1 <= size && 2 * size <= PatternSize
    requires s == Snap(src) && 0 <= i < size && 0 <= j < size
    modifies dst
    ensures forall k, l :: 0 <= k < PatternSize && 0 <= l < PatternSize ==>
      dst[k, l] == if InRing(size, k, l) && Offset(size, k) == i && Offset(size, l) == j
        then RingValue(s, size, k, l) else old(dst[k, l])
  {
    dst[i + size, j] := (- src[2 * i, 2 * j] + src[2 * i + 1, 2 * j]
                         - src[2 * i, 2 * j + 1] + src[2 * i + 1, 2 * j + 1]) / 4.0;
    dst[i, j + size] := (- src[2 * i, 2 * j] - src[2 * i + 1, 2 * j]
                         + src[2 * i, 2 * j + 1] + src[2 * i + 1, 2 * j + 1]) / 4.0;
    dst[i + size, j + size] := (src[2 * i, 2 * j] - src[2 * i + 1, 2 * j]
                                - src[2 * i, 2 * j + 1] + src[2 * i + 1, 2 * j + 1]) / 4.0;
  }

  /** The first double loop: the three details of every 2 x 2 block of the side-2h square, into dst. */
  method DetailPass(dst: array2<real>, src: array2<real>, size: int)
    requires IsPattern(dst) && IsPattern(src) && dst != src && 1 <= size && 2 * size <= PatternSize
    modifies dst
    ensures forall k, l :: 0 <= k < PatternSize && 0 <= l < PatternSize ==>
      dst[k, l] == if InRing(size, k, l) then RingValue(Snap(src), size, k, l) else old(dst[k, l])
  {
    ghost var s := Snap(src);
    for i := 0 to size
      invariant forall k, l :: 0 <= k < PatternSize && 0 <= l < PatternSize ==>
        dst[k, l] == if InRing(size, k, l) && Offset(size, k) < i then RingValue(s, size, k, l) else old(dst[k, l])
    {
      for j := 0 to size
        invariant forall k, l :: 0 <= k < PatternSize && 0 <= l < PatternSize ==>
          dst[k, l] == if InRing(size, k, l) && (Offset(size, k) < i || (Offset(size, k) == i && Offset(size, l) < j))
            then RingValue(s, size, k, l) else old(dst[k, l])
      {
        WriteDetails(dst, src, s, size, i, j);
      }
    }
  }

  /**
   * The second double loop: each cell of the side-h corner of src becomes the
   * average of its 2 x 2 block.  The pass runs in place, yet every block is
   * read before any of its cells is overwritten, so the result is the average
   * of the values src held before the pass.
   */
  method AveragePass(src: array2<real>, size: int)
    requires IsPattern(src) && 1 <= size && 2 * size <= PatternSize
    modifies src
    ensures Snap(src) == Shrink(old(Snap(src)), size)
  {
    ghost var s := Snap(src);
    for i := 0 to size
      invariant forall k, l :: 0 <= k < PatternSize && 0 <= l < PatternSize ==>
        src[k, l] == if k < i && l < size then BlockAverage(s, k, l) else At(s, k, l)
    {
      for j := 0 to size
        invariant forall k, l :: 0 <= k < PatternSize && 0 <= l < PatternSize ==>
          src[k, l] == if (k < i && l < size) || (k == i && l < j) then BlockAverage(s, k, l) else At(s, k, l)
      {
        src[i, j] := (src[2 * i, 2 * j] + src[2 * i + 1, 2 * j]
                      + src[2 * i, 2 * j + 1] + src[2 * i + 1, 2 * j + 1]) / 4.0;
      }
    }
    GridEq(Snap(src), Shrink(s, size));
  }

  /**
   * waveletTransform: on return dst holds, inside the size x size corner, the
   * coefficients of the corner of src as it was on entry, and is unchanged
   * outside it; src holds what the averaging passes left in it (see
   * ResidueCells).
   */
  method WaveletTransform(dst: array2<real>, src: array2<real>, size: int)
    requires IsPattern(dst) && IsPattern(src) && dst != src && IsSide(size)
    modifies dst, src
    ensures forall k, l :: 0 <= k < PatternSize && 0 <= l < PatternSize ==>
      dst[k, l] == if k < size && l < size then Coefficient(old(Snap(src)), size, k, l) else old(dst[k, l])
    ensures Snap(src) == Level(old(Snap(src)), size, 1)
    decreases size
  {
    ghost var s := Snap(src);
    if size > 1 {
      var half := size / 2;
      DetailPass(dst, src, half);
      AveragePass(src, half);
      WaveletTransform(dst, src, half);
      forall k, l | 0 <= k < PatternSize && 0 <= l < PatternSize
        ensures dst[k, l] == if k < size && l < size then Coefficient(s, size, k, l) else old(dst[k, l])
      {
        if k < half && l < half {
          CoefficientShift(s, size, k, l);
        } else if k < size && l < size {
          RingCoefficient(s, size, k, l);
        }
      }
      LevelShift(s, size, 1);
    } else {
      dst[0, 0] := src[0, 0];
    }
  }
}
