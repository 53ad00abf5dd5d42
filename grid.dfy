/**
 * The pattern grid (PatternData in imgsmlr.h): a PatternSize x PatternSize
 * matrix of values, held by the operations as an `array2<real>` and described
 * by the specifications as a value `Grid` laid out row by row, as the C array
 * `values[PATTERN_SIZE][PATTERN_SIZE]` is in memory; plus the dyadic block
 * layout that the wavelet pyramid, the signature, the distances and the blur
 * share.
 */
module Grid {
  import opened Types

  /** Number of cells of a pattern. */
  const Cells: int := PatternSize * PatternSize

  /** The values of a pattern, row after row: cell (i, j) is at i * PatternSize + j. */
  type Grid = seq<real>

  /** A value of the shape of PatternData. */
  predicate IsGrid(g: Grid)
  {
    |g| == Cells
  }

  /** An array of the shape of PatternData. */
  predicate IsPattern(a: array2<real>)
  {
    a.Length0 == PatternSize && a.Length1 == PatternSize
  }

  /** Cell (i, j) of a grid: `values[i][j]`. */
  function At(g: Grid, i: int, j: int): real
    requires IsGrid(g) && 0 <= i < PatternSize && 0 <= j < PatternSize
  {
    g[i * PatternSize + j]
  }

  /** Rows 0 .. m - 1 of a pattern array, one after the other. */
  function RowsOf(a: array2<real>, m: int): (g: seq<real>)
    requires IsPattern(a) && 0 <= m <= PatternSize
    reads a
    ensures |g| == m * PatternSize
    ensures forall i, j :: 0 <= i < m && 0 <= j < PatternSize ==> g[i * PatternSize + j] == a[i, j]
  {
    if m == 0 then [] else RowsOf(a, m - 1) + RowOf(a, m - 1, PatternSize)
  }

  /** Row i of a pattern array, columns 0 .. n - 1. */
  function RowOf(a: array2<real>, i: int, n: int): (r: seq<real>)
    requires IsPattern(a) && 0 <= i < PatternSize && 0 <= n <= PatternSize
    reads a
    ensures |r| == n
    ensures forall j :: 0 <= j < n ==> r[j] == a[i, j]
  {
    if n == 0 then [] else RowOf(a, i, n - 1) + [a[i, n - 1]]
  }

  /** The current contents of a pattern array as a value. */
  function Snap(a: array2<real>): (g: Grid)
    requires IsPattern(a)
    reads a
    ensures IsGrid(g)
    ensures forall i, j {:trigger At(g, i, j)} :: 0 <= i < PatternSize && 0 <= j < PatternSize ==> At(g, i, j) == a[i, j]
  {
    RowsOf(a, PatternSize)
  }

  /** Every index of a grid is the index of exactly one cell. */
  lemma CellOfIndex(k: int)
    requires 0 <= k < Cells
    ensures 0 <= k / PatternSize < PatternSize && 0 <= k % PatternSize < PatternSize
    ensures k == (k / PatternSize) * PatternSize + k % PatternSize
  {
  }

  /** Two grids with the same cells are the same value. */
  lemma GridEq(g: Grid, h: Grid)
    requires IsGrid(g) && IsGrid(h)
    requires forall i, j :: 0 <= i < PatternSize && 0 <= j < PatternSize ==> At(g, i, j) == At(h, i, j)
    ensures g == h
  {
    forall k | 0 <= k < Cells
      ensures g[k] == h[k]
    {
      CellOfIndex(k);
      assert At(g, k / PatternSize, k % PatternSize) == At(h, k / PatternSize, k % PatternSize);
    }
  }

  /** The rectangle (x, y) - (x + sX, y + sY) lies inside the grid. */
  predicate InBlock(x: int, y: int, sX: int, sY: int)
  {
    0 <= x && 0 <= y && 0 <= sX && 0 <= sY && x + sX <= PatternSize && y + sY <= PatternSize
  }

  // ---------------------------------------------------------------- dyadic sizes

  predicate IsPow2(n: int)
    decreases if n > 0 then n else 0
  {
    n == 1 || (n > 1 && n % 2 == 0 && IsPow2(n / 2))
  }

  function Pow2(k: nat): (r: nat)
    ensures r >= 1
  {
    if k == 0 then 1 else 2 * Pow2(k - 1)
  }

  lemma Pow2Double(n: int)
    requires IsPow2(n)
    ensures IsPow2(2 * n)
  {
    assert (2 * n) / 2 == n;
  }

  /** Between two distinct powers of two there is at least a factor 2. */
  lemma {:induction false} Pow2Gap(a: int, b: int)
    requires IsPow2(a) && IsPow2(b) && a < b
    ensures 2 * a <= b
    decreases a
  {
    if a != 1 {
      Pow2Gap(a / 2, b / 2);
    }
  }

  /** The largest power of two not above m. */
  function LevelOf(m: int): (r: int)
    requires 1 <= m
    ensures IsPow2(r) && r <= m < 2 * r
  {
    if m < 2 then 1 else 2 * LevelOf(m / 2)
  }

  /** The only power of two s with s <= m < 2 * s is LevelOf(m). */
  lemma LevelOfUnique(m: int, s: int)
    requires 1 <= m && IsPow2(s) && s <= m < 2 * s
    ensures s == LevelOf(m)
  {
    var r := LevelOf(m);
    if s < r {
      Pow2Gap(s, r);
    } else if r < s {
      Pow2Gap(r, s);
    }
  }

  // ---------------------------------------------------------------- quadrants

  /**
   * The three detail blocks of side s: orientation 0 at (s, 0), 1 at (0, s),
   * 2 at (s, s) (first coordinate is the row index of `values[i][j]`).
   */
  function QuadRow(o: int, s: int): int
  {
    if o == 1 then 0 else s
  }

  function QuadCol(o: int, s: int): int
  {
    if o == 0 then 0 else s
  }

  predicate InQuad(o: int, s: int, i: int, j: int)
  {
    QuadRow(o, s) <= i < QuadRow(o, s) + s && QuadCol(o, s) <= j < QuadCol(o, s) + s
  }

  /** The orientation of a cell whose level is s. */
  function Orient(i: int, j: int, s: int): int
  {
    if j < s then 0 else if i < s then 1 else 2
  }
}
