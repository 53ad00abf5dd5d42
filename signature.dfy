/**
 * The short signature of a transformed pattern (imgsmlr.c: calcSumm,
 * calcSignature): for each of the five finest-but-one levels of the wavelet
 * pyramid, the energy (root of the sum of squares) of its three detail
 * quadrants, weighted 1, 2, 4, 8, 16 from the 16 x 16 quadrants down to the
 * 1 x 1 ones, then the DC term.
 */
module Signature {
  import opened Types
  import opened Grid
  import opened Wavelet

  // ---------------------------------------------------------------- calcSumm

  /** Squares of row i, columns y .. y + n - 1. */
  function RowSumm(g: Grid, i: int, y: int, n: nat): real
    requires IsGrid(g) && 0 <= i < PatternSize && 0 <= y && y + n <= PatternSize
  {
    if n == 0 then 0.0 else RowSumm(g, i, y, n - 1) + At(g, i, y + n - 1) * At(g, i, y + n - 1)
  }

  /** Squares over the rectangle (x, y) - (x + sX, y + sY), row by row. */
  function RectSumm(g: Grid, x: int, y: int, sX: nat, sY: nat): real
    requires IsGrid(g) && InBlock(x, y, sX, sY)
  {
    if sX == 0 then 0.0 else RectSumm(g, x, y, sX - 1, sY) + RowSumm(g, x + sX - 1, y, sY)
  }

  /** Squares of one row: non-negative, and zero on an all-zero row. */
  lemma {:induction false} RowSummProps(g: Grid, i: int, y: int, n: nat)
    requires IsGrid(g) && 0 <= i < PatternSize && 0 <= y && y + n <= PatternSize
    ensures RowSumm(g, i, y, n) >= 0.0
    ensures (forall j :: y <= j < y + n ==> At(g, i, j) == 0.0) ==> RowSumm(g, i, y, n) == 0.0
  {
    if n > 0 {
      RowSummProps(g, i, y, n - 1);
    }
  }

  /** The sum of squares of a rectangle is non-negative, and zero when every cell in it is zero. */
  lemma {:induction false} RectSummProps(g: Grid, x: int, y: int, sX: nat, sY: nat)
    requires IsGrid(g) && InBlock(x, y, sX, sY)
    ensures RectSumm(g, x, y, sX, sY) >= 0.0
    ensures (forall i, j :: x <= i < x + sX && y <= j < y + sY ==> At(g, i, j) == 0.0) ==>
      RectSumm(g, x, y, sX, sY) == 0.0
  {
    if sX > 0 {
      RectSummProps(g, x, y, sX - 1, sY);
      RowSummProps(g, x + sX - 1, y, sY);
    }
  }

  /** calcSumm before its square root: the sum of squares over the rectangle. */
  method CalcSummSquared(pattern: array2<real>, x: int, y: int, sX: int, sY: int) returns (summ: real)
    requires IsPattern(pattern) && InBlock(x, y, sX, sY)
    ensures summ == RectSumm(Snap(pattern), x, y, sX, sY)
  {
    ghost var g := Snap(pattern);
    summ := 0.0;
    var i := x;
    while i < x + sX
      invariant x <= i <= x + sX
      invariant summ == RectSumm(g, x, y, i - x, sY)
    {
      var j := y;
      while j < y + sY
        invariant y <= j <= y + sY
        invariant summ == RectSumm(g, x, y, i - x, sY) + RowSumm(g, i, y, j - y)
      {
        var val := pattern[i, j];
        summ := summ + val * val;
        j := j + 1;
      }
      i := i + 1;
    }
  }

  /** calcSumm: the energy of the rectangle, the square root of its sum of squares. */
  method CalcSumm(pattern: array2<real>, x: int, y: int, sX: int, sY: int, sqrt: real -> real) returns (r: real)
    requires IsPattern(pattern) && InBlock(x, y, sX, sY)
    ensures r == Root(sqrt, RectSumm(Snap(pattern), x, y, sX, sY))
  {
    var summ := CalcSummSquared(pattern, x, y, sX, sY);
    r := Root(sqrt, summ);
  }

  // ---------------------------------------------------------------- calcSignature

  /** The energy of the detail quadrant of orientation o and side h. */
  function Energy(g: Grid, sqrt: real -> real, o: int, h: int): real
    requires IsGrid(g) && 0 <= h && 2 * h <= PatternSize
  {
    Root(sqrt, RectSumm(g, QuadRow(o, h), QuadCol(o, h), h, h))
  }

  /** Number of levels a signature covers. */
  const Levels: int := 5

  /** Side of the quadrants of level k of the signature, as calcSignature halves `size` from 32. */
  const Sides: seq<int> := [16, 8, 4, 2, 1]

  /** Weight of level k, the `mult` calcSignature doubles after each level. */
  const Weights: seq<real> := [1.0, 2.0, 4.0, 8.0, 16.0]

  /** From one level to the next the side halves and the weight doubles. */
  lemma NextLevel(k: nat)
    requires k < Levels
    ensures k + 1 < Levels ==> Sides[k] == 2 * Sides[k + 1] && Weights[k + 1] == 2.0 * Weights[k]
    ensures k + 1 == Levels ==> Sides[k] == 1 && 2.0 * Weights[k] == 32.0
  {
  }

  /** Entry n < 15 of a signature: the weighted energy of quadrant n % 3 of level n / 3. */
  function Entry(g: Grid, sqrt: real -> real, n: int): real
    requires IsGrid(g) && 0 <= n < 3 * Levels
  {
    Weights[n / 3] * Energy(g, sqrt, n % 3, Sides[n / 3])
  }

  /** The signature of a transformed pattern: fifteen weighted energies, then the DC term. */
  function SignatureOf(g: Grid, sqrt: real -> real): (r: seq<real>)
    requires IsGrid(g)
    ensures |r| == SignatureSize
  {
    seq(SignatureSize, n requires 0 <= n < SignatureSize => if n < SignatureSize - 1 then Entry(g, sqrt, n) else At(g, 0, 0))
  }

  /** The three entries of level k, which calcSignature computes with `size` and `mult` at their values for k. */
  lemma LevelEntries(g: Grid, sqrt: real -> real, k: nat, i: int, size: int, mult: real)
    requires IsGrid(g) && k < Levels && i == 3 * k && size == Sides[k] && mult == Weights[k]
    ensures Entry(g, sqrt, i) == mult * Energy(g, sqrt, 0, size)
    ensures Entry(g, sqrt, i + 1) == mult * Energy(g, sqrt, 1, size)
    ensures Entry(g, sqrt, i + 2) == mult * Energy(g, sqrt, 2, size)
  {
    assert i / 3 == k && i % 3 == 0;
    assert (i + 1) / 3 == k && (i + 1) % 3 == 1;
    assert (i + 2) / 3 == k && (i + 2) % 3 == 2;
  }

  /** Fifteen entries and the DC term make the signature. */
  lemma SignatureOfEntries(g: Grid, sqrt: real -> real, r: seq<real>)
    requires IsGrid(g) && |r| == SignatureSize
    requires forall n :: 0 <= n < SignatureSize - 1 ==> r[n] == Entry(g, sqrt, n)
    requires r[SignatureSize - 1] == At(g, 0, 0)
    ensures r == SignatureOf(g, sqrt)
  {
  }

  /** One write of calcSignature's loop: entry n is mult times the energy of the quadrant of orientation o and side `size`. */
  method WriteEntry(pattern: array2<real>, signature: array<real>, sqrt: real -> real, n: int, o: int, size: int, mult: real, ghost g: Grid)
    requires IsPattern(pattern) && signature.Length == SignatureSize && Snap(pattern) == g
    requires 0 <= n < SignatureSize && 1 <= size && 2 * size <= PatternSize
    modifies signature
    ensures Snap(pattern) == g
    ensures signature[n] == mult * Energy(g, sqrt, o, size)
    ensures forall m :: 0 <= m < SignatureSize && m != n ==> signature[m] == old(signature[m])
  {
    var e := CalcSumm(pattern, QuadRow(o, size), QuadCol(o, size), size, size, sqrt);
    signature[n] := mult * e;
  }

  /** One turn of calcSignature's loop: the three entries of level k join the ones already written. */
  method WriteLevel(pattern: array2<real>, signature: array<real>, sqrt: real -> real, ghost k: nat, i: int, size: int, mult: real, ghost g: Grid)
    requires IsPattern(pattern) && signature.Length == SignatureSize && Snap(pattern) == g
    requires k < Levels && i == 3 * k && size == Sides[k] && mult == Weights[k]
    requires forall n :: 0 <= n < i ==> signature[n] == Entry(g, sqrt, n)
    modifies signature
    ensures Snap(pattern) == g
    ensures forall n :: 0 <= n < i + 3 ==> signature[n] == Entry(g, sqrt, n)
  {
    LevelEntries(g, sqrt, k, i, size, mult);
    WriteEntry(pattern, signature, sqrt, i, 0, size, mult, g);
    WriteEntry(pattern, signature, sqrt, i + 1, 1, size, mult, g);
    WriteEntry(pattern, signature, sqrt, i + 2, 2, size, mult, g);
  }

  /**
   * calcSignature: the loop halves `size` from 32 and writes, for each level,
   * the energies of the quadrants at (size, 0), (0, size) and (size, size),
   * times `mult`, which doubles after each level; then pattern[0][0].
   */
  method CalcSignature(pattern: array2<real>, signature: array<real>, sqrt: real -> real)
    requires IsPattern(pattern) && signature.Length == SignatureSize
    modifies signature
    ensures signature[..] == SignatureOf(Snap(pattern), sqrt)
  {
    ghost var g := Snap(pattern);
    var size := PatternSize / 2;
    var i := 0;
    var mult := 1.0;
    ghost var k: nat := 0;
    while size > 1
      invariant k <= Levels && i == 3 * k
      invariant size == if k < Levels then 2 * Sides[k] else 1
      invariant mult == if k < Levels then Weights[k] else 32.0
      invariant forall n :: 0 <= n < i ==> signature[n] == Entry(g, sqrt, n)
      invariant Snap(pattern) == g
    {
      size := size / 2;
      NextLevel(k);
      WriteLevel(pattern, signature, sqrt, k, i, size, mult, g);
      i := i + 3;
      mult := mult * 2.0;
      k := k + 1;
    }
    signature[SignatureSize - 1] := pattern[0, 0];
    SignatureOfEntries(g, sqrt, signature[..]);
  }

  // ---------------------------------------------------------------- what a signature holds

  /** With a square root that is non-negative on non-negative arguments, every entry but the DC term is non-negative. */
  lemma SignatureNonNeg(g: Grid, sqrt: real -> real)
    requires IsGrid(g)
    requires forall v :: v >= 0.0 ==> sqrt(v) >= 0.0
    ensures forall n :: 0 <= n < SignatureSize - 1 ==> SignatureOf(g, sqrt)[n] >= 0.0
  {
    forall n | 0 <= n < SignatureSize - 1
      ensures SignatureOf(g, sqrt)[n] >= 0.0
    {
      var h := Sides[n / 3];
      RectSummProps(g, QuadRow(n % 3, h), QuadCol(n % 3, h), h, h);
      NonNegMul(Weights[n / 3], Energy(g, sqrt, n % 3, h));
    }
  }

  /** A transformed pattern whose only non-zero coefficient is the DC term v: its signature is zero but for v. */
  lemma FlatSignature(d: Grid, v: real, sqrt: real -> real)
    requires IsGrid(d) && sqrt(0.0) == 0.0
    requires forall i, j :: 0 <= i < PatternSize && 0 <= j < PatternSize ==> At(d, i, j) == if i == 0 && j == 0 then v else 0.0
    ensures forall n :: 0 <= n < SignatureSize - 1 ==> SignatureOf(d, sqrt)[n] == 0.0
    ensures SignatureOf(d, sqrt)[SignatureSize - 1] == v
  {
    forall n | 0 <= n < SignatureSize - 1
      ensures SignatureOf(d, sqrt)[n] == 0.0
    {
      var h := Sides[n / 3];
      RectSummProps(d, QuadRow(n % 3, h), QuadCol(n % 3, h), h, h);
    }
  }

  /**
   * A uniform pattern: its transform is v at (0, 0) and zero elsewhere, so
   * its signature is zero except for the DC term, which is v.
   */
  lemma UniformSignature(s: Grid, d: Grid, v: real, sqrt: real -> real)
    requires IsGrid(s) && IsGrid(d) && sqrt(0.0) == 0.0
    requires forall i, j :: 0 <= i < PatternSize && 0 <= j < PatternSize ==> At(s, i, j) == v
    requires forall i, j :: 0 <= i < PatternSize && 0 <= j < PatternSize ==> At(d, i, j) == Coefficient(s, PatternSize, i, j)
    ensures forall n :: 0 <= n < SignatureSize - 1 ==> SignatureOf(d, sqrt)[n] == 0.0
    ensures SignatureOf(d, sqrt)[SignatureSize - 1] == v
  {
    forall i, j | 0 <= i < PatternSize && 0 <= j < PatternSize
      ensures At(d, i, j) == if i == 0 && j == 0 then v else 0.0
    {
      ConstantTransform(s, PatternSize, v, i, j);
    }
    FlatSignature(d, v, sqrt);
  }
}
