/**
 * Distances between patterns and between signatures (imgsmlr.c: calcDiff,
 * pattern_distance, signature_distance).  The operations return the square
 * root of a weighted sum of squared differences; the lemmas are stated on the
 * sums, before the root.
 */
module Distance {
  import opened Types
  import opened Grid

  // ---------------------------------------------------------------- calcDiff

  /** Squared differences of row i, columns y .. y + n - 1. */
  function RowDiff(a: Grid, b: Grid, i: int, y: int, n: nat): real
    requires IsGrid(a) && IsGrid(b) && 0 <= i < PatternSize && 0 <= y && y + n <= PatternSize
  {
    if n == 0 then 0.0 else RowDiff(a, b, i, y, n - 1) + Sq(At(a, i, y + n - 1) - At(b, i, y + n - 1))
  }

  /** Squared differences over the rectangle (x, y) - (x + sX, y + sY), row by row. */
  function RectDiff(a: Grid, b: Grid, x: int, y: int, sX: nat, sY: nat): real
    requires IsGrid(a) && IsGrid(b) && InBlock(x, y, sX, sY)
  {
    if sX == 0 then 0.0 else RectDiff(a, b, x, y, sX - 1, sY) + RowDiff(a, b, x + sX - 1, y, sY)
  }

  lemma {:induction false} RowDiffProps(a: Grid, b: Grid, i: int, y: int, n: nat)
    requires IsGrid(a) && IsGrid(b) && 0 <= i < PatternSize && 0 <= y && y + n <= PatternSize
    ensures RowDiff(a, b, i, y, n) >= 0.0
    ensures RowDiff(a, b, i, y, n) == RowDiff(b, a, i, y, n)
    ensures RowDiff(a, a, i, y, n) == 0.0
  {
    if n > 0 {
      RowDiffProps(a, b, i, y, n - 1);
      var d := At(a, i, y + n - 1) - At(b, i, y + n - 1);
      SqNonNeg(d);
      assert Sq(d) == Sq(At(b, i, y + n - 1) - At(a, i, y + n - 1));
    }
  }

  /** calcDiff's sum is non-negative, symmetric in A and B, and zero when A = B. */
  lemma {:induction false} RectDiffProps(a: Grid, b: Grid, x: int, y: int, sX: nat, sY: nat)
    requires IsGrid(a) && IsGrid(b) && InBlock(x, y, sX, sY)
    ensures RectDiff(a, b, x, y, sX, sY) >= 0.0
    ensures RectDiff(a, b, x, y, sX, sY) == RectDiff(b, a, x, y, sX, sY)
    ensures RectDiff(a, a, x, y, sX, sY) == 0.0
  {
    if sX > 0 {
      RectDiffProps(a, b, x, y, sX - 1, sY);
      RowDiffProps(a, b, x + sX - 1, y, sY);
    }
  }

  /** calcDiff: sum of squared differences in the rectangle (x, y) - (x + sX, y + sY). */
  method CalcDiff(patternA: array2<real>, patternB: array2<real>, x: int, y: int, sX: int, sY: int)
    returns (summ: real)
    requires IsPattern(patternA) && IsPattern(patternB) && InBlock(x, y, sX, sY)
    ensures summ == RectDiff(Snap(patternA), Snap(patternB), x, y, sX, sY)
  {
    ghost var ga, gb := Snap(patternA), Snap(patternB);
    summ := 0.0;
    var i := x;
    while i < x + sX
      invariant x <= i <= x + sX
      invariant summ == RectDiff(ga, gb, x, y, i - x, sY)
    {
      var j := y;
      while j < y + sY
        invariant y <= j <= y + sY
        invariant summ == RectDiff(ga, gb, x, y, i - x, sY) + RowDiff(ga, gb, i, y, j - y)
      {
        var val := patternA[i, j] - patternB[i, j];
        summ := summ + val * val;
        j := j + 1;
      }
      i := i + 1;
    }
  }

  // ---------------------------------------------------------------- pattern_distance

  /** The three detail blocks of side h, compared. */
  function LevelDiff(a: Grid, b: Grid, h: nat): real
    requires IsGrid(a) && IsGrid(b) && 2 * h <= PatternSize
  {
    RectDiff(a, b, h, 0, h, h) + RectDiff(a, b, 0, h, h, h) + RectDiff(a, b, h, h, h, h)
  }

  /**
   * The levels of the pyramid from `size` down, each weighted twice the one
   * above it, the level of side size / 2 with weight 1, and the DC term last:
   * what pattern_distance still adds, divided by its current `mult`.
   */
  function LevelsFrom(a: Grid, b: Grid, size: nat): real
    requires IsGrid(a) && IsGrid(b) && size <= PatternSize
    decreases size
  {
    if size <= 1 then Sq(At(a, 0, 0) - At(b, 0, 0))
    else LevelDiff(a, b, size / 2) + 2.0 * LevelsFrom(a, b, size / 2)
  }

  /** The squared pattern distance, before the square root. */
  function PatternDistanceSum(a: Grid, b: Grid): real
    requires IsGrid(a) && IsGrid(b)
  {
    LevelsFrom(a, b, PatternSize)
  }

  /**
   * The weights of pattern_distance: 1, 2, 4, 8, 16, 32 for the blocks of side
   * 32, 16, 8, 4, 2, 1, and 64 for the DC term.
   */
  lemma PatternDistanceWeights(a: Grid, b: Grid)
    requires IsGrid(a) && IsGrid(b)
    ensures PatternDistanceSum(a, b) ==
      1.0 * LevelDiff(a, b, 32) + 2.0 * LevelDiff(a, b, 16) + 4.0 * LevelDiff(a, b, 8)
      + 8.0 * LevelDiff(a, b, 4) + 16.0 * LevelDiff(a, b, 2) + 32.0 * LevelDiff(a, b, 1)
      + 64.0 * Sq(At(a, 0, 0) - At(b, 0, 0))
  {
    assert LevelsFrom(a, b, 2) == LevelDiff(a, b, 1) + 2.0 * Sq(At(a, 0, 0) - At(b, 0, 0));
    assert LevelsFrom(a, b, 4) == LevelDiff(a, b, 2) + 2.0 * LevelsFrom(a, b, 2);
    assert LevelsFrom(a, b, 8) == LevelDiff(a, b, 4) + 2.0 * LevelsFrom(a, b, 4);
    assert LevelsFrom(a, b, 16) == LevelDiff(a, b, 8) + 2.0 * LevelsFrom(a, b, 8);
    assert LevelsFrom(a, b, 32) == LevelDiff(a, b, 16) + 2.0 * LevelsFrom(a, b, 16);
  }

  lemma {:induction false} LevelsFromProps(a: Grid, b: Grid, size: nat)
    requires IsGrid(a) && IsGrid(b) && size <= PatternSize
    ensures LevelsFrom(a, b, size) >= 0.0
    ensures LevelsFrom(a, b, size) == LevelsFrom(b, a, size)
    ensures LevelsFrom(a, a, size) == 0.0
    decreases size
  {
    SqNonNeg(At(a, 0, 0) - At(b, 0, 0));
    assert Sq(At(a, 0, 0) - At(b, 0, 0)) == Sq(At(b, 0, 0) - At(a, 0, 0));
    if size > 1 {
      var h := size / 2;
      LevelsFromProps(a, b, h);
      RectDiffProps(a, b, h, 0, h, h);
      RectDiffProps(a, b, 0, h, h, h);
      RectDiffProps(a, b, h, h, h, h);
    }
  }

  /** The squared pattern distance is non-negative, symmetric, and zero from a pattern to itself. */
  lemma PatternDistanceProps(a: Grid, b: Grid)
    requires IsGrid(a) && IsGrid(b)
    ensures PatternDistanceSum(a, b) >= 0.0
    ensures PatternDistanceSum(a, b) == PatternDistanceSum(b, a)
    ensures PatternDistanceSum(a, a) == 0.0
  {
    LevelsFromProps(a, b, PatternSize);
  }

  /** One level of the pyramid: the three blocks of side half, then the rest weighted twice. */
  lemma LevelsFromStep(a: Grid, b: Grid, size: nat, half: nat)
    requires IsGrid(a) && IsGrid(b) && 1 < size <= PatternSize && half == size / 2
    ensures LevelsFrom(a, b, size) == RectDiff(a, b, half, 0, half, half)
      + RectDiff(a, b, 0, half, half, half) + RectDiff(a, b, half, half, half, half)
      + 2.0 * LevelsFrom(a, b, half)
  {
  }

  /**
   * The arithmetic of one iteration of pattern_distance's loop: with `rest`
   * the levels still to come at weight `mult`, adding the three block sums at
   * weight `mult` and doubling the weight keeps the running total on track.
   */
  lemma WeightedStep(mult: real, mult2: real, d1: real, d2: real, d3: real, rest: real, rest2: real,
                     before: real, after: real, total: real)
    requires rest == d1 + d2 + d3 + 2.0 * rest2
    requires mult2 == mult * 2.0
    requires before + mult * rest == total
    requires after == before + mult * d1 + mult * d2 + mult * d3
    ensures after + mult2 * rest2 == total
  {
    assert mult * rest == mult * d1 + mult * d2 + mult * d3 + mult2 * rest2;
  }

  /** Before the loop of pattern_distance: nothing added yet, weight 1. */
  lemma WeightedStart(distance: real, mult: real, rest: real, total: real)
    requires distance == 0.0 && mult == 1.0 && rest == total
    ensures distance + mult * rest == total
  {
  }

  /** The last step of pattern_distance adds the DC term with the final weight. */
  lemma DistanceLast(a: Grid, b: Grid, size: nat, mult: real, rest: real,
                     before: real, val: real, total: real)
    requires IsGrid(a) && IsGrid(b) && size <= 1
    requires rest == LevelsFrom(a, b, size)
    requires before + mult * rest == total
    requires val == At(a, 0, 0) - At(b, 0, 0)
    ensures before + mult * val * val == total
  {
    assert rest == val * val;
  }

  /** pattern_distance up to its final square root: the weighted loop over the pyramid. */
  method PatternDistanceSquared(patternA: array2<real>, patternB: array2<real>)
    returns (distance: real)
    requires IsPattern(patternA) && IsPattern(patternB)
    ensures distance == PatternDistanceSum(Snap(patternA), Snap(patternB))
  {
    ghost var ga, gb := Snap(patternA), Snap(patternB);
    distance := 0.0;
    var size := PatternSize;
    var mult := 1.0;
    ghost var rest := LevelsFrom(ga, gb, size);
    ghost var total := rest;
    WeightedStart(distance, mult, rest, total);
    while size > 1
      invariant 1 <= size <= PatternSize
      invariant rest == LevelsFrom(ga, gb, size)
      invariant distance + mult * rest == total
    {
      ghost var sizeBefore, before, multBefore, restBefore := size, distance, mult, rest;
      size := size / 2;
      var d1 := CalcDiff(patternA, patternB, size, 0, size, size);
      distance := distance + mult * d1;
      var d2 := CalcDiff(patternA, patternB, 0, size, size, size);
      distance := distance + mult * d2;
      var d3 := CalcDiff(patternA, patternB, size, size, size, size);
      distance := distance + mult * d3;
      mult := mult * 2.0;
      rest := LevelsFrom(ga, gb, size);
      LevelsFromStep(ga, gb, sizeBefore, size);
      WeightedStep(multBefore, mult, d1, d2, d3, restBefore, rest, before, distance, total);
    }
    var val := patternA[0, 0] - patternB[0, 0];
    DistanceLast(ga, gb, size, mult, rest, distance, val, total);
    distance := distance + mult * val * val;
    assert total == PatternDistanceSum(ga, gb);
  }

  /** pattern_distance: the square root of the weighted sum. */
  method PatternDistance(patternA: array2<real>, patternB: array2<real>, sqrt: real -> real)
    returns (distance: real)
    requires IsPattern(patternA) && IsPattern(patternB)
    ensures distance == sqrt(PatternDistanceSum(Snap(patternA), Snap(patternB)))
  {
    var summ := PatternDistanceSquared(patternA, patternB);
    distance := sqrt(summ);
  }

  // ---------------------------------------------------------------- signature_distance

  /** Squared differences of the first n components. */
  function SigDiff(a: seq<real>, b: seq<real>, n: nat): real
    requires n <= |a| && n <= |b|
  {
    if n == 0 then 0.0 else SigDiff(a, b, n - 1) + Sq(a[n - 1] - b[n - 1])
  }

  /** The squared signature distance: squared Euclidean distance of two 16-vectors. */
  function SignatureDistanceSum(a: seq<real>, b: seq<real>): real
    requires |a| == SignatureSize && |b| == SignatureSize
  {
    SigDiff(a, b, |a|)
  }

  lemma {:induction false} SigDiffProps(a: seq<real>, b: seq<real>, n: nat)
    requires n <= |a| && n <= |b|
    ensures SigDiff(a, b, n) >= 0.0
    ensures SigDiff(a, b, n) == SigDiff(b, a, n)
    ensures SigDiff(a, a, n) == 0.0
  {
    if n > 0 {
      SigDiffProps(a, b, n - 1);
      SqNonNeg(a[n - 1] - b[n - 1]);
      assert Sq(a[n - 1] - b[n - 1]) == Sq(b[n - 1] - a[n - 1]);
    }
  }

  /** The squared signature distance is non-negative, symmetric, and zero from a signature to itself. */
  lemma SignatureDistanceProps(a: seq<real>, b: seq<real>)
    requires |a| == SignatureSize && |b| == SignatureSize
    ensures SignatureDistanceSum(a, b) >= 0.0
    ensures SignatureDistanceSum(a, b) == SignatureDistanceSum(b, a)
    ensures SignatureDistanceSum(a, a) == 0.0
  {
    SigDiffProps(a, b, SignatureSize);
  }

  /** signature_distance up to its final square root. */
  method SignatureDistanceSquared(signatureA: seq<real>, signatureB: seq<real>)
    returns (distance: real)
    requires |signatureA| == SignatureSize && |signatureB| == SignatureSize
    ensures distance == SignatureDistanceSum(signatureA, signatureB)
  {
    distance := 0.0;
    for i := 0 to SignatureSize
      invariant distance == SigDiff(signatureA, signatureB, i)
    {
      var val := signatureA[i] - signatureB[i];
      distance := distance + val * val;
    }
  }

  /** signature_distance: the Euclidean distance of two signatures. */
  method SignatureDistance(signatureA: seq<real>, signatureB: seq<real>, sqrt: real -> real)
    returns (distance: real)
    requires |signatureA| == SignatureSize && |signatureB| == SignatureSize
    ensures distance == sqrt(SignatureDistanceSum(signatureA, signatureB))
  {
    var summ := SignatureDistanceSquared(signatureA, signatureB);
    distance := sqrt(summ);
  }
}
