/**
 * normalizePattern (imgsmlr.c): a first pass finds the smallest and the
 * largest value of the pattern, with the running minimum starting at 1 and
 * the running maximum at 0; a second pass maps every value v to
 * (v - min) / (max - min).
 */
module Normalize {
  import opened Types
  import opened Grid

  // ---------------------------------------------------------------- the first pass

  /** The running minimum after the first k cells, row by row, starting from 1. */
  function LowAfter(g: Grid, k: int): real
    requires IsGrid(g) && 0 <= k <= Cells
  {
    if k == 0 then 1.0
    else if g[k - 1] < LowAfter(g, k - 1) then g[k - 1]
    else LowAfter(g, k - 1)
  }

  /** The running maximum after the first k cells, row by row, starting from 0. */
  function HighAfter(g: Grid, k: int): real
    requires IsGrid(g) && 0 <= k <= Cells
  {
    if k == 0 then 0.0
    else if g[k - 1] > HighAfter(g, k - 1) then g[k - 1]
    else HighAfter(g, k - 1)
  }

  /** The `min` of normalizePattern once the first pass is over. */
  function Lowest(g: Grid): real
    requires IsGrid(g)
  {
    LowAfter(g, Cells)
  }

  /** The `max` of normalizePattern once the first pass is over. */
  function Highest(g: Grid): real
    requires IsGrid(g)
  {
    HighAfter(g, Cells)
  }

  /** The running minimum is at most 1 and every cell seen so far, and it is 1 or one of those cells. */
  lemma {:induction false} LowAfterProps(g: Grid, k: int)
    requires IsGrid(g) && 0 <= k <= Cells
    ensures LowAfter(g, k) <= 1.0
    ensures forall t :: 0 <= t < k ==> LowAfter(g, k) <= g[t]
    ensures LowAfter(g, k) == 1.0 || exists t :: 0 <= t < k && g[t] == LowAfter(g, k)
  {
    if k > 0 {
      LowAfterProps(g, k - 1);
    }
  }

  /** The running maximum is at least 0 and every cell seen so far, and it is 0 or one of those cells. */
  lemma {:induction false} HighAfterProps(g: Grid, k: int)
    requires IsGrid(g) && 0 <= k <= Cells
    ensures HighAfter(g, k) >= 0.0
    ensures forall t :: 0 <= t < k ==> HighAfter(g, k) >= g[t]
    ensures HighAfter(g, k) == 0.0 || exists t :: 0 <= t < k && g[t] == HighAfter(g, k)
  {
    if k > 0 {
      HighAfterProps(g, k - 1);
    }
  }

  /** Values of a pattern built from an image (makePattern) lie in [0, 1]. */
  predicate InUnit(g: Grid)
    requires IsGrid(g)
  {
    forall k :: 0 <= k < Cells ==> 0.0 <= g[k] <= 1.0
  }

  /**
   * For a pattern with values in [0, 1], `min` and `max` are the smallest
   * and the largest cell: bounds of every cell that some cell attains.
   */
  lemma ExtremesAttained(g: Grid)
    requires IsGrid(g) && InUnit(g)
    ensures forall k :: 0 <= k < Cells ==> Lowest(g) <= g[k] <= Highest(g)
    ensures exists k :: 0 <= k < Cells && g[k] == Lowest(g)
    ensures exists k :: 0 <= k < Cells && g[k] == Highest(g)
  {
    LowAfterProps(g, Cells);
    HighAfterProps(g, Cells);
    if Lowest(g) == 1.0 {
      assert g[0] == 1.0;
    }
    if Highest(g) == 0.0 {
      assert g[0] == 0.0;
    }
  }

  /** A cell attaining a lower bound of a pattern in [0, 1] is its `min`. */
  lemma LowestIs(g: Grid, c: real)
    requires IsGrid(g) && InUnit(g)
    requires forall k :: 0 <= k < Cells ==> c <= g[k]
    requires exists k :: 0 <= k < Cells && g[k] == c
    ensures Lowest(g) == c
  {
    ExtremesAttained(g);
  }

  /** A cell attaining an upper bound of a pattern in [0, 1] is its `max`. */
  lemma HighestIs(g: Grid, c: real)
    requires IsGrid(g) && InUnit(g)
    requires forall k :: 0 <= k < Cells ==> g[k] <= c
    requires exists k :: 0 <= k < Cells && g[k] == c
    ensures Highest(g) == c
  {
    ExtremesAttained(g);
  }

  /** The first pass of normalizePattern. */
  method Extremes(pattern: array2<real>) returns (min: real, max: real)
    requires IsPattern(pattern)
    ensures min == Lowest(Snap(pattern)) && max == Highest(Snap(pattern))
  {
    ghost var g := Snap(pattern);
    min, max := 1.0, 0.0;
    var i := 0;
    while i < PatternSize
      invariant 0 <= i <= PatternSize
      invariant min == LowAfter(g, i * PatternSize) && max == HighAfter(g, i * PatternSize)
    {
      var j := 0;
      while j < PatternSize
        invariant 0 <= j <= PatternSize
        invariant min == LowAfter(g, i * PatternSize + j) && max == HighAfter(g, i * PatternSize + j)
      {
        var val := pattern[i, j];
        assert val == g[i * PatternSize + j];
        if val < min {
          min := val;
        }
        if val > max {
          max := val;
        }
        j := j + 1;
      }
      i := i + 1;
    }
  }

  // ---------------------------------------------------------------- the second pass

  /** The new value of a cell holding v. */
  function Rescaled(v: real, min: real, max: real): real
    requires min < max
  {
    (v - min) / (max - min)
  }

  /** Between the bounds, rescaling maps into [0, 1], keeps the order, and sends the bounds to 0 and 1. */
  lemma RescaledProps(v: real, w: real, min: real, max: real)
    requires min < max
    ensures min <= v <= max ==> 0.0 <= Rescaled(v, min, max) <= 1.0
    ensures v <= w ==> Rescaled(v, min, max) <= Rescaled(w, min, max)
    ensures v < w ==> Rescaled(v, min, max) < Rescaled(w, min, max)
    ensures v == min ==> Rescaled(v, min, max) == 0.0
    ensures v == max ==> Rescaled(v, min, max) == 1.0
  {
    var d := max - min;
    if min <= v <= max {
      UnitRatio(v - min, d);
    }
    if v <= w {
      RatioMono(v - min, w - min, d);
    }
    if v < w {
      RatioStrict(v - min, w - min, d);
    }
    if v == max {
      SelfRatio(d);
    }
  }

  /** The pattern after normalizePattern, as a value. */
  function Normalized(g: Grid): (r: Grid)
    requires IsGrid(g) && Lowest(g) < Highest(g)
    ensures IsGrid(r)
  {
    seq(Cells, k requires 0 <= k < Cells => Rescaled(g[k], Lowest(g), Highest(g)))
  }

  /** Cell (i, j) of the normalized pattern. */
  lemma NormalizedAt(g: Grid, i: int, j: int)
    requires IsGrid(g) && Lowest(g) < Highest(g)
    requires 0 <= i < PatternSize && 0 <= j < PatternSize
    ensures At(Normalized(g), i, j) == Rescaled(At(g, i, j), Lowest(g), Highest(g))
  {
  }

  /** normalizePattern, in place on the pattern. */
  method NormalizePattern(pattern: array2<real>)
    requires IsPattern(pattern)
    requires Lowest(Snap(pattern)) < Highest(Snap(pattern))
    modifies pattern
    ensures Snap(pattern) == Normalized(old(Snap(pattern)))
  {
    ghost var g := Snap(pattern);
    var min, max := Extremes(pattern);
    var i := 0;
    while i < PatternSize
      invariant 0 <= i <= PatternSize
      invariant forall p, q :: 0 <= p < PatternSize && 0 <= q < PatternSize ==>
        pattern[p, q] == if p < i then Rescaled(At(g, p, q), min, max) else At(g, p, q)
    {
      var j := 0;
      while j < PatternSize
        invariant 0 <= j <= PatternSize
        invariant forall p, q :: 0 <= p < PatternSize && 0 <= q < PatternSize ==>
          pattern[p, q] == if p < i || (p == i && q < j) then Rescaled(At(g, p, q), min, max) else At(g, p, q)
      {
        pattern[i, j] := (pattern[i, j] - min) / (max - min);
        j := j + 1;
      }
      i := i + 1;
    }
    forall p, q | 0 <= p < PatternSize && 0 <= q < PatternSize
      ensures At(Snap(pattern), p, q) == At(Normalized(g), p, q)
    {
      NormalizedAt(g, p, q);
    }
    GridEq(Snap(pattern), Normalized(g));
  }

  // ---------------------------------------------------------------- what normalizing gives

  /** Every normalized value lies in [0, 1], and the order of the cells is kept. */
  lemma NormalizedRange(g: Grid)
    requires IsGrid(g) && Lowest(g) < Highest(g)
    ensures forall k :: 0 <= k < Cells ==> 0.0 <= Normalized(g)[k] <= 1.0
    ensures forall a, b :: 0 <= a < Cells && 0 <= b < Cells && g[a] <= g[b] ==> Normalized(g)[a] <= Normalized(g)[b]
  {
    LowAfterProps(g, Cells);
    HighAfterProps(g, Cells);
    forall k | 0 <= k < Cells
      ensures 0.0 <= Normalized(g)[k] <= 1.0
    {
      RescaledProps(g[k], g[k], Lowest(g), Highest(g));
    }
    forall a, b | 0 <= a < Cells && 0 <= b < Cells && g[a] <= g[b]
      ensures Normalized(g)[a] <= Normalized(g)[b]
    {
      RescaledProps(g[a], g[b], Lowest(g), Highest(g));
    }
  }

  /**
   * For a pattern built from an image (values in [0, 1], not all equal) the
   * smallest value becomes 0 and the largest 1: the promise of the comment
   * of normalizePattern.
   */
  lemma NormalizedSpan(g: Grid)
    requires IsGrid(g) && InUnit(g) && Lowest(g) < Highest(g)
    ensures Lowest(Normalized(g)) == 0.0 && Highest(Normalized(g)) == 1.0
  {
    var r := Normalized(g);
    NormalizedRange(g);
    ExtremesAttained(g);
    var a :| 0 <= a < Cells && g[a] == Lowest(g);
    var b :| 0 <= b < Cells && g[b] == Highest(g);
    RescaledProps(g[a], g[a], Lowest(g), Highest(g));
    RescaledProps(g[b], g[b], Lowest(g), Highest(g));
    assert r[a] == 0.0 && r[b] == 1.0;
    LowestIs(r, 0.0);
    HighestIs(r, 1.0);
  }

  /** Normalizing a pattern built from an image twice changes nothing the second time. */
  lemma NormalizedIdempotent(g: Grid)
    requires IsGrid(g) && InUnit(g) && Lowest(g) < Highest(g)
    ensures Lowest(Normalized(g)) < Highest(Normalized(g))
    ensures Normalized(Normalized(g)) == Normalized(g)
  {
    var r := Normalized(g);
    NormalizedSpan(g);
    forall k | 0 <= k < Cells
      ensures Normalized(r)[k] == r[k]
    {
      assert Rescaled(r[k], 0.0, 1.0) == r[k];
    }
  }
}
