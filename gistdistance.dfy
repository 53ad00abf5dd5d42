/**
 * signature_gist_distance (imgsmlr_idx.c): the distance from a query
 * signature to the box of an index key, used by the GiST index to order its
 * search.  On every axis where the query lies below the box, the squared gap
 * to the lower corner is added; where it lies above, the squared gap to the
 * upper corner; the square root of the sum is the distance.
 */
module GistDistance {
  import opened Types
  import opened Keys
  import opened Distance

  /** What axis i adds when the query lies below the box. */
  function Below(key: Key, arg: seq<real>, i: int): real
    requires IsKey(key) && |arg| == SignatureSize && 0 <= i < SignatureSize
  {
    if arg[i] < Lo(key, i) then Sq(arg[i] - Lo(key, i)) else 0.0
  }

  /** What axis i adds when the query lies above the box. */
  function Above(key: Key, arg: seq<real>, i: int): real
    requires IsKey(key) && |arg| == SignatureSize && 0 <= i < SignatureSize
  {
    if arg[i] > Hi(key, i) then Sq(arg[i] - Hi(key, i)) else 0.0
  }

  /** The accumulated `distance` after the first n axes. */
  function GapSum(key: Key, arg: seq<real>, n: int): real
    requires IsKey(key) && |arg| == SignatureSize && 0 <= n <= SignatureSize
  {
    if n == 0 then 0.0 else GapSum(key, arg, n - 1) + Below(key, arg, n - 1) + Above(key, arg, n - 1)
  }

  /** The squared distance from the query to the key, before the square root. */
  function BoxDistanceSum(key: Key, arg: seq<real>): real
    requires IsKey(key) && |arg| == SignatureSize
  {
    GapSum(key, arg, SignatureSize)
  }

  // ---------------------------------------------------------------- squares

  /** Squares grow with the distance from 0. */
  lemma SqMono(x: real, y: real)
    requires 0.0 <= x <= y
    ensures Sq(x) <= Sq(y)
  {
    assert x * x <= x * y;
    assert x * y <= y * y;
  }

  lemma SqNeg(x: real)
    ensures Sq(x) == Sq(-x)
  {
  }

  // ---------------------------------------------------------------- one axis

  /** An axis inside the box adds nothing. */
  lemma AxisInside(key: Key, arg: seq<real>, i: int)
    requires IsKey(key) && |arg| == SignatureSize && 0 <= i < SignatureSize
    requires Lo(key, i) <= arg[i] <= Hi(key, i)
    ensures Below(key, arg, i) + Above(key, arg, i) == 0.0
  {
  }

  /**
   * On an axis where the box is well-formed, what the axis adds is at most
   * the squared difference from the query to any value of the box on that axis.
   */
  lemma AxisBelowPoint(key: Key, arg: seq<real>, p: seq<real>, i: int)
    requires IsKey(key) && |arg| == SignatureSize && |p| == SignatureSize && 0 <= i < SignatureSize
    requires Lo(key, i) <= p[i] <= Hi(key, i)
    ensures 0.0 <= Below(key, arg, i) + Above(key, arg, i) <= Sq(arg[i] - p[i])
  {
    SqNonNeg(arg[i] - p[i]);
    if arg[i] < Lo(key, i) {
      SqNeg(arg[i] - Lo(key, i));
      SqNeg(arg[i] - p[i]);
      SqMono(Lo(key, i) - arg[i], p[i] - arg[i]);
      SqNonNeg(arg[i] - Lo(key, i));
    } else if arg[i] > Hi(key, i) {
      SqMono(arg[i] - Hi(key, i), arg[i] - p[i]);
      SqNonNeg(arg[i] - Hi(key, i));
    }
  }

  /** For a point key, an axis adds the squared difference of the query and the point. */
  lemma AxisPoint(key: Key, arg: seq<real>, i: int)
    requires |key| == SignatureSize && |arg| == SignatureSize && 0 <= i < SignatureSize
    ensures Below(key, arg, i) + Above(key, arg, i) == Sq(arg[i] - key[i])
  {
    if arg[i] == key[i] {
      assert arg[i] - key[i] == 0.0;
    }
  }

  // ---------------------------------------------------------------- the sum

  /** The squared distance is 0 when the query lies in the box. */
  lemma {:induction false} GapInside(key: Key, arg: seq<real>, n: int)
    requires IsKey(key) && |arg| == SignatureSize && 0 <= n <= SignatureSize && Inside(arg, key)
    ensures GapSum(key, arg, n) == 0.0
  {
    if n > 0 {
      GapInside(key, arg, n - 1);
      AxisInside(key, arg, n - 1);
    }
  }

  /**
   * The squared distance is never negative, and it never exceeds the squared
   * Euclidean distance from the query to a signature inside the box: it is a
   * lower bound on the distance to every entry under the key.
   */
  lemma {:induction false} GapBelowPoint(key: Key, arg: seq<real>, p: seq<real>, n: int)
    requires IsKey(key) && |arg| == SignatureSize && |p| == SignatureSize && 0 <= n <= SignatureSize
    requires Inside(p, key)
    ensures 0.0 <= GapSum(key, arg, n) <= SigDiff(arg, p, n)
  {
    if n > 0 {
      GapBelowPoint(key, arg, p, n - 1);
      AxisBelowPoint(key, arg, p, n - 1);
    }
  }

  /** For a point key the squared distance is the squared signature distance. */
  lemma {:induction false} GapPoint(key: Key, arg: seq<real>, n: int)
    requires |key| == SignatureSize && |arg| == SignatureSize && 0 <= n <= SignatureSize
    ensures GapSum(key, arg, n) == SigDiff(arg, key, n)
  {
    if n > 0 {
      GapPoint(key, arg, n - 1);
      AxisPoint(key, arg, n - 1);
    }
  }

  /**
   * What the search relies on: 0 for a query inside the box, a lower bound of
   * the signature distance to every signature in the box, and equal to the
   * signature distance for a point key.
   */
  lemma BoxDistanceProps(key: Key, arg: seq<real>)
    requires IsKey(key) && |arg| == SignatureSize
    ensures Inside(arg, key) ==> BoxDistanceSum(key, arg) == 0.0
    ensures forall p :: |p| == SignatureSize && Inside(p, key) ==>
      0.0 <= BoxDistanceSum(key, arg) <= SignatureDistanceSum(arg, p)
    ensures |key| == SignatureSize ==> BoxDistanceSum(key, arg) == SignatureDistanceSum(arg, key)
  {
    if Inside(arg, key) {
      GapInside(key, arg, SignatureSize);
    }
    forall p | |p| == SignatureSize && Inside(p, key)
      ensures 0.0 <= BoxDistanceSum(key, arg) <= SignatureDistanceSum(arg, p)
    {
      GapBelowPoint(key, arg, p, SignatureSize);
    }
    if |key| == SignatureSize {
      GapPoint(key, arg, SignatureSize);
    }
  }

  // ---------------------------------------------------------------- the C function

  /** The loop of signature_gist_distance, up to the square root. */
  method GistDistanceSquared(key: Key, arg: seq<real>) returns (distance: real)
    requires IsKey(key) && |arg| == SignatureSize
    ensures distance == BoxDistanceSum(key, arg)
  {
    distance := 0.0;
    var keyMax := if |key| == 2 * SignatureSize then SignatureSize else 0;
    for i := 0 to SignatureSize
      invariant distance == GapSum(key, arg, i)
    {
      if arg[i] < key[i] {
        distance := distance + (arg[i] - key[i]) * (arg[i] - key[i]);
      }
      if arg[i] > key[keyMax + i] {
        distance := distance + (arg[i] - key[keyMax + i]) * (arg[i] - key[keyMax + i]);
      }
    }
  }

  /** signature_gist_distance. */
  method SignatureGistDistance(key: Key, arg: seq<real>, sqrt: real -> real) returns (distance: real)
    requires IsKey(key) && |arg| == SignatureSize
    ensures distance == sqrt(BoxDistanceSum(key, arg))
  {
    var summ := GistDistanceSquared(key, arg);
    distance := Root(sqrt, summ);
  }
}
