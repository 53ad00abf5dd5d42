/**
 * Box volumes of the GiST index (imgsmlr_idx.c): union_intersect_size,
 * key_size and signature_penalty.  Each volume is the product, over the 16
 * axes in order, of the side of a box on that axis.
 */
module Volumes {
  import opened Types
  import opened Keys

  /** Side on axis i of the box covering a and b. */
  function UnionRange(a: Key, b: Key, i: int): real
    requires IsKey(a) && IsKey(b) && 0 <= i < SignatureSize
  {
    Max(Hi(a, i), Hi(b, i)) - Min(Lo(a, i), Lo(b, i))
  }

  /** Side on axis i of the overlap of a and b, a negative side clamped to 0. */
  function IntersectRange(a: Key, b: Key, i: int): real
    requires IsKey(a) && IsKey(b) && 0 <= i < SignatureSize
  {
    if Min(Hi(a, i), Hi(b, i)) - Max(Lo(a, i), Lo(b, i)) < 0.0 then 0.0
    else Min(Hi(a, i), Hi(b, i)) - Max(Lo(a, i), Lo(b, i))
  }

  /** Side of a key on axis i. */
  function Range(k: Key, i: int): real
    requires IsKey(k) && 0 <= i < SignatureSize
  {
    Hi(k, i) - Lo(k, i)
  }

  /** The product of the first n entries of s, taken left to right from 1, as the accumulators of the C code. */
  function Product(s: seq<real>, n: int): real
    requires 0 <= n <= |s|
  {
    if n == 0 then 1.0 else Product(s, n - 1) * s[n - 1]
  }

  /** The sides of the box covering a and b, axis by axis. */
  function UnionRanges(a: Key, b: Key): (r: seq<real>)
    requires IsKey(a) && IsKey(b)
    ensures |r| == SignatureSize
  {
    seq(SignatureSize, i requires 0 <= i < SignatureSize => UnionRange(a, b, i))
  }

  /** The clamped sides of the overlap of a and b, axis by axis. */
  function IntersectRanges(a: Key, b: Key): (r: seq<real>)
    requires IsKey(a) && IsKey(b)
    ensures |r| == SignatureSize
  {
    seq(SignatureSize, i requires 0 <= i < SignatureSize => IntersectRange(a, b, i))
  }

  /** The sides of a key, axis by axis. */
  function Ranges(k: Key): (r: seq<real>)
    requires IsKey(k)
    ensures |r| == SignatureSize
  {
    seq(SignatureSize, i requires 0 <= i < SignatureSize => Range(k, i))
  }

  /** unionSize of union_intersect_size. */
  function UnionVolume(a: Key, b: Key): real
    requires IsKey(a) && IsKey(b)
  {
    Product(UnionRanges(a, b), SignatureSize)
  }

  /** intersectSize of union_intersect_size. */
  function IntersectVolume(a: Key, b: Key): real
    requires IsKey(a) && IsKey(b)
  {
    Product(IntersectRanges(a, b), SignatureSize)
  }

  /** key_size. */
  function Volume(k: Key): real
    requires IsKey(k)
  {
    Product(Ranges(k), SignatureSize)
  }

  // ---------------------------------------------------------------- products

  /** Products of non-negative factors grow with the factors. */
  lemma MulMono(x: real, y: real, x': real, y': real)
    requires 0.0 <= x <= x' && 0.0 <= y <= y'
    ensures 0.0 <= x * y <= x' * y'
  {
    assert x * y <= x' * y;
    assert x' * y <= x' * y';
  }

  /** A product of non-negative factors is non-negative, and it grows with its factors. */
  lemma {:induction false} ProductMono(s: seq<real>, t: seq<real>, n: int)
    requires 0 <= n <= |s| && n <= |t|
    requires forall i :: 0 <= i < n ==> 0.0 <= s[i] <= t[i]
    ensures 0.0 <= Product(s, n) <= Product(t, n)
  {
    if n > 0 {
      ProductMono(s, t, n - 1);
      MulMono(Product(s, n - 1), s[n - 1], Product(t, n - 1), t[n - 1]);
    }
  }

  /** A product with a factor 0 among its first n is 0. */
  lemma {:induction false} ProductZero(s: seq<real>, n: int, i: int)
    requires 0 <= i < n <= |s| && s[i] == 0.0
    ensures Product(s, n) == 0.0
  {
    if n - 1 > i {
      ProductZero(s, n - 1, i);
    }
  }

  /** One more factor of an accumulator. */
  lemma ProductStep(s: seq<real>, i: int, acc: real, x: real)
    requires 0 <= i < |s| && acc == Product(s, i) && x == s[i]
    ensures acc * x == Product(s, i + 1)
  {
  }

  // ---------------------------------------------------------------- sides

  /** On an axis where a is well-formed, the overlap is between 0 and the side of the union. */
  lemma RangeBelow(a: Key, b: Key, i: int)
    requires IsKey(a) && IsKey(b) && 0 <= i < SignatureSize && Lo(a, i) <= Hi(a, i)
    ensures 0.0 <= IntersectRange(a, b, i) <= UnionRange(a, b, i)
  {
  }

  // ---------------------------------------------------------------- volumes

  /** The intersection volume is never negative: negative sides are clamped before they are multiplied. */
  lemma IntersectNonNeg(a: Key, b: Key)
    requires IsKey(a) && IsKey(b)
    ensures IntersectVolume(a, b) >= 0.0
  {
    ProductMono(IntersectRanges(a, b), IntersectRanges(a, b), SignatureSize);
  }

  /** Two keys that do not overlap on some axis have an intersection volume of 0. */
  lemma IntersectDisjoint(a: Key, b: Key, i: int)
    requires IsKey(a) && IsKey(b) && 0 <= i < SignatureSize
    requires Min(Hi(a, i), Hi(b, i)) < Max(Lo(a, i), Lo(b, i))
    ensures IntersectVolume(a, b) == 0.0
  {
    ProductZero(IntersectRanges(a, b), SignatureSize, i);
  }

  /** A well-formed box has a non-negative volume, and a box containing it has a volume at least as large. */
  lemma VolumeMono(inner: Key, outer: Key)
    requires IsKey(inner) && IsKey(outer)
    requires WellFormed(inner) && Contains(outer, inner)
    ensures 0.0 <= Volume(inner) <= Volume(outer)
  {
    ProductMono(Ranges(inner), Ranges(outer), SignatureSize);
  }

  /** The union volume is the volume of the box extend_signature builds from the two keys. */
  lemma UnionIsExtended(a: Key, b: Key)
    requires IsKey(a) && IsKey(b)
    ensures UnionVolume(a, b) == Volume(Extended(AsBox(a), b))
  {
    AsBoxSame(a);
    ExtendedAxes(AsBox(a), b);
    assert UnionRanges(a, b) == Ranges(Extended(AsBox(a), b));
  }

  /** For a well-formed key a, the overlap is no larger than the union: size_waste of picksplit is never negative. */
  lemma IntersectBelowUnion(a: Key, b: Key)
    requires IsKey(a) && IsKey(b) && WellFormed(a)
    ensures 0.0 <= IntersectVolume(a, b) <= UnionVolume(a, b)
  {
    forall i | 0 <= i < SignatureSize
      ensures 0.0 <= IntersectRanges(a, b)[i] <= UnionRanges(a, b)[i]
    {
      RangeBelow(a, b, i);
    }
    ProductMono(IntersectRanges(a, b), UnionRanges(a, b), SignatureSize);
  }

  // ---------------------------------------------------------------- the C functions

  /** union_intersect_size: both volumes in one pass over the axes. */
  method UnionIntersectSize(dst: Key, src: Key) returns (unionSize: real, intersectSize: real)
    requires IsKey(dst) && IsKey(src)
    ensures unionSize == UnionVolume(dst, src)
    ensures intersectSize == IntersectVolume(dst, src)
  {
    var unionSizeAccum, intersectSizeAccum := 1.0, 1.0;
    var srcMax := if |src| == 2 * SignatureSize then SignatureSize else 0;
    var dstMax := if |dst| == 2 * SignatureSize then SignatureSize else 0;
    for i := 0 to SignatureSize
      invariant unionSizeAccum == Product(UnionRanges(dst, src), i)
      invariant intersectSizeAccum == Product(IntersectRanges(dst, src), i)
    {
      var unionRange := Max(dst[dstMax + i], src[srcMax + i]) - Min(dst[i], src[i]);
      var intersectRange := Min(dst[dstMax + i], src[srcMax + i]) - Max(dst[i], src[i]);
      ProductStep(UnionRanges(dst, src), i, unionSizeAccum, unionRange);
      unionSizeAccum := unionSizeAccum * unionRange;
      if intersectRange < 0.0 {
        intersectRange := 0.0;
      }
      ProductStep(IntersectRanges(dst, src), i, intersectSizeAccum, intersectRange);
      intersectSizeAccum := intersectSizeAccum * intersectRange;
    }
    unionSize := unionSizeAccum;
    intersectSize := intersectSizeAccum;
  }

  /** key_size: the volume of a key. */
  method KeySize(key: Key) returns (size: real)
    requires IsKey(key)
    ensures size == Volume(key)
  {
    size := 1.0;
    var keyMax := if |key| == 2 * SignatureSize then SignatureSize else 0;
    for i := 0 to SignatureSize
      invariant size == Product(Ranges(key), i)
    {
      var range := key[keyMax + i] - key[i];
      size := size * range;
    }
  }

  /** The penalty of adding `newKey` under `orig`: how much the volume of orig grows. */
  function Penalty(orig: Key, newKey: Key): real
    requires IsKey(orig) && IsKey(newKey)
  {
    UnionVolume(orig, newKey) - Volume(orig)
  }

  /**
   * The penalty of a well-formed box is never negative, and it is 0 for a
   * key the box already contains.
   */
  lemma PenaltyProps(orig: Key, newKey: Key)
    requires IsKey(orig) && IsKey(newKey) && WellFormed(orig)
    ensures Penalty(orig, newKey) >= 0.0
    ensures Contains(orig, newKey) ==> Penalty(orig, newKey) == 0.0
  {
    var e := Extended(AsBox(orig), newKey);
    UnionIsExtended(orig, newKey);
    AsBoxSame(orig);
    ExtendedBounds(AsBox(orig), newKey);
    assert Contains(e, orig);
    VolumeMono(orig, e);
    if Contains(orig, newKey) {
      ExtendedAxes(AsBox(orig), newKey);
      assert Contains(orig, e);
      VolumeMono(e, orig);
    }
  }

  /** signature_penalty. */
  method SignaturePenalty(orig: Key, newKey: Key) returns (result: real)
    requires IsKey(orig) && IsKey(newKey)
    ensures result == Penalty(orig, newKey)
  {
    var unionSize, intersectSize := UnionIntersectSize(orig, newKey);
    var origSize := KeySize(orig);
    result := unionSize - origSize;
  }
}
