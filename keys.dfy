/**
 * Keys of the GiST index over signatures (imgsmlr_idx.c, imgsmlr.h).
 *
 * A key is the payload of a bytea: one Signature (a point, on leaf entries)
 * or two Signatures (the lower and the upper corner of a box, on inner
 * entries); CHECK_SIGNATURE_KEY tells them apart by length alone.  A key is
 * modelled as the sequence of its 16 or 32 values, and a box buffer that the
 * code writes in place (two consecutive Signatures) as an array of 32 reals.
 */
module Keys {
  import opened Types

  type Key = seq<real>

  /** CHECK_SIGNATURE_KEY: the payload holds one signature or two. */
  predicate IsKey(k: Key)
  {
    |k| == SignatureSize || |k| == 2 * SignatureSize
  }

  /** Every key of a sequence of keys passes CHECK_SIGNATURE_KEY. */
  predicate AllKeys(keys: seq<Key>)
  {
    forall m :: 0 <= m < |keys| ==> IsKey(keys[m])
  }

  /** Lower corner of a key on axis i: its first signature. */
  function Lo(k: Key, i: int): real
    requires IsKey(k) && 0 <= i < SignatureSize
  {
    k[i]
  }

  /** Upper corner of a key on axis i: the second signature of a box, the point itself otherwise. */
  function Hi(k: Key, i: int): real
    requires IsKey(k) && 0 <= i < SignatureSize
  {
    if |k| == 2 * SignatureSize then k[SignatureSize + i] else k[i]
  }

  /** A box whose lower corner is below its upper corner on every axis. */
  predicate WellFormed(k: Key)
    requires IsKey(k)
  {
    forall i :: 0 <= i < SignatureSize ==> Lo(k, i) <= Hi(k, i)
  }

  /** Box `outer` contains box `inner` on every axis. */
  predicate Contains(outer: Key, inner: Key)
    requires IsKey(outer) && IsKey(inner)
  {
    forall i :: 0 <= i < SignatureSize ==> Lo(outer, i) <= Lo(inner, i) && Hi(inner, i) <= Hi(outer, i)
  }

  /** A query signature lies in the box of a key. */
  predicate Inside(p: seq<real>, k: Key)
    requires |p| == SignatureSize && IsKey(k)
  {
    forall i :: 0 <= i < SignatureSize ==> Lo(k, i) <= p[i] <= Hi(k, i)
  }

  /** A point key is a well-formed box of zero extent, and a signature lies in a box exactly when the box contains it as a key. */
  lemma PointKey(p: Key, k: Key)
    requires |p| == SignatureSize && IsKey(k)
    ensures WellFormed(p)
    ensures forall i :: 0 <= i < SignatureSize ==> Lo(p, i) == Hi(p, i) == p[i]
    ensures Inside(p, k) <==> Contains(k, p)
  {
  }

  // ---------------------------------------------------------------- set_signature

  /** The two-signature key that set_signature writes for a key. */
  function AsBox(k: Key): (r: Key)
    requires IsKey(k)
    ensures |r| == 2 * SignatureSize
  {
    if |k| == SignatureSize then k + k else k
  }

  /**
   * set_signature keeps the box: a point becomes the degenerate box with both
   * corners at the point, a box is copied unchanged.
   */
  lemma AsBoxSame(k: Key)
    requires IsKey(k)
    ensures forall i :: 0 <= i < SignatureSize ==> Lo(AsBox(k), i) == Lo(k, i) && Hi(AsBox(k), i) == Hi(k, i)
    ensures |k| == SignatureSize ==> forall i :: 0 <= i < SignatureSize ==> Lo(AsBox(k), i) == Hi(AsBox(k), i) == k[i]
    ensures |k| == 2 * SignatureSize ==> AsBox(k) == k
    ensures Contains(AsBox(k), k) && Contains(k, AsBox(k))
    ensures WellFormed(k) <==> WellFormed(AsBox(k))
  {
  }

  /** set_signature: writes the box of `src` into the two signatures of `dst`. */
  method SetSignature(dst: array<real>, src: Key)
    requires dst.Length == 2 * SignatureSize && IsKey(src)
    modifies dst
    ensures dst[..] == AsBox(src)
  {
    for i := 0 to SignatureSize
      invariant forall t :: 0 <= t < i ==> dst[t] == src[t]
    {
      dst[i] := src[i];
    }
    for t := SignatureSize to 2 * SignatureSize
      invariant forall u :: 0 <= u < t ==> dst[u] == AsBox(src)[u]
    {
      if |src| == SignatureSize {
        dst[t] := src[t - SignatureSize];
      } else {
        dst[t] := src[t];
      }
    }
  }

  // ---------------------------------------------------------------- extend_signature

  /** The box buffer `b` after extend_signature with key `k`. */
  function Extended(b: Key, k: Key): (r: Key)
    requires |b| == 2 * SignatureSize && IsKey(k)
    ensures |r| == 2 * SignatureSize
  {
    seq(2 * SignatureSize, t requires 0 <= t < 2 * SignatureSize =>
      if t < SignatureSize then Min(b[t], Lo(k, t)) else Max(b[t], Hi(k, t - SignatureSize)))
  }

  /** On every axis the lower corner becomes Min of the two lower corners, the upper one Max of the two upper corners. */
  lemma ExtendedAxes(b: Key, k: Key)
    requires |b| == 2 * SignatureSize && IsKey(k)
    ensures forall i :: 0 <= i < SignatureSize ==>
      Lo(Extended(b, k), i) == Min(Lo(b, i), Lo(k, i)) && Hi(Extended(b, k), i) == Max(Hi(b, i), Hi(k, i))
  {
    forall i | 0 <= i < SignatureSize
      ensures Hi(Extended(b, k), i) == Max(Hi(b, i), Hi(k, i))
    {
      assert Extended(b, k)[SignatureSize + i] == Max(b[SignatureSize + i], Hi(k, i));
    }
  }

  /**
   * The extended box is the smallest box containing the old box and the key:
   * it contains both, every box containing both contains it, and it is
   * well-formed when either of the two is.
   */
  lemma ExtendedBounds(b: Key, k: Key)
    requires |b| == 2 * SignatureSize && IsKey(k)
    ensures Contains(Extended(b, k), b) && Contains(Extended(b, k), k)
    ensures forall c :: IsKey(c) && Contains(c, b) && Contains(c, k) ==> Contains(c, Extended(b, k))
    ensures WellFormed(b) || WellFormed(k) ==> WellFormed(Extended(b, k))
  {
    ExtendedAxes(b, k);
  }

  /** extend_signature: grows the box in `dst`, in place, to cover `src`. */
  method ExtendSignature(dst: array<real>, src: Key)
    requires dst.Length == 2 * SignatureSize && IsKey(src)
    modifies dst
    ensures dst[..] == Extended(old(dst[..]), src)
  {
    ghost var b := dst[..];
    for i := 0 to SignatureSize
      invariant forall t :: 0 <= t < i ==> dst[t] == Min(b[t], Lo(src, t))
      invariant forall t :: i <= t < 2 * SignatureSize ==> dst[t] == b[t]
    {
      dst[i] := Min(dst[i], src[i]);
    }
    var srcMax := if |src| == 2 * SignatureSize then SignatureSize else 0;
    for i := 0 to SignatureSize
      invariant forall t :: 0 <= t < SignatureSize ==> dst[t] == Min(b[t], Lo(src, t))
      invariant forall t :: 0 <= t < i ==> dst[SignatureSize + t] == Max(b[SignatureSize + t], Hi(src, t))
      invariant forall t :: SignatureSize + i <= t < 2 * SignatureSize ==> dst[t] == b[t]
    {
      dst[SignatureSize + i] := Max(dst[SignatureSize + i], src[srcMax + i]);
    }
    assert dst[..] == Extended(b, src) by {
      forall t | 0 <= t < 2 * SignatureSize
        ensures dst[t] == Extended(b, src)[t]
      {
        if t >= SignatureSize {
          assert dst[SignatureSize + (t - SignatureSize)] == dst[t];
        }
      }
    }
  }

  // ---------------------------------------------------------------- signature_union

  /** The box signature_union builds from the first n keys: the first one set, every later one extended. */
  function UnionOf(keys: seq<Key>, n: int): (r: Key)
    requires AllKeys(keys) && 1 <= n <= |keys|
    ensures |r| == 2 * SignatureSize
  {
    if n == 1 then AsBox(keys[0]) else Extended(UnionOf(keys, n - 1), keys[n - 1])
  }

  /** The smallest lower corner of the first n keys on axis i, taken left to right with Min. */
  function LowestLo(keys: seq<Key>, n: int, i: int): real
    requires AllKeys(keys) && 1 <= n <= |keys| && 0 <= i < SignatureSize
  {
    if n == 1 then Lo(keys[0], i) else Min(LowestLo(keys, n - 1, i), Lo(keys[n - 1], i))
  }

  /** The largest upper corner of the first n keys on axis i, taken left to right with Max. */
  function HighestHi(keys: seq<Key>, n: int, i: int): real
    requires AllKeys(keys) && 1 <= n <= |keys| && 0 <= i < SignatureSize
  {
    if n == 1 then Hi(keys[0], i) else Max(HighestHi(keys, n - 1, i), Hi(keys[n - 1], i))
  }

  /** Both are bounds of the keys' corners that one of the keys attains. */
  lemma {:induction false} ExtremeCorners(keys: seq<Key>, n: int, i: int)
    requires AllKeys(keys) && 1 <= n <= |keys| && 0 <= i < SignatureSize
    ensures forall m :: 0 <= m < n ==> LowestLo(keys, n, i) <= Lo(keys[m], i) && Hi(keys[m], i) <= HighestHi(keys, n, i)
    ensures exists m :: 0 <= m < n && LowestLo(keys, n, i) == Lo(keys[m], i)
    ensures exists m :: 0 <= m < n && HighestHi(keys, n, i) == Hi(keys[m], i)
  {
    if n > 1 {
      ExtremeCorners(keys, n - 1, i);
    }
  }

  /** On every axis, the corners of the union are those extremes. */
  lemma {:induction false} UnionAxis(keys: seq<Key>, n: int, i: int)
    requires AllKeys(keys) && 1 <= n <= |keys| && 0 <= i < SignatureSize
    ensures Lo(UnionOf(keys, n), i) == LowestLo(keys, n, i) && Hi(UnionOf(keys, n), i) == HighestHi(keys, n, i)
  {
    if n == 1 {
      AsBoxSame(keys[0]);
    } else {
      UnionAxis(keys, n - 1, i);
      ExtendedAxes(UnionOf(keys, n - 1), keys[n - 1]);
    }
  }

  /**
   * The union is the component-wise Min and Max over the keys: it contains
   * every key, and each of its corners is the corner of one of them.
   */
  lemma UnionBounds(keys: seq<Key>, n: int)
    requires AllKeys(keys) && 1 <= n <= |keys|
    ensures forall m :: 0 <= m < n ==> Contains(UnionOf(keys, n), keys[m])
    ensures forall i :: 0 <= i < SignatureSize ==> exists m :: 0 <= m < n && Lo(UnionOf(keys, n), i) == Lo(keys[m], i)
    ensures forall i :: 0 <= i < SignatureSize ==> exists m :: 0 <= m < n && Hi(UnionOf(keys, n), i) == Hi(keys[m], i)
  {
    forall i | 0 <= i < SignatureSize
      ensures Lo(UnionOf(keys, n), i) == LowestLo(keys, n, i) && Hi(UnionOf(keys, n), i) == HighestHi(keys, n, i)
    {
      UnionAxis(keys, n, i);
      ExtremeCorners(keys, n, i);
    }
  }

  /** The union is the smallest box containing the keys, and it is well-formed when they are. */
  lemma UnionLeast(keys: seq<Key>, n: int, c: Key)
    requires AllKeys(keys) && 1 <= n <= |keys|
    ensures IsKey(c) && (forall m :: 0 <= m < n ==> Contains(c, keys[m])) ==> Contains(c, UnionOf(keys, n))
    ensures (forall m :: 0 <= m < n ==> WellFormed(keys[m])) ==> WellFormed(UnionOf(keys, n))
  {
    forall i | 0 <= i < SignatureSize
      ensures Lo(UnionOf(keys, n), i) == LowestLo(keys, n, i) && Hi(UnionOf(keys, n), i) == HighestHi(keys, n, i)
    {
      UnionAxis(keys, n, i);
      ExtremeCorners(keys, n, i);
    }
  }

  /** The union of the first n keys depends on those keys only. */
  lemma {:induction false} UnionPrefix(keys: seq<Key>, keys': seq<Key>, n: int)
    requires AllKeys(keys) && AllKeys(keys') && 1 <= n <= |keys| && n <= |keys'|
    requires keys[..n] == keys'[..n]
    ensures UnionOf(keys, n) == UnionOf(keys', n)
  {
    assert keys[n - 1] == keys[..n][n - 1] == keys'[n - 1];
    if n > 1 {
      assert keys[..n - 1] == keys[..n][..n - 1];
      assert keys'[..n - 1] == keys'[..n][..n - 1];
      UnionPrefix(keys, keys', n - 1);
    }
  }

  /** Two boxes that contain each other are the same box. */
  lemma SameBox(a: Key, b: Key)
    requires |a| == 2 * SignatureSize && |b| == 2 * SignatureSize
    requires Contains(a, b) && Contains(b, a)
    ensures a == b
  {
    forall t | 0 <= t < 2 * SignatureSize
      ensures a[t] == b[t]
    {
      if t < SignatureSize {
        assert Lo(a, t) <= Lo(b, t) && Lo(b, t) <= Lo(a, t);
      } else {
        assert Hi(a, t - SignatureSize) <= Hi(b, t - SignatureSize) <= Hi(a, t - SignatureSize);
      }
    }
  }

  /** Containment is transitive. */
  lemma ContainsTransitive(a: Key, b: Key, c: Key)
    requires IsKey(a) && IsKey(b) && IsKey(c)
    requires Contains(a, b) && Contains(b, c)
    ensures Contains(a, c)
  {
  }

  /** The keys of two groups put together are keys. */
  lemma AllKeysConcat(a: seq<Key>, b: seq<Key>)
    requires AllKeys(a) && AllKeys(b)
    ensures AllKeys(a + b)
  {
    forall m | 0 <= m < |a + b| ensures IsKey((a + b)[m]) {
      if m >= |a| { assert (a + b)[m] == b[m - |a|]; }
    }
  }

  /** The union of all the keys contains the union of each group. */
  lemma WholeCoversParts(a: seq<Key>, b: seq<Key>)
    requires AllKeys(a) && AllKeys(b) && AllKeys(a + b) && 1 <= |a| && 1 <= |b|
    ensures Contains(UnionOf(a + b, |a + b|), UnionOf(a, |a|))
    ensures Contains(UnionOf(a + b, |a + b|), UnionOf(b, |b|))
  {
    var ab := a + b;
    var w := UnionOf(ab, |ab|);
    UnionBounds(ab, |ab|);
    forall m | 0 <= m < |a| ensures Contains(w, a[m]) { assert ab[m] == a[m]; }
    forall m | 0 <= m < |b| ensures Contains(w, b[m]) { assert ab[|a| + m] == b[m]; }
    UnionLeast(a, |a|, w);
    UnionLeast(b, |b|, w);
  }

  /** The union of the two groups' boxes contains the union of all the keys. */
  lemma PartsCoverWhole(a: seq<Key>, b: seq<Key>)
    requires AllKeys(a) && AllKeys(b) && AllKeys(a + b) && 1 <= |a| && 1 <= |b|
    ensures Contains(UnionOf([UnionOf(a, |a|), UnionOf(b, |b|)], 2), UnionOf(a + b, |a + b|))
  {
    var ab := a + b;
    var u, v := UnionOf(a, |a|), UnionOf(b, |b|);
    var x := UnionOf([u, v], 2);
    UnionBounds([u, v], 2);
    assert [u, v][0] == u && [u, v][1] == v;
    UnionBounds(a, |a|);
    UnionBounds(b, |b|);
    forall m | 0 <= m < |ab| ensures Contains(x, ab[m]) {
      if m < |a| {
        assert ab[m] == a[m];
        ContainsTransitive(x, u, a[m]);
      } else {
        assert ab[m] == b[m - |a|];
        ContainsTransitive(x, v, b[m - |a|]);
      }
    }
    UnionLeast(ab, |ab|, x);
  }

  /**
   * Union is associative: the union of the boxes of two groups of keys is the
   * union of all of them, so a parent box can be rebuilt from its children's boxes.
   */
  lemma UnionNested(a: seq<Key>, b: seq<Key>)
    requires AllKeys(a) && AllKeys(b) && 1 <= |a| && 1 <= |b|
    ensures AllKeys(a + b)
    ensures UnionOf([UnionOf(a, |a|), UnionOf(b, |b|)], 2) == UnionOf(a + b, |a + b|)
  {
    AllKeysConcat(a, b);
    var u, v := UnionOf(a, |a|), UnionOf(b, |b|);
    WholeCoversParts(a, b);
    UnionLeast([u, v], 2, UnionOf(a + b, |a + b|));
    PartsCoverWhole(a, b);
    SameBox(UnionOf([u, v], 2), UnionOf(a + b, |a + b|));
  }

  /** Union is idempotent: uniting a group of keys with itself gives the same box. */
  lemma UnionSelf(a: seq<Key>)
    requires AllKeys(a) && 1 <= |a|
    ensures AllKeys(a + a)
    ensures UnionOf(a + a, 2 * |a|) == UnionOf(a, |a|)
  {
    var u := UnionOf(a, |a|);
    UnionNested(a, a);
    UnionBounds([u, u], 2);
    assert [u, u][0] == u && [u, u][1] == u;
    UnionLeast([u, u], 2, u);
    SameBox(UnionOf([u, u], 2), u);
  }

  /** VARSIZE of the key signature_union returns: a header and two signatures. */
  const UnionBytes: int := 2 * SignatureBytes + VarHdrSz

  /** signature_union: the box of all n entries, and its size in bytes. */
  method SignatureUnion(entryvec: seq<Key>) returns (out: array<real>, sizep: int)
    requires AllKeys(entryvec) && |entryvec| >= 1
    ensures fresh(out)
    ensures out[..] == UnionOf(entryvec, |entryvec|)
    ensures sizep == UnionBytes
  {
    out := new real[2 * SignatureSize];
    SetSignature(out, entryvec[0]);
    var i := 1;
    while i < |entryvec|
      invariant 1 <= i <= |entryvec|
      invariant out[..] == UnionOf(entryvec, i)
    {
      ExtendSignature(out, entryvec[i]);
      i := i + 1;
    }
    sizep := UnionBytes;
  }
}
