/**
 * Constants and small helpers shared by the whole model (imgsmlr.h).
 *
 * Floating-point values are modelled as `real`; the square root of the C math
 * library is never defined here: every member that needs it takes it as a
 * parameter `sqrt: real -> real`.
 */
module Types {

  /** Side of the square pattern grid (PATTERN_SIZE). */
  const PatternSize: int := 64

  /** Number of values in a signature (SIGNATURE_SIZE). */
  const SignatureSize: int := 16

  /** sizeof(Signature): sixteen 4-byte floats. */
  const SignatureBytes: int := 4 * SignatureSize

  /** VARHDRSZ, the length word in front of every variable-length value. */
  const VarHdrSz: int := 4

  /** PostgreSQL's Min macro: ((x) < (y) ? (x) : (y)). */
  function Min(x: real, y: real): real
  {
    if x < y then x else y
  }

  /** PostgreSQL's Max macro: ((x) > (y) ? (x) : (y)). */
  function Max(x: real, y: real): real
  {
    if x > y then x else y
  }

  /** Min and Max on the integer loop bounds of `shuffle`. */
  function IntMin(x: int, y: int): int
  {
    if x < y then x else y
  }

  function IntMax(x: int, y: int): int
  {
    if x > y then x else y
  }

  /** fabs. */
  function Abs(x: real): real
  {
    if x < 0.0 then -x else x
  }

  /**
   * sqrt of the C math library, applied to x: the model never defines it,
   * and every member that needs it receives it as the parameter `sqrt`.
   * Methods apply it through this function, so that the value does not
   * depend on the heap the method is in.
   */
  function Root(sqrt: real -> real, x: real): real
  {
    sqrt(x)
  }

  function Sq(x: real): real
  {
    x * x
  }

  lemma SqNonNeg(x: real)
    ensures Sq(x) >= 0.0
  {
    if x < 0.0 {
      assert Sq(x) == (-x) * (-x);
    }
  }

  lemma PosMul(a: real, b: real)
    requires a > 0.0 && b > 0.0
    ensures a * b > 0.0
  {
  }

  lemma NonNegMul(a: real, b: real)
    requires a >= 0.0 && b >= 0.0
    ensures a * b >= 0.0
  {
  }

  /** A square weighted by a non-negative factor, in the C evaluation order. */
  lemma ScaledSqProps(m: real, d: real)
    requires m >= 0.0
    ensures m * d * d >= 0.0
    ensures m * d * d == m * (-d) * (-d)
  {
    SqNonNeg(d);
    assert m * d * d == m * Sq(d);
  }

  // Quotients, each fact on its own so that callers stay linear.

  lemma ZeroRatio(d: real)
    requires d != 0.0
    ensures 0.0 / d == 0.0
  {
  }

  lemma SelfRatio(d: real)
    requires d > 0.0
    ensures d / d == 1.0
  {
  }

  lemma UnitRatio(a: real, d: real)
    requires 0.0 <= a <= d && d > 0.0
    ensures 0.0 <= a / d <= 1.0
  {
  }

  lemma RatioMono(a: real, b: real, d: real)
    requires a <= b && d > 0.0
    ensures a / d <= b / d
  {
  }

  lemma RatioStrict(a: real, b: real, d: real)
    requires a < b && d > 0.0
    ensures a / d < b / d
  {
  }
}
