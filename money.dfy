/**
 * Rounding of money to the cent.
 *
 * Amounts are exact reals. The server and the React client round with
 * `Math.round((n + Number.EPSILON) * 100) / 100`; the quotation preview rounds
 * with `Math.round(n * 100) / 100`. `Math.round(y)` is `floor(y + 0.5)`.
 * Number.EPSILON (2^-52) is kept as an exact real offset.
 */
module Money {
  import opened Wrappers

  /** What `Number(v)` gives: a finite number, or NaN or an infinity. */
  datatype JsNumber = Finite(value: real) | NotFinite

  /** Number.EPSILON = 2^-52. */
  const Epsilon: real := 1.0 / 4503599627370496.0

  /** A value that is a whole number of cents (paise). */
  predicate IsCents(x: real) {
    (x * 100.0).Floor as real == x * 100.0
  }

  /** JavaScript's `Math.round`: the nearest integer, halves rounded up. */
  function MathRound(y: real): (n: int)
    ensures y - 0.5 < n as real <= y + 0.5
  {
    (y + 0.5).Floor
  }

  /** `round2`, with the epsilon nudge. */
  function Round2(x: real): (r: real)
    ensures IsCents(r)
    ensures x + Epsilon - 0.005 < r <= x + Epsilon + 0.005
  {
    var n := MathRound((x + Epsilon) * 100.0);
    CentsOfInt(n);
    n as real / 100.0
  }

  /** `Math.round(x * 100) / 100`, the rounding of the quotation preview (no epsilon). */
  function RoundPlain(x: real): (r: real)
    ensures IsCents(r)
    ensures x - 0.005 < r <= x + 0.005
  {
    var n := MathRound(x * 100.0);
    CentsOfInt(n);
    n as real / 100.0
  }

  /**
   * `Number(v || 0)` on an optional number: `None` stands for a missing,
   * null or otherwise falsy value.
   */
  function ToNum(v: Option<real>): real {
    v.GetOr(0.0)
  }

  function Min(a: real, b: real): (m: real)
    ensures m <= a && m <= b && (m == a || m == b)
  {
    if a <= b then a else b
  }

  lemma CentsOfInt(n: int)
    ensures IsCents(n as real / 100.0)
  {
    assert (n as real / 100.0) * 100.0 == n as real;
  }

  /** A whole number of cents is the integer it is, over 100. */
  lemma CentsAsInt(x: real) returns (k: int)
    requires IsCents(x)
    ensures x == k as real / 100.0
  {
    k := (x * 100.0).Floor;
  }

  /** Sums and differences of cents are cents. */
  lemma CentsClosed(a: real, b: real)
    requires IsCents(a) && IsCents(b)
    ensures IsCents(a + b) && IsCents(a - b) && IsCents(-a)
  {
    var ka := CentsAsInt(a);
    var kb := CentsAsInt(b);
    CentsOfInt(ka + kb);
    CentsOfInt(ka - kb);
    CentsOfInt(-ka);
    assert a + b == (ka + kb) as real / 100.0;
    assert a - b == (ka - kb) as real / 100.0;
    assert -a == (-ka) as real / 100.0;
  }

  /** round2 leaves a whole number of cents unchanged. */
  lemma Round2OfCents(x: real)
    requires IsCents(x)
    ensures Round2(x) == x
  {
    var k := CentsAsInt(x);
    assert (x + Epsilon) * 100.0 + 0.5 == k as real + (100.0 * Epsilon + 0.5);
    assert ((x + Epsilon) * 100.0 + 0.5).Floor == k;
  }

  /** The preview rounding leaves a whole number of cents unchanged. */
  lemma RoundPlainOfCents(x: real)
    requires IsCents(x)
    ensures RoundPlain(x) == x
  {
    var k := CentsAsInt(x);
    assert x * 100.0 + 0.5 == k as real + 0.5;
    assert (x * 100.0 + 0.5).Floor == k;
  }

  /** round2 never inverts the order of two amounts. */
  lemma Round2Monotone(x: real, y: real)
    requires x <= y
    ensures Round2(x) <= Round2(y)
  {
    FloorMonotone((x + Epsilon) * 100.0 + 0.5, (y + Epsilon) * 100.0 + 0.5);
  }

  lemma RoundPlainMonotone(x: real, y: real)
    requires x <= y
    ensures RoundPlain(x) <= RoundPlain(y)
  {
    FloorMonotone(x * 100.0 + 0.5, y * 100.0 + 0.5);
  }

  lemma FloorMonotone(a: real, b: real)
    requires a <= b
    ensures a.Floor <= b.Floor
  {
  }

  /** round2 of a non-negative amount is non-negative, of a non-positive one non-positive. */
  lemma Round2Sign(x: real)
    ensures x >= 0.0 ==> Round2(x) >= 0.0
    ensures x <= 0.0 ==> Round2(x) <= 0.0
  {
    Round2OfCents(0.0);
    if x >= 0.0 { Round2Monotone(0.0, x); } else { Round2Monotone(x, 0.0); }
  }

  lemma RoundPlainSign(x: real)
    ensures x >= 0.0 ==> RoundPlain(x) >= 0.0
    ensures x <= 0.0 ==> RoundPlain(x) <= 0.0
  {
    RoundPlainOfCents(0.0);
    if x >= 0.0 { RoundPlainMonotone(0.0, x); } else { RoundPlainMonotone(x, 0.0); }
  }

  /**
   * The two roundings differ: just below half a cent, the epsilon nudge of round2
   * carries the value up to a cent while the preview rounding gives 0.
   */
  lemma EpsilonMatters()
    ensures Round2(0.005 - Epsilon) == 0.01
    ensures RoundPlain(0.005 - Epsilon) == 0.0
  {
    assert ((0.005 - Epsilon + Epsilon) * 100.0 + 0.5).Floor == 1;
    assert ((0.005 - Epsilon) * 100.0 + 0.5) == 1.0 - 100.0 * Epsilon;
    assert ((0.005 - Epsilon) * 100.0 + 0.5).Floor == 0;
  }
}
