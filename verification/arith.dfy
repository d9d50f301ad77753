/** Small facts about integer multiplication and Euclidean division, proved by hand. */
module Arith {

  lemma MulNonNegative(a: int, b: int)
    requires a >= 0 && b >= 0
    ensures a * b >= 0
  {
  }

  /** Division by a positive number has one quotient and one remainder. */
  lemma DivModUnique(a: int, w: int, q: int, r: int)
    requires w > 0 && a == w * q + r && 0 <= r < w
    ensures a / w == q && a % w == r
  {
    var q0, r0 := a / w, a % w;
    assert a == w * q0 + r0;
    assert w * (q0 - q) == r - r0;
    if q0 - q >= 1 {
      assert w * (q0 - q) == w * (q0 - q - 1) + w;
      MulNonNegative(w, q0 - q - 1);
    } else if q0 - q <= -1 {
      assert w * (q - q0) == w * (q - q0 - 1) + w;
      MulNonNegative(w, q - q0 - 1);
    }
  }

  /** A multiple of w is divisible by w, whatever its sign. */
  lemma MultipleDiv(k: int, w: int)
    requires w > 0
    ensures (k * w) / w == k && (k * w) % w == 0
  {
    DivModUnique(k * w, w, k, 0);
  }

  /** A divisor of 360 splits the turn into whole segments. */
  lemma WidthTimesCount(n: int)
    requires n > 0 && 360 % n == 0
    ensures 360 / n > 0 && n * (360 / n) == 360
  {
  }

  /** Fewer than n segments of width w make less than a turn of n w. */
  lemma PartialTurn(n: int, w: int, i: int)
    requires w > 0 && 0 <= i < n
    ensures 0 <= i * w <= n * w - w
  {
    MulNonNegative(i, w);
    MulNonNegative(n - 1 - i, w);
    assert n * w - w - i * w == (n - 1 - i) * w;
  }

  /**
   Facts about real products and quotients. Each keeps the products it relates in
   named variables, which lets the solver treat them as plain unknowns.
   */
  lemma RealMulNonNegative(a: real, b: real)
    requires a >= 0.0 && b >= 0.0
    ensures a * b >= 0.0
  {
  }

  lemma RealMulStrictMono(a: real, b: real, w: real)
    requires a < b && w > 0.0
    ensures a * w < b * w
  {
    assert (b - a) * w > 0.0;
  }

  /** Dividing a multiple of w by w gives the multiplier back. */
  lemma RealDivOfMultiple(x: real, a: real, w: real)
    requires w != 0.0 && x == a * w
    ensures x / w == a
  {
  }

  /** Fewer than N segments of width w, where N w is a turn, make less than a turn. */
  lemma PartialTurnReal(j: real, n: real, w: real)
    requires 0.0 <= j < n && w > 0.0 && w * n == 360.0
    ensures 0.0 <= j * w < 360.0
  {
    RealMulNonNegative(j, w);
    RealMulStrictMono(j, n, w);
    var turn, part := n * w, j * w;
    assert part < turn;
  }

  /** Turning back i segments is turning forward n - i segments and back a whole turn. */
  lemma MirrorTurn(i: real, m: real, n: real, w: real)
    requires m == n - i && w * n == 360.0
    ensures -(i * w) == m * w - 360.0
  {
    var turn, back, rest := n * w, i * w, m * w;
    assert rest == turn - back;
  }

  lemma RealDivNonNegative(x: real, w: real)
    requires x >= 0.0 && w > 0.0
    ensures x / w >= 0.0
  {
  }

  /** Below b segments of width w is fewer than b segments. */
  lemma RealDivLess(a: real, b: real, w: real)
    requires w > 0.0 && a < b * w
    ensures a / w < b
  {
    var u := a / w;
    assert u * w == a;
    var gap := (b - u) * w;
    assert gap == b * w - u * w;
  }

  /** At least b segments of width w is at least b segments. */
  lemma RealDivAtLeast(a: real, b: real, w: real)
    requires w > 0.0 && b * w <= a
    ensures b <= a / w
  {
    var u := a / w;
    assert u * w == a;
    var gap := (u - b) * w;
    assert gap == u * w - b * w;
  }

  /** An angle short of a full turn is fewer than n + 1/2 segments. */
  lemma NearTurnBound(a: real, n: real, w: real)
    requires w > 0.0 && w * n == 360.0 && a < 360.0
    ensures a / w < n + 0.5
  {
    var upper := (n + 0.5) * w;
    assert upper == n * w + 0.5 * w;
    RealDivLess(a, n + 0.5, w);
  }

  /** An angle within half a segment below a full turn is between n - 1/2 and n segments. */
  lemma NearTurnQuotient(a: real, n: real, w: real)
    requires w > 0.0 && w * n == 360.0
    requires 360.0 - w / 2.0 <= a < 360.0
    ensures n - 0.5 <= a / w < n
  {
    var lower := (n - 0.5) * w;
    assert lower == n * w - 0.5 * w;
    RealDivAtLeast(a, n - 0.5, w);
    var turn := n * w;
    RealDivLess(a, n, w);
  }
}
