/**
 * The four integer divisions the arithmetic questions ask about, defined
 * independently of Dafny's own `/` and `%` (which are Euclidean: the
 * remainder is never negative).
 *
 *  - floor division rounds the quotient towards minus infinity; its
 *    remainder (`mod`) is zero or has the sign of the divisor;
 *  - truncating division rounds the quotient towards zero (C's `/`); its
 *    remainder (`rem`, C's `%`) is zero or has the sign of the dividend.
 *
 * Each pair is characterised by a uniqueness lemma: any `q`, `r` with
 * `a == q * b + r` and the remainder conditions are the quotient and the
 * remainder.
 */
module Division {

  function Abs(x: int): (r: nat)
    ensures r == x || r == -x
  {
    if x < 0 then -x else x
  }

  /** -1, 0 or +1. */
  function Sign(x: int): (r: int)
    ensures r == -1 || r == 0 || r == 1
    ensures r * Abs(x) == x
  {
    if x < 0 then -1 else if x > 0 then 1 else 0
  }

  /** Zero, or of the same sign as `y`. */
  predicate ZeroOrSignOf(r: int, y: int) {
    r == 0 || Sign(r) == Sign(y)
  }

  function FloorDiv(a: int, b: int): int
    requires b != 0
  {
    if b > 0 then a / b else (-a) / (-b)
  }

  function FloorMod(a: int, b: int): int
    requires b != 0
  {
    a - b * FloorDiv(a, b)
  }

  /** The quotient of the magnitudes, negated when the signs differ. */
  function TruncDiv(a: int, b: int): int
    requires b != 0
  {
    if (a < 0) == (b < 0) then Abs(a) / Abs(b) else -(Abs(a) / Abs(b))
  }

  function TruncRem(a: int, b: int): int
    requires b != 0
  {
    a - b * TruncDiv(a, b)
  }

  // ---------------------------------------------------------------------
  // Small facts about products
  // ---------------------------------------------------------------------

  /** A multiple of `b` strictly inside `(-b, b)` is zero. */
  lemma MultipleInsideIsZero(b: int, x: int)
    requires b > 0 && -b < x * b < b
    ensures x == 0
  {
  }

  /** Two decompositions of one number differ by a multiple of the divisor. */
  lemma DifferenceIsMultiple(a: int, b: int, q: int, r: int, q': int, r': int)
    requires a == q * b + r && a == q' * b + r'
    ensures (q - q') * b == r' - r
  {
  }

  /** Remainders in a common window of width `|b|` leave equal quotients. */
  lemma {:induction false} SameWindow(a: int, b: int, q: int, r: int, q': int, r': int)
    requires b != 0 && a == q * b + r && a == q' * b + r'
    requires Abs(r' - r) < Abs(b)
    ensures q == q' && r == r'
  {
    DifferenceIsMultiple(a, b, q, r, q', r');
    if b > 0 {
      MultipleInsideIsZero(b, q - q');
    } else {
      assert (q' - q) * (-b) == r' - r;
      MultipleInsideIsZero(-b, q' - q);
    }
  }

  // ---------------------------------------------------------------------
  // Floor division
  // ---------------------------------------------------------------------

  /** The quotient-remainder identity and the remainder's sign and size. */
  lemma FloorDivMod(a: int, b: int)
    requires b != 0
    ensures a == FloorDiv(a, b) * b + FloorMod(a, b)
    ensures ZeroOrSignOf(FloorMod(a, b), b) && Abs(FloorMod(a, b)) < Abs(b)
  {
    if b < 0 {
      var q, m := (-a) / (-b), (-a) % (-b);
      assert -a == q * (-b) + m && 0 <= m < -b;
      assert FloorMod(a, b) == -m;
    }
  }

  /** Any decomposition with a floor-style remainder is the floor one. */
  lemma {:induction false} FloorUnique(a: int, b: int, q: int, r: int)
    requires b != 0 && a == q * b + r
    requires ZeroOrSignOf(r, b) && Abs(r) < Abs(b)
    ensures FloorDiv(a, b) == q && FloorMod(a, b) == r
  {
    FloorDivMod(a, b);
    SameWindow(a, b, q, r, FloorDiv(a, b), FloorMod(a, b));
  }

  // ---------------------------------------------------------------------
  // Truncating division
  // ---------------------------------------------------------------------

  lemma NegateFactor(x: int, y: int)
    ensures (-x) * y == -(x * y) && x * (-y) == -(x * y)
  {
  }

  /** Division of magnitudes, with the signs put back. */
  lemma {:induction false} TruncDivRem(a: int, b: int)
    requires b != 0
    ensures a == TruncDiv(a, b) * b + TruncRem(a, b)
    ensures ZeroOrSignOf(TruncRem(a, b), a) && Abs(TruncRem(a, b)) < Abs(b)
  {
    var rr := TruncRemMagnitude(a, b);
    assert ZeroOrSignOf(TruncRem(a, b), a) && Abs(TruncRem(a, b)) < Abs(b) by {
      assert 0 <= rr < Abs(b);
    }
  }

  /** The remainder is the remainder of the magnitudes, with the dividend's sign. */
  lemma {:induction false} TruncRemMagnitude(a: int, b: int) returns (rr: int)
    requires b != 0
    ensures a == TruncDiv(a, b) * b + TruncRem(a, b)
    ensures 0 <= rr < Abs(b) && TruncRem(a, b) == (if a < 0 then -rr else rr)
  {
    var n: int, d: int := Abs(a), Abs(b);
    var qq: int := n / d;
    rr := n % d;
    assert n == qq * d + rr && 0 <= rr < d;
    var t := TruncDiv(a, b);
    if a < 0 && b < 0 {
      PutSigns(a, b, t, n, d, qq, rr, -1, -1);
    } else if a < 0 {
      PutSigns(a, b, t, n, d, qq, rr, -1, 1);
    } else if b < 0 {
      PutSigns(a, b, t, n, d, qq, rr, 1, -1);
    } else {
      PutSigns(a, b, t, n, d, qq, rr, 1, 1);
    }
  }

  /** `n = qq * d + rr` with the signs `sa` and `sb` put on the dividend and the divisor. */
  lemma PutSigns(a: int, b: int, t: int, n: int, d: int, qq: int, rr: int, sa: int, sb: int)
    requires n == qq * d + rr
    requires (sa == 1 || sa == -1) && (sb == 1 || sb == -1)
    requires a == sa * n && b == sb * d && t == sa * sb * qq
    ensures a == t * b + sa * rr && a - b * t == sa * rr
  {
    NegateFactor(qq, d);
    if sa == -1 && sb == -1 {
      assert t * b == -(qq * d);
    } else if sa == -1 {
      assert t * b == -(qq * d);
    } else if sb == -1 {
      NegateFactor(-qq, d);
      assert t * b == qq * d;
    }
  }

  /** Any decomposition with a truncation-style remainder is the truncating one. */
  lemma {:induction false} TruncUnique(a: int, b: int, q: int, r: int)
    requires b != 0 && a == q * b + r
    requires ZeroOrSignOf(r, a) && Abs(r) < Abs(b)
    ensures TruncDiv(a, b) == q && TruncRem(a, b) == r
  {
    TruncDivRem(a, b);
    SameWindow(a, b, q, r, TruncDiv(a, b), TruncRem(a, b));
  }

  /** An exact division is the same under both roundings. */
  lemma ExactDivision(c: int, b: int)
    requires b != 0
    ensures FloorDiv(c * b, b) == c && TruncDiv(c * b, b) == c
    ensures FloorMod(c * b, b) == 0 && TruncRem(c * b, b) == 0
  {
    FloorUnique(c * b, b, c, 0);
    TruncUnique(c * b, b, c, 0);
  }

  /** The two divisions agree when the dividend and divisor have the same sign. */
  lemma {:induction false} SameSignAgree(a: int, b: int)
    requires b != 0 && Sign(a) * Sign(b) >= 0
    ensures FloorDiv(a, b) == TruncDiv(a, b) && FloorMod(a, b) == TruncRem(a, b)
  {
    TruncDivRem(a, b);
    var r := TruncRem(a, b);
    assert ZeroOrSignOf(r, b);
    FloorUnique(a, b, TruncDiv(a, b), r);
  }
}
