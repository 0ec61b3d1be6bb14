/** Go's integer division and remainder, which truncate toward zero (Dafny's
    `/` and `%` are Euclidean), and the 64-bit range Go's int64 covers. */
module GoArith {

  function Abs(a: int): nat
  {
    if a < 0 then -a else a
  }

  /** Go's `a / b`: the exact quotient with its fraction dropped. */
  function TruncDiv(a: int, b: int): int
    requires b != 0
  {
    if (a < 0) == (b < 0) then Abs(a) / Abs(b) else -(Abs(a) / Abs(b))
  }

  /** Go's `a % b`: takes the sign of `a`. */
  function TruncRem(a: int, b: int): int
    requires b != 0
  {
    a - b * TruncDiv(a, b)
  }

  /** Division and remainder recompose `a`; the remainder is smaller than the
      divisor and never has the opposite sign of the dividend. */
  lemma TruncDivMod(a: int, b: int)
    requires b != 0
    ensures a == b * TruncDiv(a, b) + TruncRem(a, b)
    ensures Abs(TruncRem(a, b)) < Abs(b)
    ensures a >= 0 ==> TruncRem(a, b) >= 0
    ensures a <= 0 ==> TruncRem(a, b) <= 0
  {
    var q, r := Abs(a) / Abs(b), Abs(a) % Abs(b);
    assert Abs(a) == Abs(b) * q + r;
    if (a < 0) == (b < 0) {
      SameSignRem(a, b, q, r);
    } else {
      OppositeSignRem(a, b, q, r);
    }
  }

  /** With equal signs the quotient is that of the magnitudes. */
  lemma SameSignRem(a: int, b: int, q: int, r: int)
    requires b != 0 && (a < 0) == (b < 0)
    requires q == Abs(a) / Abs(b) && r == Abs(a) % Abs(b) && Abs(a) == Abs(b) * q + r
    ensures TruncRem(a, b) == if a < 0 then -r else r
  {
    assert TruncDiv(a, b) == q;
    assert b * q == if b < 0 then -(Abs(b) * q) else Abs(b) * q;
  }

  /** With opposite signs the quotient is the negated one of the magnitudes. */
  lemma OppositeSignRem(a: int, b: int, q: int, r: int)
    requires b != 0 && (a < 0) != (b < 0)
    requires q == Abs(a) / Abs(b) && r == Abs(a) % Abs(b) && Abs(a) == Abs(b) * q + r
    ensures TruncRem(a, b) == if a < 0 then -r else r
  {
    assert TruncDiv(a, b) == -q;
    assert b * -q == if b < 0 then Abs(b) * q else -(Abs(b) * q);
  }

  /** Truncating division by a positive divisor agrees with Dafny's on
      non-negative dividends and is odd in the dividend. */
  lemma TruncDivPositive(a: int, b: int)
    requires b > 0
    ensures a >= 0 ==> TruncDiv(a, b) == a / b
    ensures TruncDiv(-a, b) == -TruncDiv(a, b)
  {
  }

  /** Multiplying by a non-negative factor keeps order. */
  lemma {:induction false} MulMonotone(c: nat, a: nat, b: nat)
    requires a <= b
    ensures c * a <= c * b
  {
    if c > 0 {
      MulMonotone(c - 1, a, b);
      assert c * a == (c - 1) * a + a && c * b == (c - 1) * b + b;
    }
  }

  const MinInt64: int := -0x8000_0000_0000_0000
  const MaxInt64: int := 0x7FFF_FFFF_FFFF_FFFF

  /** Saturation into the int64 range, as time.Time.Sub does. */
  function Clamp64(x: int): (r: int)
    ensures MinInt64 <= r <= MaxInt64
    ensures MinInt64 <= x <= MaxInt64 ==> r == x
    ensures x > MaxInt64 ==> r == MaxInt64
    ensures x < MinInt64 ==> r == MinInt64
  {
    if x > MaxInt64 then MaxInt64 else if x < MinInt64 then MinInt64 else x
  }
}
