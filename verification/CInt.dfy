/**
 C integer arithmetic: `/` truncates toward zero and `%` takes the sign of the
 dividend, whereas Dafny's operators are Euclidean. For a positive divisor the
 Euclidean quotient is the floor, which is what the C idioms below compute.
 */
module CInt {

  function Div(a: int, b: int): int
    requires b != 0
  {
    if b > 0 then (if a >= 0 then a / b else -((-a) / b))
    else (if a >= 0 then -(a / (-b)) else (-a) / (-b))
  }

  function Rem(a: int, b: int): int
    requires b != 0
  {
    a - b * Div(a, b)
  }

  lemma ProductAtLeast(n: int, k: int)
    requires n > 0 && k >= 1
    ensures n * k >= n
  {
  }

  lemma ProductMonotone(x: int, y: int, z: int)
    ensures x <= y && z >= 0 ==> x * z <= y * z
  {
  }

  lemma Distribute(n: int, a: int, b: int)
    ensures n * (a - b) == n * a - n * b
  {
  }

  /** Quotient and remainder are the only pair with the remainder in `[0, n)`. */
  lemma QuotientUnique(x: int, n: int, q: int, r: int)
    requires 0 <= r < n
    requires x == n * q + r
    ensures x / n == q && x % n == r
  {
    var q', r' := x / n, x % n;
    Distribute(n, q, q');
    Distribute(n, q', q);
    if q > q' {
      ProductAtLeast(n, q - q');
    } else if q < q' {
      ProductAtLeast(n, q' - q);
    }
  }

  /** A C remainder is zero exactly when the Euclidean one is. */
  lemma RemZero(a: int, n: int)
    requires n > 0
    ensures Rem(a, n) == 0 <==> a % n == 0
  {
    if a >= 0 {
      NonNegative(a, n);
    } else {
      Negative(a, n);
      hide Div, Rem;
      var q, r := (-a) / n, (-a) % n;
      Distribute(n, 0, q);
      Distribute(n, 0, q + 1);
      Distribute(n, q, -1);
      QuotientUnique(a, n, if r == 0 then -q else -(q + 1), if r == 0 then 0 else n - r);
    }
  }

  /** Below 0, the C operators are those of the negated dividend, negated. */
  lemma Negative(a: int, n: int)
    requires a < 0 && n > 0
    ensures Div(a, n) == -((-a) / n) && Rem(a, n) == -((-a) % n)
  {
    var q := (-a) / n;
    assert -a == n * q + (-a) % n;
    Distribute(n, 0, q);
  }

  /** From 0 on, the C operators are the Euclidean ones. */
  lemma NonNegative(a: int, n: int)
    requires a >= 0 && n > 0
    ensures Div(a, n) == a / n && Rem(a, n) == a % n
  {
  }

  /** The quotient is truncated toward zero: the remainder is smaller than the divisor
      and has the sign of the dividend. Only one pair is like that. */
  lemma Truncates(a: int, b: int)
    requires b != 0
    ensures a == b * Div(a, b) + Rem(a, b)
    ensures var r, n := Rem(a, b), if b > 0 then b else -b;
            if a >= 0 then 0 <= r < n else -n < r <= 0
  {
    var n := if b > 0 then b else -b;
    if b < 0 {
      OppositeDivisor(a, n);
    }
    if a >= 0 {
      NonNegative(a, n);
    } else {
      Negative(a, n);
    }
    assert Rem(a, b) == a - b * Div(a, b);
    hide Div, Rem;
  }

  lemma OppositeDivisor(a: int, n: int)
    requires n > 0
    ensures Div(a, -n) == -Div(a, n) && Rem(a, -n) == Rem(a, n)
  {
    var q := Div(a, n);
    assert Div(a, -n) == -q;
    assert -n * -q == n * q;
  }

  /** The idiom `(a - (n-1)) / n` and `(n-1) + (a+1) % n` for a negative `a` is
      the floor quotient and the non-negative remainder. */
  lemma FloorIdiom(a: int, n: int)
    requires n > 0 && a < 0
    ensures Div(a - (n - 1), n) == a / n
    ensures (n - 1) + Rem(a + 1, n) == a % n
  {
    var q, r := a / n, a % n;
    assert a == n * q + r;
    assert n * -q == -(n * q);
    QuotientUnique(n - 1 - a, n, -q, n - 1 - r);
    assert n * (-q - 1) == -(n * q) - n;
    QuotientUnique(-a - 1, n, -q - 1, n - 1 - r);
  }

  /** A product kept as one term. */
  function Times(a: int, b: int): int {
    a * b
  }

  lemma TimesIs(a: int, b: int)
    ensures Times(a, b) == a * b
  {
  }
}
