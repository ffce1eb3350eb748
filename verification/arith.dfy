/** Integer division as the panel's C code performs it, and the facts about
    Dafny's own division that the fades need.  Dafny's `/` on `int` is
    Euclidean; C's `/` truncates toward zero.  The two agree on a
    non-negative dividend and a positive divisor. */
module Arith {

  /** `a == q * p + r` with `0 <= r < p` fixes `a / p` and `a % p`. */
  lemma DivModUnique(a: int, p: int, q: int, r: int)
    requires p > 0 && 0 <= r < p && a == q * p + r
    ensures a / p == q && a % p == r
  {
    var q', r' := a / p, a % p;
    assert q' * p + r' == q * p + r;
    assert (q' - q) * p == q' * p - q * p;
    if q' > q {
      MulAtLeast(q' - q, p);
    } else if q' < q {
      MulAtLeast(q - q', p);
    }
  }

  /** `2^n`. */
  function Pow2(n: nat): (p: nat)
    ensures p >= 1
  {
    if n == 0 then 1 else 2 * Pow2(n - 1)
  }

  lemma MulAtLeast(d: int, p: int)
    requires d >= 1 && p >= 0
    ensures d * p >= p
  {
    assert d * p == (d - 1) * p + p;
  }

  lemma MulMono(a: int, b: int, c: int)
    requires a <= b && c >= 0
    ensures a * c <= b * c
  {
    if a < b {
      MulAtLeast(b - a, c);
      assert b * c - a * c == (b - a) * c;
    }
  }

  /** Division by a positive number is monotone. */
  lemma DivMono(a: int, b: int, c: int)
    requires a <= b && c > 0
    ensures a / c <= b / c
  {
    if a / c > b / c {
      assert (b / c + 1) * c == b / c * c + c;
      MulMono(b / c + 1, a / c, c);
    }
  }

  /** `(d * c) / c == d` for a positive `c`. */
  lemma MulDiv(d: int, c: int)
    requires c > 0
    ensures (d * c) / c == d
  {
    DivModUnique(d * c, c, d, 0);
  }

  /** The C quotient `a / b` for a positive divisor. */
  function TDiv(a: int, b: int): int
    requires b > 0
  {
    if a >= 0 then a / b else -((-a) / b)
  }

  /** The C quotient is truncated toward zero: `q * b` is the multiple of `b`
      nearest `a` on the side of zero. */
  lemma TDivTruncates(a: int, b: int)
    requires b > 0
    ensures a >= 0 ==> 0 <= TDiv(a, b) * b <= a < TDiv(a, b) * b + b
    ensures a < 0 ==> TDiv(a, b) * b - b < a <= TDiv(a, b) * b <= 0
  {
    if a >= 0 {
      DivBracket(a, b);
    } else {
      DivBracket(-a, b);
      assert TDiv(a, b) * b == -(((-a) / b) * b);
    }
  }

  /** A non-negative `a` lies in `[(a / b) * b, (a / b) * b + b)`. */
  lemma DivBracket(a: int, b: int)
    requires b > 0 && a >= 0
    ensures 0 <= (a / b) * b <= a < (a / b) * b + b
  {
    var q, r := a / b, a % b;
    assert a == q * b + r;
    MulMono(0, q, b);
  }

  /** Truncation is symmetric about zero, which Euclidean division is not. */
  lemma TDivNeg(a: int, b: int)
    requires b > 0
    ensures TDiv(-a, b) == -TDiv(a, b)
  {
    if a == 0 {
      assert -a == 0;
    }
  }

  /** The C remainder `a % b` for a positive divisor. */
  function TRem(a: int, b: int): int
    requires b > 0
  {
    a - TDiv(a, b) * b
  }

  /** Whether `b` divides `a` does not depend on which remainder is taken. */
  lemma TRemZero(a: int, b: int)
    requires b > 0
    ensures TRem(a, b) == 0 <==> a % b == 0
  {
    if a < 0 {
      var q := (-a) / b;
      if (-a) % b == 0 {
        DivModUnique(a, b, -q, 0);
      } else {
        DivModUnique(a, b, -q - 1, b - (-a) % b);
      }
    }
  }

  function Abs(m: int): nat
  {
    if m < 0 then -m else m
  }

  /** The C quotient `a / m` of a non-negative `a` by a non-zero `m` of
      either sign: truncated toward zero. */
  function CQuot(a: nat, m: int): int
    requires m != 0
  {
    if m > 0 then a / m else -(a / -m)
  }

  /** The C remainder `a % m` of a non-negative `a` by a non-zero `m` of
      either sign: what C's identity `(a / m) * m + a % m == a` leaves, which
      for a non-negative `a` is the remainder by `|m|`. */
  function CRem(a: nat, m: int): (r: nat)
    requires m != 0
    ensures r < Abs(m)
    ensures CQuot(a, m) * m + r == a
  {
    assert m < 0 ==> -(a / -m) * m == (a / -m) * (-m);
    a % Abs(m)
  }
}
