/** Arithmetic that several components share. */
module Arith {

  function Min(a: nat, b: nat): (m: nat)
    ensures m <= a && m <= b && (m == a || m == b)
  {
    if a <= b then a else b
  }

  /** Go's integer division, which truncates toward zero. */
  function Quotient(a: int, b: int): (q: int)
    requires b > 0
  {
    if a >= 0 then a / b else -((-a) / b)
  }

  /** It is the quotient cut off toward zero: the multiple of b next to a on the side of zero. */
  lemma QuotientTruncates(a: int, b: int)
    requires b > 0
    ensures a >= 0 ==> Quotient(a, b) * b <= a < (Quotient(a, b) + 1) * b
    ensures a <= 0 ==> (Quotient(a, b) - 1) * b < a <= Quotient(a, b) * b
  {
    var n := if a >= 0 then a else -a;
    var q := n / b;
    assert n == q * b + n % b;
    assert (q + 1) * b == q * b + b;
    assert -q * b == -(q * b) && (-q - 1) * b == -(q * b) - b;
  }

  /** For comparing with a count: the quotient is at most n exactly when (n + 1) * b exceeds a. */
  lemma QuotientAtMost(a: int, b: int, n: nat)
    requires b > 0
    ensures Quotient(a, b) <= n <==> a < (n + 1) * b
  {
    QuotientTruncates(a, b);
    var q := Quotient(a, b);
    if q <= n {
      Multiples(q + 1, n + 1, b);
    } else {
      Multiples(n + 1, q, b);
    }
    if a < 0 {
      assert (n + 1) * b == n * b + b;
    }
  }

  lemma Multiples(m: int, n: int, b: int)
    requires b > 0 && m <= n
    ensures m * b <= n * b
  {
  }

  /** It keeps order, whatever the signs: a larger budget never means a smaller share. */
  lemma QuotientMonotone(a: int, b: int, n: int)
    requires n > 0 && a <= b
    ensures Quotient(a, n) <= Quotient(b, n)
  {
    if a >= 0 {
      DivMonotone(a, b, n);
    } else if b < 0 {
      DivMonotone(-b, -a, n);
    } else {
      DivMonotone(0, -a, n);
      DivMonotone(0, b, n);
    }
  }

  lemma DivMonotone(a: int, b: int, n: int)
    requires n > 0 && 0 <= a <= b
    ensures 0 <= a / n <= b / n
  {
    var q, r := a / n, b / n;
    assert n * q <= a && b < n * (r + 1);
    MulOrder(n, q, r + 1);
  }

  lemma MulOrder(n: int, q: int, r: int)
    requires n > 0 && n * q < n * r
    ensures q < r
  {
  }
}
