/** Integer arithmetic as C defines it: the quotient truncates toward zero. */
module CArithmetic {

  const INT_MAX: int := 0x7fff_ffff

  function Abs(n: int): (r: nat) {
    if n < 0 then -n else n
  }

  function TruncDiv(a: int, b: int): int
    requires b != 0
  {
    var quotient := (if a >= 0 then a else -a) / (if b > 0 then b else -b);
    if (a >= 0) == (b > 0) then quotient else -quotient
  }

  function TruncMod(a: int, b: int): int
    requires b != 0
  {
    a - b * TruncDiv(a, b)
  }

  /** The remainder is smaller than the divisor and has the sign of the dividend. */
  lemma RemainderFollowsTheDividend(a: int, b: int)
    requires b != 0
    ensures a == b * TruncDiv(a, b) + TruncMod(a, b) && Abs(TruncMod(a, b)) < Abs(b)
    ensures (a >= 0 ==> TruncMod(a, b) >= 0) && (a <= 0 ==> TruncMod(a, b) <= 0)
  {
    var n, d := if a >= 0 then a else -a, if b > 0 then b else -b;
    QuotientAndRemainder(n, d);
    SignsOfAProduct(d, n / d);
    if (a >= 0) == (b > 0) {
      assert TruncDiv(a, b) == n / d;
    } else {
      assert TruncDiv(a, b) == -(n / d);
    }
  }

  lemma QuotientAndRemainder(n: int, d: int)
    requires n >= 0 && d > 0
    ensures 0 <= n - d * (n / d) < d
  {
    assert n == d * (n / d) + n % d;
  }

  lemma SignsOfAProduct(d: int, q: int)
    ensures -d * q == -(d * q) && d * -q == -(d * q) && -d * -q == d * q
  {
  }

  lemma ProductIsNatural(a: int, b: int)
    requires a >= 0 && b >= 0
    ensures a * b >= 0
  {
  }
}
