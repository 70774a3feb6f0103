// Facts about division that the solver is slow to find for itself.
module Arithmetic {
  lemma FarApart(d: int, x: int)
    requires d > 0
    ensures x >= 1 ==> d * x >= d
    ensures x <= -1 ==> d * x <= -d
  {
  }

  lemma DivModUnique(n: int, d: int, q: int, r: int)
    requires d > 0 && n == d * q + r && 0 <= r < d
    ensures n / d == q && n % d == r
  {
    var x := n / d - q;
    assert d * x == d * (n / d) - d * q;
    assert n == d * (n / d) + n % d;
    FarApart(d, x);
  }

  // C division and remainder, which truncate toward zero.
  function CDiv(a: int, b: int): int
    requires b > 0
  {
    if a >= 0 then a / b else -(-a / b)
  }

  function CMod(a: int, b: int): int
    requires b > 0
  {
    a - b * CDiv(a, b)
  }

  // The remainder has the sign of the dividend.
  lemma CDivSays(a: int, b: int)
    requires b > 0
    ensures a == b * CDiv(a, b) + CMod(a, b)
    ensures if a >= 0 then 0 <= CMod(a, b) < b else -b < CMod(a, b) <= 0
  {
  }
}
