/** Facts about products, quotients and remainders that the timing and layout proofs share. */
module Arithmetic {

  lemma Scaled(d: int, b: int)
    requires b > 0
    ensures d >= 1 ==> d * b >= b
    ensures d <= -1 ==> d * b <= -b
  {
  }

  lemma Multiple(q: int, b: int)
    requires q >= 0 && b > 0
    ensures q * b >= 0
  {
  }

  lemma Sum(a: int, b: int, c: int)
    ensures a * c + b * c == (a + b) * c
  {
  }

  lemma DivModUnique(a: int, b: int, q: int, r: int)
    requires b > 0 && 0 <= r < b && a == q * b + r
    ensures a / b == q && a % b == r
  {
    var d := q - a / b;
    assert d * b == a % b - r;
    Scaled(d, b);
  }
}
