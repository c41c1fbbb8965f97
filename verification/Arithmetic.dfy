/** Facts about products and quotients. */
module Arithmetic {

  lemma Monotone(x: int, y: int, b: int)
    requires b > 0
    ensures x <= y ==> x * b <= y * b
  {
  }

  lemma DivModUnique(a: int, b: int, q: int, r: int)
    requires b > 0 && a == q * b + r && 0 <= r < b
    ensures a / b == q && a % b == r
  {
    var x := a / b;
    assert a == x * b + a % b;
    Monotone(q + 1, x, b);
    Monotone(x, q - 1, b);
  }
}
