/** Facts about multiplication and division that the solver does not find alone. */
module Arithmetic {

  lemma Assoc(a: int, b: int, c: int)
    ensures a * (b * c) == (a * b) * c
  {}

  lemma Distribute(a: int, b: int, c: int)
    ensures (a + b) * c == a * c + b * c
  {}

  lemma MulLess(a: nat, b: nat, c: nat)
    requires a < b && 0 < c
    ensures a * c < b * c
    ensures a * c + c <= b * c
  {
    Distribute(b - a - 1, a + 1, c);
    Distribute(a, 1, c);
    assert (b - a - 1) * c >= 0;
  }

  lemma CancelLess(a: nat, b: nat, c: nat)
    requires a * c < b * c
    ensures a < b
  {
    if b < a {
      MulLess(b, a, c);
    }
  }

  lemma DivMod(x: nat, d: nat)
    requires d > 0
    ensures x == (x / d) * d + x % d
  {}

  lemma DivModUnique(x: nat, d: nat, q: nat, r: nat)
    requires d > 0 && r < d && x == q * d + r
    ensures x / d == q && x % d == r
  {
    DivMod(x, d);
    if x / d < q {
      MulLess(x / d, q, d);
    } else if q < x / d {
      MulLess(q, x / d, d);
    }
  }

  lemma SmallMod(r: nat, d: nat)
    requires r < d
    ensures r % d == r
  {}

  lemma MultipleOf(d: nat, q: nat)
    requires d > 0
    ensures (d * q) % d == 0 && (d * q) / d == q
  {
    assert d * q == q * d + 0;
    DivModUnique(d * q, d, q, 0);
  }
}
