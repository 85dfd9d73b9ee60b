/** Division of naturals by a variable, kept behind names. */
module Arithmetic {
  function Quotient(x: nat, d: nat): (q: nat)
    requires d > 0
  {
    x / d
  }

  function Remainder(x: nat, d: nat): (r: nat)
    requires d > 0
    ensures r < d && r <= x && x == Quotient(x, d) * d + r
  {
    x % d
  }

  lemma MulBound(e: int, d: int)
    requires d > 0
    ensures e >= 1 ==> e * d >= d
    ensures e <= -1 ==> e * d <= -d
  {
  }

  lemma DivModUnique(x: nat, d: nat, q: nat, r: nat)
    requires d > 0 && r < d && x == q * d + r
    ensures Quotient(x, d) == q && Remainder(x, d) == r
  {
    var q', r' := Quotient(x, d), Remainder(x, d);
    MulBound(q - q', d);
    assert (q - q') * d == r' - r;
  }
}
