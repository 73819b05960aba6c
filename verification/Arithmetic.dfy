/** Products and quotients, one step at a time: what the solver's own arithmetic does not find reliably. */
module Arithmetic {

  lemma TimesSum(a: int, b: int, c: int)
    ensures (a + b) * c == a * c + b * c
  {}

  lemma SumTimes(a: int, b: int, c: int)
    ensures a * (b + c) == a * b + a * c
  {}

  lemma NotNegative(a: nat, b: nat)
    ensures a * b >= 0
  {}

  lemma StepUp(q: int, r: int, d: nat)
    requires q < r
    ensures r * d >= q * d + d
  {
    TimesSum(q, r - q, d);
    TimesSum(r - q - 1, 1, d);
    NotNegative(r - q - 1, d);
  }

  lemma ProductBelow(a: int, b: nat, c: nat, d: nat)
    requires a <= b && c <= d
    ensures a * c <= b * d
  {
    TimesSum(a, b - a, c);
    NotNegative(b - a, c);
    SumTimes(b, c, d - c);
    NotNegative(b, d - c);
  }

  lemma DivisionLaw(x: int, d: nat)
    requires d > 0
    ensures x == x / d * d + x % d && 0 <= x % d < d
  {}

  lemma Quotient(x: int, d: nat, q: int, r: nat)
    requires x == q * d + r && r < d
    ensures x / d == q
  {
    var p := x / d;
    DivisionLaw(x, d);
    if p < q {
      StepUp(p, q, d);
    } else if q < p {
      StepUp(q, p, d);
    }
  }
}
