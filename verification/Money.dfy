/** Amounts in whole minor units, rounded half away from zero. */
module Money {
  import opened Arithmetic

  /** Go's truncating division on a numerator of either sign; the denominator is never negative here. */
  function DivRound(numerator: int, denominator: nat): int {
    if denominator == 0 then 0
    else if numerator >= 0 then (numerator + denominator / 2) / denominator
    else -((-numerator + denominator / 2) / denominator)
  }

  function LineNet(quantityMilli: int, unitPriceMinor: int): int {
    DivRound(quantityMilli * unitPriceMinor, 1000)
  }

  function Vat(netMinor: int, rateBp: int): int {
    DivRound(netMinor * rateBp, 10000)
  }

  function Scale(minor: int, numerator: int, denominator: nat): int {
    DivRound(minor * numerator, denominator)
  }

  function VatInGross(grossMinor: int, rateBp: nat): int {
    DivRound(grossMinor * rateBp, 10000 + rateBp)
  }

  /** A price with VAT at a rate, as it is shown. */
  function GrossOf(netMinor: int, rateBp: nat): int {
    netMinor + Vat(netMinor, rateBp)
  }

  /** A typed price including VAT, as the net it is stored as. */
  function GrossToNet(grossMinor: int, rateBp: nat): int {
    Scale(grossMinor, 10000, 10000 + rateBp)
  }

  // ---------- What rounding means

  /** q is an integer nearest to n/d, and the one further from zero where two are. */
  predicate Nearest(n: int, d: nat, q: int) {
    if n >= 0 then 2 * (q * d) - d <= 2 * n < 2 * (q * d) + d else 2 * (q * d) - d < 2 * n <= 2 * (q * d) + d
  }

  function Apart(a: int, b: int): nat {
    if a >= b then a - b else b - a
  }

  lemma DivRoundIsNearest(n: int, d: nat)
    requires d > 0
    ensures Nearest(n, d, DivRound(n, d))
  {
    var a := (if n >= 0 then n else -n) + d / 2;
    assert a == (a / d) * d + a % d;
    TimesSum(a / d, -(a / d), d);
  }

  /** DivRound is the only such integer. */
  lemma NearestIsDivRound(n: int, d: nat, q: int)
    requires d > 0
    ensures Nearest(n, d, q) <==> q == DivRound(n, d)
  {
    DivRoundIsNearest(n, d);
    var r := DivRound(n, d);
    hide DivRound;
    if Nearest(n, d, q) && q < r {
      StepUp(q, r, d);
    } else if Nearest(n, d, q) && r < q {
      StepUp(r, q, d);
    }
  }

  /** Every amount is the nearest whole minor unit to what it stands for. */
  lemma AmountsAreNearest(quantityMilli: int, price: int, minor: int, rateBp: nat)
    ensures Nearest(quantityMilli * price, 1000, LineNet(quantityMilli, price))
    ensures Nearest(minor * rateBp, 10000, Vat(minor, rateBp))
    ensures Nearest(minor * rateBp, 10000, GrossOf(minor, rateBp) - minor)
    ensures Nearest(minor * rateBp, 10000 + rateBp, VatInGross(minor, rateBp))
    ensures Nearest(minor * 10000, 10000 + rateBp, GrossToNet(minor, rateBp))
  {
    DivRoundIsNearest(quantityMilli * price, 1000);
    DivRoundIsNearest(minor * rateBp, 10000);
    DivRoundIsNearest(minor * rateBp, 10000 + rateBp);
    DivRoundIsNearest(minor * 10000, 10000 + rateBp);
  }

  /** No whole number is nearer. */
  lemma NothingNearer(n: int, d: nat, p: int)
    requires d > 0
    ensures Apart(n, DivRound(n, d) * d) <= Apart(n, p * d)
  {
    var q := DivRound(n, d);
    DivRoundIsNearest(n, d);
    hide DivRound;
    if p < q {
      StepUp(p, q, d);
    } else if q < p {
      StepUp(q, p, d);
    }
  }

  /** Halves go away from zero, and both sides of it are rounded alike. */
  lemma HalvesAwayFromZero(n: int, d: nat, k: nat)
    requires d > 0
    ensures 2 * n == 2 * (k * d) + d ==> DivRound(n, d) == k + 1
    ensures DivRound(-n, d) == -DivRound(n, d)
  {
    if 2 * n == 2 * (k * d) + d {
      TimesSum(k, 1, d);
      NotNegative(k, d);
      NearestIsDivRound(n, d, k + 1);
    }
    assert DivRound(0, d) == 0;
  }

  /** Three lines of an hour and a half at 333.33 come to 1500.00; rounded once at the bottom they would not. */
  lemma RoundedPerLine()
    ensures 3 * LineNet(1500, 33333) == 150000 && DivRound(3 * (1500 * 33333), 1000) == 149999
  {}

  /** A whole number of units costs exactly that many times the price. */
  lemma WholeUnits(count: nat, price: int)
    ensures LineNet(count * 1000, price) == count * price
  {
    var q := count * price;
    assert count * 1000 * price == q * 1000;
    NearestIsDivRound(q * 1000, 1000, q);
  }

  // ---------- VAT and back

  /** The VAT in a net amount with its VAT is exactly that VAT, and taking it out gives exactly that net. */
  lemma VatRoundTrip(net: int, rateBp: nat)
    ensures VatInGross(GrossOf(net, rateBp), rateBp) == Vat(net, rateBp)
    ensures GrossToNet(GrossOf(net, rateBp), rateBp) == net
  {
    var v, d := Vat(net, rateBp), 10000 + rateBp;
    DivRoundIsNearest(net * rateBp, 10000);
    SameSign(net, rateBp, v);
    hide DivRound, Nearest;
    StillNearest(net, rateBp, v);
    NearestIsDivRound((net + v) * rateBp, d, v);
    NearestIsDivRound((net + v) * 10000, d, net);
  }

  /**
   * Adding the VAT itself to the amount adds as much to the rounded quotients' numerators as to their nearest
   * multiples.
   */
  lemma StillNearest(net: int, rateBp: nat, v: int)
    requires Nearest(net * rateBp, 10000, v) && SignsAgree(net, rateBp, v)
    ensures Nearest((net + v) * rateBp, 10000 + rateBp, v)
    ensures Nearest((net + v) * 10000, 10000 + rateBp, net)
  {
    var x, y := net * rateBp, v * rateBp;
    assert (net + v) * rateBp == x + y;
    assert v * (10000 + rateBp) == 10000 * v + y;
    assert net * (10000 + rateBp) == 10000 * net + x;
  }

  predicate SignsAgree(net: int, rateBp: nat, v: int) {
    if net >= 0 then v >= 0 && net * rateBp >= 0 && (net + v) * rateBp >= 0
    else
      v <= 0 && net * rateBp <= 0 && (net + v) * rateBp <= 0 &&
      (rateBp > 0 ==> net * rateBp < 0 && (net + v) * rateBp < 0)
  }

  /** VAT has the sign of the amount, if any. */
  lemma SameSign(net: int, r: nat, v: int)
    requires v == Vat(net, r)
    ensures SignsAgree(net, r, v)
  {
    if net >= 0 {
      assert net * r >= 0;
      assert (net + v) * r >= 0;
    } else {
      assert (-net) * r >= 0;
      assert (-(net + v)) * r >= 0;
      if r > 0 {
        assert (-net) * r > 0;
        assert (-(net + v)) * r > 0;
      }
    }
  }

  /** How far a typed gross moves when it is stored net and shown again: at most one below 200 per cent. */
  lemma TypedGross(gross: int, rateBp: nat)
    ensures 20000 * Apart(GrossOf(GrossToNet(gross, rateBp), rateBp), gross) <= 20000 + rateBp
    ensures rateBp < 20000 ==> Apart(GrossOf(GrossToNet(gross, rateBp), rateBp), gross) <= 1
  {
    var net := GrossToNet(gross, rateBp);
    DivRoundIsNearest(gross * 10000, 10000 + rateBp);
    DivRoundIsNearest(net * rateBp, 10000);
    assert net * (10000 + rateBp) == 10000 * net + net * rateBp;
    hide DivRound;
    TwoRoundings(gross, net, Vat(net, rateBp), rateBp, net * rateBp);
  }

  lemma TwoRoundings(gross: int, net: int, v: int, rateBp: nat, x: int)
    requires -(10000 + rateBp) <= 20000 * gross - 2 * (10000 * net + x) <= 10000 + rateBp
    requires -10000 <= 2 * x - 20000 * v <= 10000
    ensures 20000 * Apart(net + v, gross) <= 20000 + rateBp
  {}

  /** At exactly 200 per cent the VAT is twice the net, whatever the net, so only one rounding is left. */
  lemma TypedGrossAtTwice(gross: int)
    ensures Apart(GrossOf(GrossToNet(gross, 20000), 20000), gross) <= 1
  {
    var net := GrossToNet(gross, 20000);
    DivRoundIsNearest(gross * 10000, 30000);
    NearestIsDivRound(net * 20000, 10000, 2 * net);
  }

  /** Euclid's algorithm: a common divisor of two numbers as a sum of multiples of them. */
  lemma {:induction false} CommonDivisor(a: nat, b: nat) returns (h: nat, p: nat, q: nat, x: int, y: int)
    requires a > 0
    ensures h > 0 && a == p * h && b == q * h && x * a + y * b == h
    decreases b
  {
    if b == 0 {
      h, p, q, x, y := a, 1, 0, 1, 0;
    } else {
      var k, r := a / b, a % b;
      var u, v;
      h, q, p, u, v := CommonDivisor(b, r);
      BackUp(a, b, k, r, h, q, p, u, v);
      p := k * q + p;
      x, y := v, u - k * v;
    }
  }

  lemma BackUp(a: int, b: int, k: int, r: int, h: int, q: int, p: int, u: int, v: int)
    requires a == k * b + r && b == q * h && r == p * h && u * b + v * r == h
    ensures a == (k * q + p) * h && v * a + (u - k * v) * b == h
  {
    assert k * (q * h) == (k * q) * h;
    assert v * a == v * (k * b) + v * r && v * (k * b) == (k * v) * b;
  }

  /** Above 200 per cent some typed price moves by two: both roundings go up, together by twice the unit. */
  lemma TypedGrossMovesByTwo(rateBp: nat) returns (gross: int)
    requires rateBp > 20000
    ensures GrossOf(GrossToNet(gross, rateBp), rateBp) == gross + 2
  {
    var h, p, q, x, y := CommonDivisor(10000, rateBp);
    var half := p / 2 * h;
    HalfUnit(h, p, q, rateBp);
    var net := Solution(h, q, rateBp, x, y, p / 2);
    var vat := (net * rateBp + half) / 10000;
    gross := net + vat - 2;
    TwoRoundedUp(net, vat, rateBp, half, gross);
  }

  /**
   * The largest multiple of a divisor of 10000 that is at most half of it, and what it leaves of a rate above twice
   * 10000.
   */
  lemma HalfUnit(h: nat, p: nat, q: nat, rateBp: nat)
    requires h > 0 && 10000 == p * h && rateBp == q * h && rateBp > 20000
    ensures 0 <= p / 2 * h <= 5000 && 30000 - 2 * (p / 2 * h) <= rateBp
  {
    var k := p / 2;
    TimesSum(k, k, h);
    TimesSum(2 * k, p - 2 * k, h);
    assert p == 2 * k || p == 2 * k + 1;
    TimesSum(p, p, h);
    if q <= 2 * p {
      ProductBelow(q, 2 * p, h, h);
    } else {
      StepUp(2 * p, q, h);
    }
  }

  /** A net amount above nothing whose VAT is half a unit, so counted, below a whole number. */
  lemma Solution(h: nat, q: nat, rateBp: nat, x: int, y: int, k: nat) returns (net: int)
    requires h > 0 && rateBp == q * h && x * 10000 + y * rateBp == h
    ensures net > 0 && (net * rateBp + k * h) % 10000 == 0
  {
    var m := y * k;
    net := 10000 * (if m >= 0 then m + 1 else 1) - m;
    var t := if m >= 0 then m + 1 else 1;
    assert m * rateBp == k * (y * rateBp);
    assert k * (x * 10000) == 10000 * (k * x);
    assert k * h == 10000 * (k * x) + m * rateBp;
    assert net * rateBp == 10000 * (t * rateBp) - m * rateBp;
    assert net * rateBp + k * h == 10000 * (t * rateBp + k * x);
  }

  lemma Rounded(n: nat, d: nat, q: int, product: int)
    requires d > 0 && product == q * d && 2 * product - d <= 2 * n < 2 * product + d
    ensures DivRound(n, d) == q
  {
    hide DivRound;
    NearestIsDivRound(n, d, q);
  }

  lemma TwoRoundedUp(net: int, vat: int, rateBp: nat, half: nat, gross: int)
    requires net > 0 && rateBp > 20000 && half <= 5000 && 30000 - 2 * half <= rateBp
    requires 10000 * vat == net * rateBp + half && gross == net + vat - 2
    ensures GrossOf(GrossToNet(gross, rateBp), rateBp) == gross + 2
  {
    hide DivRound;
    var d := 10000 + rateBp;
    SumTimes(net, 10000, rateBp);
    StepUp(0, net, d);
    StepUp(0, net, rateBp);
    NetRoundedUp(gross, d, net, net * d, half);
    Rounded(net * rateBp, 10000, vat, 10000 * vat);
  }

  lemma NetRoundedUp(gross: int, d: nat, net: int, product: int, half: nat)
    requires d > 30000 && half <= 5000 && 40000 - 2 * half <= d
    requires product == net * d && product >= d && 10000 * gross == product + half - 20000
    ensures DivRound(gross * 10000, d) == net
  {
    hide DivRound;
    Rounded(gross * 10000, d, net, product);
  }

  /** A typed price comes back within one minor unit, whatever the price, exactly at rates up to 200 per cent. */
  lemma TypedGrossExact(rateBp: nat)
    ensures (forall gross :: Apart(GrossOf(GrossToNet(gross, rateBp), rateBp), gross) <= 1) <==> rateBp <= 20000
  {
    hide GrossOf, GrossToNet;
    if rateBp <= 20000 {
      forall gross ensures Apart(GrossOf(GrossToNet(gross, rateBp), rateBp), gross) <= 1 {
        TypedGross(gross, rateBp);
        if rateBp == 20000 {
          TypedGrossAtTwice(gross);
        }
      }
    } else {
      var gross := TypedGrossMovesByTwo(rateBp);
      assert Apart(GrossOf(GrossToNet(gross, rateBp), rateBp), gross) == 2;
    }
  }

  // ---------- One car under the margin scheme

  const MAX_VEHICLE_MINOR: int := 100_000_000_000

  datatype MarginResult = Margin(margin: int, vat: int, base: int) | BadVehicleAmount

  function MarginSchemeVat(sale: int, purchase: int, rateBp: int): int {
    var margin := sale - purchase;
    if margin <= 0 || rateBp <= 0 then 0 else DivRound(margin * rateBp, 10000 + rateBp)
  }

  function MarginScheme(sale: int, purchase: int, rateBp: int): MarginResult {
    if sale < 0 || sale > MAX_VEHICLE_MINOR || purchase < 0 || purchase > MAX_VEHICLE_MINOR ||
       rateBp < 0 || rateBp > 10000
    then BadVehicleAmount
    else
      var margin := sale - purchase;
      var vat := MarginSchemeVat(sale, purchase, rateBp);
      Margin(margin, vat, if margin > 0 then margin - vat else 0)
  }

  const INT64_MAX: int := 0x7FFF_FFFF_FFFF_FFFF

  /**
   * Amounts up to a thousand million and rates up to 100 per cent, neither below nothing, are accepted. VAT and base
   * make up a margin above nothing, are nothing otherwise, and the base's own VAT is that VAT to within one.
   */
  lemma MarginSchemeParts(sale: int, purchase: int, rateBp: int)
    ensures MarginScheme(sale, purchase, rateBp).Margin? <==>
            0 <= sale <= 100_000_000_000 && 0 <= purchase <= 100_000_000_000 && 0 <= rateBp <= 10_000
    ensures MarginScheme(sale, purchase, rateBp).Margin? ==>
              var r := MarginScheme(sale, purchase, rateBp);
              r.margin == sale - purchase &&
              (r.margin > 0 ==>
                 0 <= 2 * r.vat <= r.margin + 1 && r.base + r.vat == r.margin &&
                 r.vat == VatInGross(r.margin, rateBp)) &&
              (r.margin > 0 ==> Apart(Vat(r.base, rateBp), r.vat) <= 1) &&
              (r.margin <= 0 ==> r.vat == 0 && r.base == 0) &&
              2 * (r.margin * rateBp) + 10000 + rateBp <= INT64_MAX
  {
    var r := MarginScheme(sale, purchase, rateBp);
    if r.Margin? {
      ProductBelow(r.margin, MAX_VEHICLE_MINOR, rateBp, 10000);
      if r.margin > 0 {
        MarginVat(r.margin, rateBp);
      }
    }
  }

  lemma MarginVat(m: nat, rateBp: nat)
    requires rateBp <= 10000
    ensures var vat := VatInGross(m, rateBp);
            0 <= 2 * vat <= m + 1 && Apart(Vat(m - vat, rateBp), vat) <= 1 && (rateBp == 0 ==> vat == 0)
  {
    var d := 10000 + rateBp;
    var vat := VatInGross(m, rateBp);
    DivRoundIsNearest(m * rateBp, d);
    DivRoundIsNearest((m - vat) * rateBp, 10000);
    hide DivRound;
    MarginVatBounded(m, rateBp, vat);
    assert vat * d == 10000 * vat + vat * rateBp;
    assert (m - vat) * rateBp == m * rateBp - vat * rateBp;
    if rateBp == 0 {
      assert m * rateBp == 0 && Nearest(0, d, 0);
      NearestIsDivRound(0, d, 0);
    }
  }

  lemma MarginVatBounded(m: nat, rateBp: nat, vat: int)
    requires rateBp <= 10000 && Nearest(m * rateBp, 10000 + rateBp, vat)
    ensures 0 <= 2 * vat <= m + 1
  {
    var d := 10000 + rateBp;
    NotNegative(m, rateBp);
    NotNegative(m, 10000 - rateBp);
    SumTimes(m, rateBp, 10000 - rateBp);
    SumTimes(m, 10000, rateBp);
    HalfOf(m, d, m * d, m * rateBp, vat, vat * d);
  }

  lemma HalfOf(m: nat, d: nat, whole: int, x: int, vat: int, product: int)
    requires d > 0 && whole == m * d && product == vat * d && 0 <= 2 * x <= whole
    requires 2 * product - d <= 2 * x < 2 * product + d
    ensures 0 <= 2 * vat <= m + 1
  {
    TimesSum(vat, vat, d);
    if vat < 0 {
      StepUp(vat, 0, d);
    } else if 2 * vat > m + 1 {
      StepUp(m + 1, 2 * vat, d);
      TimesSum(m, 1, d);
    }
  }
}
