/** The bottom of an invoice: per-line rounded amounts, totalled and split by VAT rate. */
module Totals {
  import opened Arithmetic
  import opened Money
  import opened Sequences

  datatype Line = Line(quantityMilli: int, unitPriceMinor: int, vatRate: int, charged: bool)

  datatype Band = Band(rate: int, net: int, vat: int)

  datatype Totals = Totals(net: int, vat: int, gross: int, bands: seq<Band>)

  // ---------- Amounts of a line, and their sums

  function NetOf(l: Line): int {
    if l.charged then LineNet(l.quantityMilli, l.unitPriceMinor) else 0
  }

  function VatOf(l: Line): int {
    if l.charged then Vat(LineNet(l.quantityMilli, l.unitPriceMinor), l.vatRate) else 0
  }

  /** An amount, of the lines at one rate only. */
  function AtRate(amount: Line -> int, rate: int): Line -> int {
    (l: Line) => if l.vatRate == rate then amount(l) else 0
  }

  function Sum(amount: Line -> int, lines: seq<Line>): int {
    if lines == [] then 0 else Sum(amount, lines[..|lines| - 1]) + amount(lines[|lines| - 1])
  }

  /** The rates of the lines that are charged. */
  function Rates(lines: seq<Line>): set<int> {
    set l | l in lines && l.charged :: l.vatRate
  }

  predicate Ascending(bands: seq<Band>) {
    forall i, j :: 0 <= i < j < |bands| ==> bands[i].rate < bands[j].rate
  }

  /** What the totals of a set of lines must be. */
  ghost predicate IsTotals(lines: seq<Line>, t: Totals) {
    t.net == Sum(NetOf, lines) && t.vat == Sum(VatOf, lines) && t.gross == t.net + t.vat &&
    Ascending(t.bands) && (set b | b in t.bands :: b.rate) == Rates(lines) &&
    forall b :: b in t.bands ==>
      b.net == Sum(AtRate(NetOf, b.rate), lines) && b.vat == Sum(AtRate(VatOf, b.rate), lines)
  }

  // ---------- The bands add up

  function SumAtRates(amount: Line -> int, rates: seq<int>, lines: seq<Line>): int {
    if rates == [] then 0
    else SumAtRates(amount, rates[..|rates| - 1], lines) + Sum(AtRate(amount, rates[|rates| - 1]), lines)
  }

  /** One line's amount counts at its own rate and at no other. */
  lemma {:induction false} LineAtRates(amount: Line -> int, rates: seq<int>, lines: seq<Line>, l: Line)
    requires Distinct(rates)
    ensures SumAtRates(amount, rates, lines + [l]) == SumAtRates(amount, rates, lines) +
            (if l.vatRate in rates then amount(l) else 0)
  {
    if rates != [] {
      var n := |rates| - 1;
      LineAtRates(amount, rates[..n], lines, l);
      assert (lines + [l])[..|lines|] == lines;
      assert rates == rates[..n] + [rates[n]];
      if l.vatRate == rates[n] {
        assert l.vatRate !in rates[..n];
      }
    }
  }

  lemma {:induction false} NothingAtRates(amount: Line -> int, rates: seq<int>)
    ensures SumAtRates(amount, rates, []) == 0
  {
    if rates != [] {
      NothingAtRates(amount, rates[..|rates| - 1]);
    }
  }

  lemma {:induction false} RatesAddUp(amount: Line -> int, rates: seq<int>, lines: seq<Line>)
    requires Distinct(rates)
    requires forall l :: l in lines && l.vatRate !in rates ==> amount(l) == 0
    ensures SumAtRates(amount, rates, lines) == Sum(amount, lines)
  {
    if lines == [] {
      NothingAtRates(amount, rates);
    } else {
      var n := |lines| - 1;
      RatesAddUp(amount, rates, lines[..n]);
      LineAtRates(amount, rates, lines[..n], lines[n]);
      assert lines == lines[..n] + [lines[n]];
    }
  }

  function SumOfBands(bands: seq<Band>, of: Band -> int): int {
    if bands == [] then 0 else SumOfBands(bands[..|bands| - 1], of) + of(bands[|bands| - 1])
  }

  function RatesOf(bands: seq<Band>): (rates: seq<int>)
    ensures |rates| == |bands|
  {
    seq(|bands|, k requires 0 <= k < |bands| => bands[k].rate)
  }

  lemma {:induction false} BandsAreRates(bands: seq<Band>, amount: Line -> int, of: Band -> int, lines: seq<Line>)
    requires forall b :: b in bands ==> of(b) == Sum(AtRate(amount, b.rate), lines)
    ensures SumOfBands(bands, of) == SumAtRates(amount, RatesOf(bands), lines)
  {
    if bands != [] {
      var n := |bands| - 1;
      BandsAreRates(bands[..n], amount, of, lines);
      assert RatesOf(bands)[..n] == RatesOf(bands[..n]);
      assert bands[n] in bands;
    }
  }

  /** The bands' amounts add up to the totals. */
  lemma BandsAddUp(lines: seq<Line>, t: Totals)
    requires IsTotals(lines, t)
    ensures SumOfBands(t.bands, (b: Band) => b.net) == t.net
    ensures SumOfBands(t.bands, (b: Band) => b.vat) == t.vat
  {
    var rates := RatesOf(t.bands);
    BandsAreRates(t.bands, NetOf, (b: Band) => b.net, lines);
    BandsAreRates(t.bands, VatOf, (b: Band) => b.vat, lines);
    forall l | l in lines && l.charged ensures l.vatRate in rates {
      assert l.vatRate in Rates(lines);
      var k :| 0 <= k < |t.bands| && t.bands[k].rate == l.vatRate;
      assert rates[k] == l.vatRate;
    }
    RatesAddUp(NetOf, rates, lines);
    RatesAddUp(VatOf, rates, lines);
  }

  // ---------- The order of the lines does not matter

  lemma {:induction false} SumConcat(amount: Line -> int, a: seq<Line>, b: seq<Line>)
    ensures Sum(amount, a + b) == Sum(amount, a) + Sum(amount, b)
  {
    if b == [] {
      assert a + b == a;
    } else {
      var n := |b| - 1;
      SumConcat(amount, a, b[..n]);
      assert (a + b)[..|a| + n] == a + b[..n];
    }
  }

  lemma Removed(amount: Line -> int, b: seq<Line>, k: nat)
    requires k < |b|
    ensures Sum(amount, b) == Sum(amount, b[..k] + b[k + 1..]) + amount(b[k])
    ensures multiset(b) == multiset(b[..k] + b[k + 1..]) + multiset{b[k]}
  {
    hide Sum;
    var l := b[k];
    assert b == b[..k] + ([l] + b[k + 1..]);
    SumConcat(amount, b[..k], [l] + b[k + 1..]);
    SumConcat(amount, [l], b[k + 1..]);
    SumConcat(amount, b[..k], b[k + 1..]);
    SumOne(amount, l);
  }

  lemma SumOne(amount: Line -> int, l: Line)
    ensures Sum(amount, [l]) == amount(l)
  {
    assert [l][..0] == [];
  }

  lemma {:induction false} SumReordered(amount: Line -> int, a: seq<Line>, b: seq<Line>)
    requires multiset(a) == multiset(b)
    ensures Sum(amount, a) == Sum(amount, b)
  {
    hide Sum;
    assert |a| == |multiset(a)| && |b| == |multiset(b)|;
    if a == [] {
      assert b == [];
    } else {
      var n := |a| - 1;
      assert a[n] in multiset(b);
      var k :| 0 <= k < |b| && b[k] == a[n];
      Removed(amount, b, k);
      Removed(amount, a, n);
      assert a[..n] + a[n + 1..] == a[..n];
      OneTaken(multiset(a[..n]), multiset(b[..k] + b[k + 1..]), a[n]);
      SumReordered(amount, a[..n], b[..k] + b[k + 1..]);
    }
  }

  lemma OneTaken(x: multiset<Line>, y: multiset<Line>, l: Line)
    requires x + multiset{l} == y + multiset{l}
    ensures x == y
  {
    forall m ensures x[m] == y[m] {
      assert (x + multiset{l})[m] == (y + multiset{l})[m];
    }
  }

  lemma {:induction false} SameBands(a: seq<Band>, b: seq<Band>)
    requires Ascending(a) && Ascending(b)
    requires forall x :: x in a <==> x in b
    ensures a == b
  {
    if a == [] {
      assert forall k :: 0 <= k < |b| ==> b[k] in b;
    } else {
      assert a[|a| - 1] in b;
      var m, n := |a| - 1, |b| - 1;
      LastBand(a, b);
      forall z ensures z in a[..m] <==> z in b[..n] {
        InFront(a, z);
        InFront(b, z);
      }
      assert Ascending(a[..m]) && Ascending(b[..n]);
      hide Ascending;
      SameBands(a[..m], b[..n]);
      assert a == a[..m] + [a[m]] && b == b[..n] + [b[n]];
    }
  }

  lemma LastBand(a: seq<Band>, b: seq<Band>)
    requires Ascending(a) && Ascending(b) && a != [] && b != []
    requires forall x :: x in a <==> x in b
    ensures a[|a| - 1] == b[|b| - 1]
  {
    var x, y := a[|a| - 1], b[|b| - 1];
    assert x in a && y in b;
    var k :| 0 <= k < |b| && b[k] == x;
    var l :| 0 <= l < |a| && a[l] == y;
    assert x.rate <= y.rate <= x.rate;
  }

  lemma InFront(a: seq<Band>, z: Band)
    requires a != [] && Ascending(a)
    ensures z in a[..|a| - 1] <==> z in a && z != a[|a| - 1]
  {
    if z in a && z != a[|a| - 1] {
      var k :| 0 <= k < |a| && a[k] == z;
      assert a[..|a| - 1][k] == z;
    }
  }

  /** Any reordering of the lines has the same totals, bands and their order included. */
  lemma OrderDoesNotMatter(lines: seq<Line>, lines': seq<Line>, t: Totals, t': Totals)
    requires multiset(lines) == multiset(lines')
    requires IsTotals(lines, t) && IsTotals(lines', t')
    ensures t == t'
  {
    SumReordered(NetOf, lines, lines');
    SumReordered(VatOf, lines, lines');
    forall l ensures l in lines <==> l in lines' {
      assert l in lines <==> l in multiset(lines);
      assert l in lines' <==> l in multiset(lines');
    }
    assert Rates(lines) == Rates(lines');
    forall b ensures b in t.bands <==> b in t'.bands {
      SumReordered(AtRate(NetOf, b.rate), lines, lines');
      SumReordered(AtRate(VatOf, b.rate), lines, lines');
      SameBand(lines, t, b);
      SameBand(lines', t', b);
    }
    SameBands(t.bands, t'.bands);
  }

  /** A band is there exactly when its rate is used and its amounts are that rate's. */
  lemma SameBand(lines: seq<Line>, t: Totals, b: Band)
    requires IsTotals(lines, t)
    ensures b in t.bands <==>
            b.rate in Rates(lines) && b.net == Sum(AtRate(NetOf, b.rate), lines) &&
              b.vat == Sum(AtRate(VatOf, b.rate), lines)
  {
    if b in t.bands {
      assert b.rate in set x | x in t.bands :: x.rate;
    }
    if b.rate in Rates(lines) {
      var x :| x in t.bands && x.rate == b.rate;
    }
  }

  // ---------- Computing the totals

  predicate Sorted(s: seq<int>, n: nat) {
    forall a, b :: 0 <= a < b < n && b < |s| ==> s[a] < s[b]
  }

  function Swapped(s: seq<int>, j: nat): seq<int>
    requires 0 < j < |s|
  {
    s[j := s[j - 1]][j - 1 := s[j]]
  }

  lemma SwappedKeeps(s: seq<int>, j: nat)
    requires 0 < j < |s| && Distinct(s)
    ensures multiset(Swapped(s, j)) == multiset(s) && Distinct(Swapped(s, j))
  {
    var t := Swapped(s, j);
    forall a, b | 0 <= a < b < |t| ensures t[a] != t[b] {
      var a' := if a == j then j - 1 else if a == j - 1 then j else a;
      var b' := if b == j then j - 1 else if b == j - 1 then j else b;
      assert t[a] == s[a'] && t[b] == s[b'] && a' != b';
    }
  }

  /** The rate at i is moved down past the greater ones before it. */
  method MoveDown(rates: seq<int>, i: nat) returns (moved: seq<int>)
    requires i < |rates| && Distinct(rates) && Sorted(rates, i)
    ensures multiset(moved) == multiset(rates) && |moved| == |rates| && Distinct(moved) && Sorted(moved, i + 1)
  {
    moved := rates;
    var j := i;
    while j > 0 && moved[j] < moved[j - 1]
      invariant |moved| == |rates| && 0 <= j <= i
      invariant multiset(moved) == multiset(rates) && Distinct(moved)
      invariant forall a, b :: 0 <= a < b <= i && b != j ==> moved[a] < moved[b]
      decreases j
    {
      SwappedKeeps(moved, j);
      moved := Swapped(moved, j);
      j := j - 1;
    }
  }

  /** Ascending by rate. */
  method SortRates(start: seq<int>) returns (rates: seq<int>)
    requires Distinct(start)
    ensures multiset(rates) == multiset(start) && Sorted(rates, |rates|)
  {
    rates := start;
    var i := 1;
    while i < |rates|
      invariant |rates| == |start| && 1 <= i
      invariant multiset(rates) == multiset(start) && Distinct(rates) && Sorted(rates, i)
    {
      rates := MoveDown(rates, i);
      i := i + 1;
    }
  }

  /** The amounts of the lines done, in total and by rate, the rates in the order they were met. */
  ghost predicate Tallied(done: seq<Line>, byRate: map<int, Band>, rates: seq<int>, net: int, vat: int) {
    net == Sum(NetOf, done) && vat == Sum(VatOf, done) &&
    Distinct(rates) && byRate.Keys == Rates(done) == (set r | r in rates) &&
    forall r :: r in byRate ==> byRate[r] == Band(r, Sum(AtRate(NetOf, r), done), Sum(AtRate(VatOf, r), done))
  }

  method AddLine(ghost done: seq<Line>, l: Line, byRate: map<int, Band>, rates: seq<int>, net: int, vat: int)
    returns (byRate': map<int, Band>, rates': seq<int>, net': int, vat': int)
    requires Tallied(done, byRate, rates, net, vat)
    ensures Tallied(done + [l], byRate', rates', net', vat')
  {
    hide Sum, Rates, LineNet, Vat;
    byRate', rates', net', vat' := byRate, rates, net, vat;
    BandsAfter(done, l);
    if !l.charged {
      return;
    }
    var lineNet := LineNet(l.quantityMilli, l.unitPriceMinor);
    var lineVat := Vat(lineNet, l.vatRate);
    if l.vatRate !in byRate {
      byRate' := byRate'[l.vatRate := Band(l.vatRate, 0, 0)];
      rates' := rates + [l.vatRate];
    }
    var band := byRate'[l.vatRate];
    byRate' := byRate'[l.vatRate := Band(band.rate, band.net + lineNet, band.vat + lineVat)];
    net', vat' := net + lineNet, vat + lineVat;
  }

  /** Per-line amounts added to their band and to the totals, line by line; the bands then put in order. */
  method Compute(lines: seq<Line>) returns (t: Totals)
    ensures IsTotals(lines, t)
  {
    hide AtRate, NetOf, VatOf;
    var net, vat := 0, 0;
    var byRate: map<int, Band> := map[];
    var rates: seq<int> := [];
    var i := 0;
    assert lines[..0] == [];
    while i < |lines|
      invariant 0 <= i <= |lines|
      invariant Tallied(lines[..i], byRate, rates, net, vat)
    {
      byRate, rates, net, vat := AddLine(lines[..i], lines[i], byRate, rates, net, vat);
      assert lines[..i] + [lines[i]] == lines[..i + 1];
      i := i + 1;
    }
    assert lines[..|lines|] == lines;
    var sorted := SortRates(rates);
    SameElements(rates, sorted);
    forall m | 0 <= m < |sorted| ensures sorted[m] in byRate {
      assert sorted[m] in sorted;
    }
    var bands: seq<Band> := [];
    var k := 0;
    while k < |sorted|
      invariant 0 <= k <= |sorted| && |bands| == k
      invariant forall m :: 0 <= m < k ==> bands[m] == byRate[sorted[m]]
    {
      bands := bands + [byRate[sorted[k]]];
      k := k + 1;
    }
    t := Totals(net, vat, net + vat, bands);
    BandRates(sorted, bands);
  }

  lemma SameElements(a: seq<int>, b: seq<int>)
    requires multiset(a) == multiset(b)
    ensures forall x :: x in a <==> x in b
  {
    forall x ensures x in a <==> x in b {
      assert x in a <==> x in multiset(a);
      assert x in b <==> x in multiset(b);
    }
  }

  lemma BandRates(rates: seq<int>, bands: seq<Band>)
    requires |rates| == |bands| && forall k :: 0 <= k < |bands| ==> bands[k].rate == rates[k]
    ensures (set b | b in bands :: b.rate) == set r | r in rates
  {
    forall r | r in rates ensures r in set b | b in bands :: b.rate {
      var k :| 0 <= k < |rates| && rates[k] == r;
      assert bands[k] in bands;
    }
  }

  /** What one more line does to the sums: a line not charged adds nothing at any rate. */
  lemma BandsAfter(done: seq<Line>, l: Line)
    ensures Sum(NetOf, done + [l]) == Sum(NetOf, done) + NetOf(l) &&
            Sum(VatOf, done + [l]) == Sum(VatOf, done) + VatOf(l)
    ensures Rates(done + [l]) == Rates(done) + if l.charged then {l.vatRate} else {}
    ensures forall r ::
              Sum(AtRate(NetOf, r), done + [l]) ==
              Sum(AtRate(NetOf, r), done) + (if l.vatRate == r then NetOf(l) else 0)
    ensures forall r ::
              Sum(AtRate(VatOf, r), done + [l]) ==
              Sum(AtRate(VatOf, r), done) + (if l.vatRate == r then VatOf(l) else 0)
    ensures forall r :: r !in Rates(done) ==> Sum(AtRate(NetOf, r), done) == 0 && Sum(AtRate(VatOf, r), done) == 0
  {
    assert (done + [l])[..|done|] == done;
    forall r | r !in Rates(done) ensures Sum(AtRate(NetOf, r), done) == 0 && Sum(AtRate(VatOf, r), done) == 0 {
      NothingAt(NetOf, r, done);
      NothingAt(VatOf, r, done);
    }
  }

  lemma {:induction false} NothingAt(amount: Line -> int, r: int, lines: seq<Line>)
    requires forall l :: l in lines && l.vatRate == r ==> amount(l) == 0
    ensures Sum(AtRate(amount, r), lines) == 0
  {
    if lines != [] {
      NothingAt(amount, r, lines[..|lines| - 1]);
    }
  }

  // ---------- What a line adds

  lemma NothingToTotal(t: Totals)
    requires IsTotals([], t)
    ensures t == Totals(0, 0, 0, [])
  {
    assert Rates([]) == {};
    if t.bands != [] {
      assert t.bands[0] in t.bands;
      SameBand([], t, t.bands[0]);
    }
  }

  /** The band of a line's rate with the line's amounts added, or a new one. */
  ghost predicate Added(bands: seq<Band>, bands': seq<Band>, rate: int, net: int, vat: int) {
    (forall b: Band :: b.rate != rate ==> (b in bands <==> b in bands')) &&
    exists b :: b in bands' && b.rate == rate &&
                if exists c :: c in bands && c.rate == rate then Band(rate, b.net - net, b.vat - vat) in bands
                else b == Band(rate, net, vat)
  }

  /**
   * A line not charged changes nothing. A charged one adds its amount rounded to the net, that amount's VAT rounded to
   * the VAT, and both to the band of its rate and to no other.
   */
  lemma OneMoreLine(lines: seq<Line>, l: Line, t: Totals, t': Totals)
    requires IsTotals(lines, t) && IsTotals(lines + [l], t')
    ensures !l.charged ==> t' == t
    ensures l.charged ==>
              Nearest(l.quantityMilli * l.unitPriceMinor, 1000, t'.net - t.net) &&
              Nearest((t'.net - t.net) * l.vatRate, 10000, t'.vat - t.vat) &&
              t'.gross - t.gross == (t'.net - t.net) + (t'.vat - t.vat) &&
              Added(t.bands, t'.bands, l.vatRate, t'.net - t.net, t'.vat - t.vat)
  {
    BandsAfter(lines, l);
    DivRoundIsNearest(l.quantityMilli * l.unitPriceMinor, 1000);
    DivRoundIsNearest(LineNet(l.quantityMilli, l.unitPriceMinor) * l.vatRate, 10000);
    hide DivRound, Nearest, Rates;
    forall b: Band | !l.charged || b.rate != l.vatRate ensures b in t.bands <==> b in t'.bands {
      OtherBand(lines, l, t, t', b);
    }
    if l.charged {
      OwnBand(lines, l, t, t');
    } else {
      hide IsTotals;
      SameBands(t.bands, t'.bands);
    }
  }

  lemma OtherBand(lines: seq<Line>, l: Line, t: Totals, t': Totals, b: Band)
    requires IsTotals(lines, t) && IsTotals(lines + [l], t') && (!l.charged || b.rate != l.vatRate)
    ensures b in t.bands <==> b in t'.bands
  {
    BandsAfter(lines, l);
    SameBand(lines, t, b);
    SameBand(lines + [l], t', b);
  }

  lemma OwnBand(lines: seq<Line>, l: Line, t: Totals, t': Totals)
    requires IsTotals(lines, t) && IsTotals(lines + [l], t') && l.charged
    ensures exists b :: b in t'.bands && b.rate == l.vatRate &&
                        if exists c :: c in t.bands && c.rate == l.vatRate
                        then Band(l.vatRate, b.net - NetOf(l), b.vat - VatOf(l)) in t.bands
                        else b == Band(l.vatRate, NetOf(l), VatOf(l))
  {
    hide NetOf, VatOf, Sum;
    var r := l.vatRate;
    var net, vat := Sum(AtRate(NetOf, r), lines), Sum(AtRate(VatOf, r), lines);
    BandsAfter(lines, l);
    SameBand(lines + [l], t', Band(r, net + NetOf(l), vat + VatOf(l)));
    SameBand(lines, t, Band(r, net, vat));
    if c :| c in t.bands && c.rate == r {
      SameBand(lines, t, c);
    } else {
      assert r !in Rates(lines);
    }
  }

  // ---------- Nothing leaves int64

  const MAX_UNIT_PRICE_MINOR: int := 1_000_000_000
  const MAX_QUANTITY_MILLI: int := 100_000_000

  predicate LineWithinLimits(quantityMilli: int, unitPriceMinor: int) {
    quantityMilli <= MAX_QUANTITY_MILLI && unitPriceMinor <= MAX_UNIT_PRICE_MINOR
  }

  /** A line a form accepts: within the limits, nothing negative, a rate up to 100 per cent. */
  predicate Ordinary(l: Line) {
    LineWithinLimits(l.quantityMilli, l.unitPriceMinor) && l.quantityMilli >= 0 && l.unitPriceMinor >= 0 &&
      0 <= l.vatRate <= 10000
  }

  predicate Int64(n: int) {
    -INT64_MAX - 1 <= n <= INT64_MAX
  }

  /** Every product and rounding summand of one line, and its amounts. */
  predicate LineFits(l: Line) {
    var net := LineNet(l.quantityMilli, l.unitPriceMinor);
    Int64(l.quantityMilli * l.unitPriceMinor + 500) && Int64(net * l.vatRate + 5000) && Int64(net) &&
      Int64(Vat(net, l.vatRate))
  }

  const LINE_MAX: int := 100_000_000_000_000

  lemma OrdinaryLine(l: Line)
    requires Ordinary(l)
    ensures LineFits(l)
    ensures 0 <= NetOf(l) <= LINE_MAX && 0 <= VatOf(l) <= LINE_MAX
  {
    var q, p := l.quantityMilli, l.unitPriceMinor;
    ProductBelow(q, MAX_QUANTITY_MILLI, p, MAX_UNIT_PRICE_MINOR);
    assert q * p >= 0;
    var net := LineNet(q, p);
    assert 0 <= net <= LINE_MAX;
    ProductBelow(net, LINE_MAX, l.vatRate, 10000);
    assert net * l.vatRate >= 0;
  }

  lemma {:induction false} SumBounded(amount: Line -> int, lines: seq<Line>)
    requires forall l :: l in lines ==> 0 <= amount(l) <= LINE_MAX
    ensures 0 <= Sum(amount, lines) <= |lines| * LINE_MAX
  {
    if lines != [] {
      SumBounded(amount, lines[..|lines| - 1]);
      assert lines[|lines| - 1] in lines;
    }
  }

  /** Up to 46,116 ordinary lines: every line, every running total and every band's running total stays in int64. */
  lemma TotalsFit(lines: seq<Line>, k: nat, rate: int)
    requires k <= |lines| <= 46_116 && forall l :: l in lines ==> Ordinary(l)
    ensures forall l :: l in lines ==> LineFits(l)
    ensures Int64(Sum(NetOf, lines[..k])) && Int64(Sum(VatOf, lines[..k]))
    ensures Int64(Sum(NetOf, lines[..k]) + Sum(VatOf, lines[..k]))
    ensures Int64(Sum(AtRate(NetOf, rate), lines[..k])) && Int64(Sum(AtRate(VatOf, rate), lines[..k]))
  {
    hide Ordinary, NetOf, VatOf, LineFits;
    forall l | l in lines ensures LineFits(l) && 0 <= NetOf(l) <= LINE_MAX && 0 <= VatOf(l) <= LINE_MAX {
      OrdinaryLine(l);
    }
    SumBounded(NetOf, lines[..k]);
    SumBounded(VatOf, lines[..k]);
    SumBounded(AtRate(NetOf, rate), lines[..k]);
    SumBounded(AtRate(VatOf, rate), lines[..k]);
  }

  function AtTheLimit(n: nat): (lines: seq<Line>)
    ensures |lines| == n
  {
    seq(n, _ => Line(MAX_QUANTITY_MILLI, MAX_UNIT_PRICE_MINOR, 10000, true))
  }

  /** What a form accepts: up to 100,000 units, up to ten million a unit and VAT up to 100 per cent, from nothing on. */
  lemma OrdinaryExactly(l: Line)
    ensures Ordinary(l) <==>
            0 <= l.quantityMilli <= 100_000 * 1000 && 0 <= l.unitPriceMinor <= 10_000_000 * 100 &&
              0 <= l.vatRate <= 10_000
  {}

  /** With lines at the limit the bound is exact: 46,117 of them, and a hundred thousand net alone, are too many. */
  lemma {:induction false} LimitExact(n: nat)
    ensures forall l :: l in AtTheLimit(n) ==> Ordinary(l)
    ensures Sum(NetOf, AtTheLimit(n)) == Sum(VatOf, AtTheLimit(n)) == n * LINE_MAX
    ensures Int64(Sum(NetOf, AtTheLimit(n)) + Sum(VatOf, AtTheLimit(n))) <==> n <= 46_116
    ensures Int64(Sum(NetOf, AtTheLimit(n))) <==> n <= 92_233
  {
    if n > 0 {
      LimitExact(n - 1);
      assert AtTheLimit(n)[..n - 1] == AtTheLimit(n - 1);
    }
  }
}
