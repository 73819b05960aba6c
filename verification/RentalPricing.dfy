/** The cheapest cover of a rental by whole months, weeks, days and hours, or by a weekend. */
module RentalPricing {
  import opened Calendar
  import opened Money
  import opened Wrappers

  datatype Unit = Hour | Day | Weekend | Week | Month

  /** A plan's net prices per unit in minor units, never negative; None for a unit it does not price. */
  datatype Prices = Prices(hour: Option<nat>, day: Option<nat>, weekend: Option<nat>, week: Option<nat>,
    month: Option<nat>)

  function UnitPrice(p: Prices, unit: Unit): Option<nat> {
    match unit
    case Hour => p.hour
    case Day => p.day
    case Weekend => p.weekend
    case Week => p.week
    case Month => p.month
  }

  datatype Terms = Terms(prices: Prices, minimum: int, grace: int)

  datatype RentalLine = RentalLine(unit: Unit, count: nat, unitPrice: nat, season: nat)

  function Net(l: RentalLine): int {
    LineNet(l.count * 1000, l.unitPrice)
  }

  function LinesNet(lines: seq<RentalLine>): int {
    if lines == [] then 0 else LinesNet(lines[..|lines| - 1]) + Net(lines[|lines| - 1])
  }

  datatype Priced = Priced(lines: seq<RentalLine>) | EndsBeforeStart | TooLong | NoPrice

  // ---------- Covers

  datatype Cover = Cover(m: nat, w: nat, d: nat, h: nat)

  predicate Allowed(p: Prices, c: Cover) {
    (c.m > 0 ==> p.month.Some?) && (c.w > 0 ==> p.week.Some?) && (c.d > 0 ==> p.day.Some?) && (c.h > 0 ==> p.hour.Some?)
  }

  /** Where the units end: the months as whole months from the start, then weeks, days and hours. */
  function CoverEnd(from: Wall, c: Cover): int {
    AddMonths(from, c.m) + c.w * WEEK + c.d * DAY + c.h * HOUR
  }

  /** Any combination of priced units that reaches need. */
  predicate Covers(from: Wall, need: int, p: Prices, c: Cover) {
    Allowed(p, c) && CoverEnd(from, c) >= need
  }

  function PriceOf(price: Option<nat>): nat {
    match price case Some(n) => n case None => 0
  }

  function CoverNet(p: Prices, c: Cover): nat {
    c.m * PriceOf(p.month) + c.w * PriceOf(p.week) + c.d * PriceOf(p.day) + c.h * PriceOf(p.hour)
  }

  function UnitLine(unit: Unit, n: nat, price: Option<nat>): seq<RentalLine> {
    if n > 0 then [RentalLine(unit, n, PriceOf(price), 0)] else []
  }

  /** A cover as lines, kinds of unit it has none of left out. */
  function LinesOf(p: Prices, c: Cover): seq<RentalLine> {
    UnitLine(Month, c.m, p.month) + UnitLine(Week, c.w, p.week) + UnitLine(Day, c.d, p.day) +
      UnitLine(Hour, c.h, p.hour)
  }

  lemma {:induction false} NetOfConcat(a: seq<RentalLine>, b: seq<RentalLine>)
    ensures LinesNet(a + b) == LinesNet(a) + LinesNet(b)
  {
    if b == [] {
      assert a + b == a;
    } else {
      NetOfConcat(a, b[..|b| - 1]);
      assert (a + b)[..|a + b| - 1] == a + b[..|b| - 1];
    }
  }

  lemma NetOfUnitLine(unit: Unit, n: nat, price: Option<nat>)
    ensures LinesNet(UnitLine(unit, n, price)) == n * PriceOf(price)
  {
    WholeUnits(n, PriceOf(price));
    if n > 0 {
      assert UnitLine(unit, n, price)[..0] == [];
    } else {
      assert n * PriceOf(price) == 0;
    }
  }

  /** The lines' rounded amounts add up to the cover's price exactly. */
  lemma NetOfLines(p: Prices, c: Cover)
    ensures LinesNet(LinesOf(p, c)) == CoverNet(p, c)
  {
    var m, w, d, h := UnitLine(Month, c.m, p.month), UnitLine(Week, c.w, p.week), UnitLine(Day, c.d, p.day),
      UnitLine(Hour, c.h, p.hour);
    NetOfUnitLine(Month, c.m, p.month);
    NetOfUnitLine(Week, c.w, p.week);
    NetOfUnitLine(Day, c.d, p.day);
    NetOfUnitLine(Hour, c.h, p.hour);
    NetOfConcat(m, w);
    NetOfConcat(m + w, d);
    NetOfConcat(m + w + d, h);
  }

  // ---------- What is to be paid for

  /**
   * The moment that has to be reached: the grace off the end, but never less than the minimum, and always something.
   */
  function Need(from: Wall, to: int, t: Terms): int {
    var need := if to - t.grace < from + t.minimum then from + t.minimum else to - t.grace;
    if need <= from then from + 1 else need
  }

  predicate WeekendFits(from: Wall, need: int, t: Terms, weekend: bool) {
    weekend && t.prices.weekend.Some? && InOneWeekend(from, need)
  }

  function WeekendLines(t: Terms): seq<RentalLine> {
    [RentalLine(Weekend, 1, PriceOf(t.prices.weekend), 0)]
  }

  /** lines pay for the period: a cover of it, or the weekend where that fits. */
  ghost predicate Pays(from: Wall, need: int, t: Terms, weekend: bool, lines: seq<RentalLine>) {
    (exists c :: Covers(from, need, t.prices, c) && lines == LinesOf(t.prices, c)) ||
    (WeekendFits(from, need, t, weekend) && lines == WeekendLines(t))
  }

  /** No way of paying, over all covers whatever and the weekend, is cheaper than net. */
  ghost predicate Cheapest(from: Wall, need: int, t: Terms, weekend: bool, net: int) {
    (forall c :: Covers(from, need, t.prices, c) ==> net <= CoverNet(t.prices, c)) &&
    (WeekendFits(from, need, t, weekend) ==> net <= PriceOf(t.prices.weekend))
  }

  /** What pricing a rental must answer. */
  ghost predicate IsPrice(from: Wall, to: int, t: Terms, weekend: bool, r: Priced) {
    if to <= from then r.EndsBeforeStart?
    else if to > AddMonths(from, 60) then r.TooLong?
    else
      var need := Need(from, to, t);
      match r
      case Priced(lines) => Pays(from, need, t, weekend, lines) && Cheapest(from, need, t, weekend, LinesNet(lines))
      case NoPrice => forall lines :: !Pays(from, need, t, weekend, lines)
      case _ => false
  }

  // ---------- The search's bounds

  function CeilDiv(d: int, unit: nat): int
    requires unit > 0
  {
    (d + unit - 1) / unit
  }

  /** As many of a priced unit as reach past what remains. */
  function Most(price: Option<nat>, rem: int, unit: nat): nat
    requires unit > 0
  {
    if price.Some? && rem > 0 then CeilDiv(rem, unit) else 0
  }

  /** The cover tried for m months, w weeks and d days: hours for what remains, or none if hours have no price. */
  function Tried(from: Wall, need: int, p: Prices, m: nat, w: nat, d: nat): Option<Cover> {
    var rem := need - (AddMonths(from, m) + w * WEEK + d * DAY);
    if rem <= 0 then Some(Cover(m, w, d, 0))
    else if p.hour.None? then None
    else Some(Cover(m, w, d, CeilDiv(rem, HOUR)))
  }

  function WeeksTried(from: Wall, need: int, p: Prices, m: nat): nat {
    Most(p.week, need - AddMonths(from, m), WEEK)
  }

  function DaysTried(from: Wall, need: int, p: Prices, m: nat, w: nat): nat {
    Most(p.day, need - (AddMonths(from, m) + w * WEEK), DAY)
  }

  /** The number of months the search goes up to: the fewest that reach need, where months have a price. */
  predicate MonthsTried(from: Wall, need: int, p: Prices, max: nat) {
    if p.month.Some? then AddMonths(from, max) >= need && forall m: nat :: m < max ==> AddMonths(from, m) < need
    else max == 0
  }

  predicate InSearch(from: Wall, need: int, p: Prices, max: nat, m: nat, w: nat, d: nat) {
    m <= max && w <= WeeksTried(from, need, p, m) && d <= DaysTried(from, need, p, m, w)
  }

  lemma CeilReaches(d: int, unit: nat)
    requires unit > 0 && d > 0
    ensures CeilDiv(d, unit) > 0 && CeilDiv(d, unit) * unit >= d > (CeilDiv(d, unit) - 1) * unit
    ensures forall n: nat :: n * unit >= d ==> CeilDiv(d, unit) <= n
  {
    var q := CeilDiv(d, unit);
    assert d + unit - 1 == q * unit + (d + unit - 1) % unit;
    forall n: nat | n * unit >= d ensures q <= n {
      if n < q {
        AtMost(n, q - 1, unit);
      }
    }
  }

  lemma AtMost(n: int, k: int, unit: nat)
    requires n <= k
    ensures n * unit <= k * unit
  {
    assert (k - n) * unit >= 0;
  }

  lemma TriedCovers(from: Wall, need: int, p: Prices, max: nat, m: nat, w: nat, d: nat)
    requires MonthsTried(from, need, p, max) && InSearch(from, need, p, max, m, w, d)
    requires Tried(from, need, p, m, w, d).Some?
    ensures Covers(from, need, p, Tried(from, need, p, m, w, d).value)
  {
    var rem := need - (AddMonths(from, m) + w * WEEK + d * DAY);
    if rem > 0 {
      CeilReaches(rem, HOUR);
    }
  }

  lemma CheaperCover(p: Prices, c: Cover, d: Cover)
    requires c.m <= d.m && c.w <= d.w && c.d <= d.d && c.h <= d.h
    ensures CoverNet(p, c) <= CoverNet(p, d)
  {
    AtMost(c.m, d.m, PriceOf(p.month));
    AtMost(c.w, d.w, PriceOf(p.week));
    AtMost(c.d, d.d, PriceOf(p.day));
    AtMost(c.h, d.h, PriceOf(p.hour));
  }

  /** Some number of units within the search's bound does where n units do, without more of anything. */
  lemma Clamped(price: Option<nat>, rem: int, unit: nat, n: nat) returns (k: nat)
    requires unit > 0 && (n > 0 ==> price.Some?)
    ensures k <= n && k <= Most(price, rem, unit)
    ensures k == n || k * unit >= rem
  {
    var most := Most(price, rem, unit);
    if n <= most {
      k := n;
    } else {
      k := most;
      if rem > 0 {
        CeilReaches(rem, unit);
      } else {
        assert k == 0;
      }
    }
  }

  /** Every cover is matched by one the search tries, which costs no more: the bounded search misses nothing. */
  lemma SearchSuffices(from: Wall, need: int, p: Prices, max: nat, c: Cover) returns (m: nat, w: nat, d: nat)
    requires MonthsTried(from, need, p, max) && Covers(from, need, p, c)
    ensures InSearch(from, need, p, max, m, w, d) && Tried(from, need, p, m, w, d).Some?
    ensures CoverNet(p, Tried(from, need, p, m, w, d).value) <= CoverNet(p, c)
  {
    hide AddMonths, CoverNet, Most;
    if c.m > max {
      m, w, d := max, 0, 0;
    } else {
      m := c.m;
      var rem := need - AddMonths(from, m);
      w := Clamped(p.week, rem, WEEK, c.w);
      if w < c.w {
        d := 0;
      } else {
        d := Clamped(p.day, rem - w * WEEK, DAY, c.d);
      }
    }
    var rem := need - (AddMonths(from, m) + w * WEEK + d * DAY);
    if rem > 0 {
      assert m == c.m && w == c.w && d == c.d && c.h * HOUR >= rem;
      CeilReaches(rem, HOUR);
    }
    CheaperCover(p, Tried(from, need, p, m, w, d).value, c);
  }

  // ---------- The search

  /** What the search has found: nothing while net is negative, and otherwise lines that pay and their amount. */
  ghost predicate Found(from: Wall, need: int, t: Terms, weekend: bool, lines: seq<RentalLine>, net: int) {
    if net < 0 then lines == [] else Pays(from, need, t, weekend, lines) && net == LinesNet(lines)
  }

  /** What was found before is kept or bettered. */
  predicate Kept(before: int, after: int) {
    before >= 0 ==> 0 <= after <= before
  }

  predicate Beaten(from: Wall, need: int, p: Prices, m: nat, w: nat, d: nat, net: int) {
    Tried(from, need, p, m, w, d).Some? ==> 0 <= net <= CoverNet(p, Tried(from, need, p, m, w, d).value)
  }

  /** Keeps the cheaper of what was found and new lines that pay. */
  method Consider(ghost from: Wall, ghost need: int, ghost t: Terms, ghost weekend: bool, lines: seq<RentalLine>,
                  best: seq<RentalLine>, bestNet: int) returns (best': seq<RentalLine>, bestNet': int)
    requires Found(from, need, t, weekend, best, bestNet)
    requires Pays(from, need, t, weekend, lines) && LinesNet(lines) >= 0
    ensures Found(from, need, t, weekend, best', bestNet')
    ensures Kept(bestNet, bestNet') && 0 <= bestNet' <= LinesNet(lines)
  {
    hide Pays;
    var n, i := 0, 0;
    while i < |lines|
      invariant 0 <= i <= |lines|
      invariant n == LinesNet(lines[..i])
    {
      assert lines[..i + 1][..i] == lines[..i];
      n := n + Net(lines[i]);
      i := i + 1;
    }
    assert lines[..|lines|] == lines;
    if bestNet < 0 || n < bestNet {
      best', bestNet' := lines, n;
    } else {
      best', bestNet' := best, bestNet;
    }
  }

  /** The cover with m months, w weeks and d days, its hours worked out from what remains. */
  method TryDays(from: Wall, need: int, t: Terms, ghost weekend: bool, ghost max: nat, m: nat, w: nat, d: nat,
                 best: seq<RentalLine>, bestNet: int) returns (best': seq<RentalLine>, bestNet': int)
    requires MonthsTried(from, need, t.prices, max) && InSearch(from, need, t.prices, max, m, w, d)
    requires Found(from, need, t, weekend, best, bestNet)
    ensures Found(from, need, t, weekend, best', bestNet') && Kept(bestNet, bestNet')
    ensures Beaten(from, need, t.prices, m, w, d, bestNet')
  {
    hide Found, MonthsTried, InSearch, LinesOf, CoverNet, AddMonths, Covers;
    var p := t.prices;
    var rem := need - (AddMonths(from, m) + w * WEEK + d * DAY);
    var h := 0;
    if rem > 0 {
      if p.hour.None? {
        return best, bestNet;
      }
      h := CeilDiv(rem, HOUR);
      CeilReaches(rem, HOUR);
    }
    var c := Cover(m, w, d, h);
    TriedCovers(from, need, p, max, m, w, d);
    NetOfLines(p, c);
    best', bestNet' := Consider(from, need, t, weekend, LinesOf(p, c), best, bestNet);
  }

  method SearchDays(from: Wall, need: int, t: Terms, ghost weekend: bool, ghost max: nat, m: nat, w: nat,
                    best: seq<RentalLine>, bestNet: int) returns (best': seq<RentalLine>, bestNet': int)
    requires MonthsTried(from, need, t.prices, max) && m <= max && w <= WeeksTried(from, need, t.prices, m)
    requires Found(from, need, t, weekend, best, bestNet)
    ensures Found(from, need, t, weekend, best', bestNet') && Kept(bestNet, bestNet')
    ensures forall d: nat :: d <= DaysTried(from, need, t.prices, m, w) ==>
            Beaten(from, need, t.prices, m, w, d, bestNet')
  {
    hide Found, MonthsTried, Tried, AddMonths;
    best', bestNet' := best, bestNet;
    var rem := need - (AddMonths(from, m) + w * WEEK);
    var maxDays := 0;
    if t.prices.day.Some? && rem > 0 {
      maxDays := CeilDiv(rem, DAY);
    }
    var d := 0;
    while d <= maxDays
      invariant maxDays == DaysTried(from, need, t.prices, m, w) && 0 <= d <= maxDays + 1
      invariant Found(from, need, t, weekend, best', bestNet') && Kept(bestNet, bestNet')
      invariant forall k: nat :: k < d ==> Beaten(from, need, t.prices, m, w, k, bestNet')
    {
      ghost var before := bestNet';
      best', bestNet' := TryDays(from, need, t, weekend, max, m, w, d, best', bestNet');
      forall k: nat | k < d ensures Beaten(from, need, t.prices, m, w, k, bestNet') {
        assert Beaten(from, need, t.prices, m, w, k, before);
      }
      d := d + 1;
    }
  }

  method SearchWeeks(from: Wall, need: int, t: Terms, ghost weekend: bool, ghost max: nat, m: nat,
                     best: seq<RentalLine>, bestNet: int) returns (best': seq<RentalLine>, bestNet': int)
    requires MonthsTried(from, need, t.prices, max) && m <= max
    requires Found(from, need, t, weekend, best, bestNet)
    ensures Found(from, need, t, weekend, best', bestNet') && Kept(bestNet, bestNet')
    ensures forall w: nat, d: nat ::
              w <= WeeksTried(from, need, t.prices, m) && d <= DaysTried(from, need, t.prices, m, w) ==>
              Beaten(from, need, t.prices, m, w, d, bestNet')
  {
    hide Found, MonthsTried, Tried, AddMonths, DaysTried;
    best', bestNet' := best, bestNet;
    var rem := need - AddMonths(from, m);
    var maxWeeks := 0;
    if t.prices.week.Some? && rem > 0 {
      maxWeeks := CeilDiv(rem, WEEK);
    }
    var w := 0;
    while w <= maxWeeks
      invariant maxWeeks == WeeksTried(from, need, t.prices, m) && 0 <= w <= maxWeeks + 1
      invariant Found(from, need, t, weekend, best', bestNet') && Kept(bestNet, bestNet')
      invariant forall k: nat, d: nat :: k < w && d <= DaysTried(from, need, t.prices, m, k) ==>
                  Beaten(from, need, t.prices, m, k, d, bestNet')
    {
      ghost var before := bestNet';
      best', bestNet' := SearchDays(from, need, t, weekend, max, m, w, best', bestNet');
      forall k: nat, d: nat | k < w && d <= DaysTried(from, need, t.prices, m, k)
        ensures Beaten(from, need, t.prices, m, k, d, bestNet')
      {
        assert Beaten(from, need, t.prices, m, k, d, before);
      }
      w := w + 1;
    }
  }

  /** The fewest months that reach need, counted up one by one. */
  method CountMonths(from: Wall, need: int, p: Prices) returns (max: nat)
    ensures MonthsTried(from, need, p, max)
  {
    hide AddMonths;
    max := 0;
    if p.month.Some? {
      while AddMonths(from, max) < need
        invariant forall m: nat :: m < max ==> AddMonths(from, m) < need
        decreases need - AddMonths(from, max)
      {
        AddMonthsIncreases(from, max, max + 1);
        max := max + 1;
      }
    }
  }

  method SearchMonths(from: Wall, need: int, t: Terms, ghost weekend: bool, best: seq<RentalLine>, bestNet: int)
    returns (best': seq<RentalLine>, bestNet': int, ghost max: nat)
    requires Found(from, need, t, weekend, best, bestNet)
    ensures Found(from, need, t, weekend, best', bestNet') && Kept(bestNet, bestNet')
    ensures MonthsTried(from, need, t.prices, max)
    ensures forall m: nat, w: nat, d: nat :: InSearch(from, need, t.prices, max, m, w, d) ==>
              Beaten(from, need, t.prices, m, w, d, bestNet')
  {
    hide Found, MonthsTried, Tried, WeeksTried, DaysTried;
    best', bestNet' := best, bestNet;
    var maxMonths := CountMonths(from, need, t.prices);
    max := maxMonths;
    var m := 0;
    while m <= maxMonths
      invariant 0 <= m <= maxMonths + 1
      invariant Found(from, need, t, weekend, best', bestNet') && Kept(bestNet, bestNet')
      invariant forall k: nat, w: nat, d: nat :: k < m && InSearch(from, need, t.prices, maxMonths, k, w, d) ==>
                  Beaten(from, need, t.prices, k, w, d, bestNet')
    {
      best', bestNet' := SearchWeeks(from, need, t, weekend, maxMonths, m, best', bestNet');
      m := m + 1;
    }
  }

  /** The cheapest of every way to pay, though only those within the bounds are tried. */
  method PriceWall(from: Wall, to: int, t: Terms, weekend: bool) returns (r: Priced)
    ensures IsPrice(from, to, t, weekend, r)
  {
    hide AddMonths, InOneWeekend;
    if to <= from {
      return EndsBeforeStart;
    }
    if to > AddMonths(from, 60) {
      return TooLong;
    }
    var need := to - t.grace;
    if need < from + t.minimum {
      need := from + t.minimum;
    }
    if need <= from {
      need := from + 1;
    }
    var best, bestNet := [], -1;
    if weekend && t.prices.weekend.Some? && InOneWeekend(from, need) {
      NetOfUnitLine(Weekend, 1, t.prices.weekend);
      best, bestNet := Consider(from, need, t, weekend, WeekendLines(t), best, bestNet);
    }
    ghost var max;
    best, bestNet, max := SearchMonths(from, need, t, weekend, best, bestNet);
    forall c | Covers(from, need, t.prices, c) ensures 0 <= bestNet <= CoverNet(t.prices, c) {
      var m, w, d := SearchSuffices(from, need, t.prices, max, c);
      assert Beaten(from, need, t.prices, m, w, d, bestNet);
    }
    r := if bestNet < 0 then NoPrice else Priced(best);
  }

  // ---------- What a price is, the moments it must reach taken one by one

  /** A way of paying: so many of each unit, or the weekend. */
  datatype Way = Units(c: Cover) | TheWeekend

  predicate Offered(t: Terms, weekend: bool, way: Way) {
    match way
    case Units(c) => Allowed(t.prices, c)
    case TheWeekend => weekend && t.prices.weekend.Some?
  }

  /** What is paid for lasts until a moment. */
  predicate Reaches(from: Wall, way: Way, moment: int) {
    match way
    case Units(c) => CoverEnd(from, c) >= moment
    case TheWeekend => InOneWeekend(from, moment)
  }

  /** It is offered, is more than nothing, lasts the minimum, and lasts to the end but for the grace. */
  predicate Suffices(from: Wall, to: int, t: Terms, weekend: bool, way: Way) {
    Offered(t, weekend, way) && Reaches(from, way, from + 1) && Reaches(from, way, from + t.minimum) &&
    Reaches(from, way, to - t.grace)
  }

  function LinesOfWay(t: Terms, way: Way): seq<RentalLine> {
    match way
    case Units(c) => LinesOf(t.prices, c)
    case TheWeekend => WeekendLines(t)
  }

  lemma ReachesBefore(from: Wall, way: Way, moment: int, before: int)
    requires Reaches(from, way, moment) && before <= moment
    ensures Reaches(from, way, before)
  {
    WeekendBounds(from, moment);
    WeekendBounds(from, before);
    hide InOneWeekend, CoverEnd;
  }

  /** The moment to be reached is the last of the three. */
  lemma SufficesIsNeed(from: Wall, to: int, t: Terms, weekend: bool, way: Way)
    ensures Suffices(from, to, t, weekend, way) <==>
            Offered(t, weekend, way) && Reaches(from, way, Need(from, to, t))
  {
    var need := Need(from, to, t);
    hide Reaches;
    assert from + 1 <= need && from + t.minimum <= need && to - t.grace <= need;
    assert need == from + 1 || need == from + t.minimum || need == to - t.grace;
    if Reaches(from, way, need) {
      ReachesBefore(from, way, need, from + 1);
      ReachesBefore(from, way, need, from + t.minimum);
      ReachesBefore(from, way, need, to - t.grace);
    }
  }

  lemma PayingIsAWay(from: Wall, to: int, t: Terms, weekend: bool, lines: seq<RentalLine>)
    ensures Pays(from, Need(from, to, t), t, weekend, lines) <==>
            exists way :: Suffices(from, to, t, weekend, way) && lines == LinesOfWay(t, way)
  {
    var need := Need(from, to, t);
    hide Need, Suffices, CoverEnd, LinesOf, Allowed, InOneWeekend;
    if c :| Covers(from, need, t.prices, c) && lines == LinesOf(t.prices, c) {
      SufficesIsNeed(from, to, t, weekend, Units(c));
      assert lines == LinesOfWay(t, Units(c));
    } else if Pays(from, need, t, weekend, lines) {
      SufficesIsNeed(from, to, t, weekend, TheWeekend);
      assert lines == LinesOfWay(t, TheWeekend);
    }
    if way :| Suffices(from, to, t, weekend, way) && lines == LinesOfWay(t, way) {
      SufficesIsNeed(from, to, t, weekend, way);
      if way.Units? {
        assert Covers(from, need, t.prices, way.c);
      }
    }
  }

  /** The units of a cover end so many nanoseconds after its months do. */
  lemma CoverEnds(from: Wall, c: Cover)
    ensures CoverEnd(from, c) ==
            AddMonths(from, c.m) + ((7 * c.w + c.d) * 24 + c.h) * 3600 * 1_000_000_000
  {
    hide AddMonths;
  }

  /** How many of a unit a cover has. */
  function Counted(c: Cover, unit: Unit): nat {
    match unit
    case Hour => c.h
    case Day => c.d
    case Weekend => 0
    case Week => c.w
    case Month => c.m
  }

  predicate Larger(a: Unit, b: Unit) {
    match a
    case Month => b != Month
    case Week => b == Day || b == Hour
    case Day => b == Hour
    case _ => false
  }

  lemma UnitLineIs(unit: Unit, n: nat, price: Option<nat>)
    ensures |UnitLine(unit, n, price)| == if n > 0 then 1 else 0
    ensures forall k :: 0 <= k < |UnitLine(unit, n, price)| ==>
              UnitLine(unit, n, price)[k] == RentalLine(unit, n, PriceOf(price), 0)
  {}

  /** A cover's lines: one for each kind of unit it has, largest first, with their number and price. */
  lemma LinesNamed(p: Prices, c: Cover)
    ensures forall l :: l in LinesOf(p, c) <==>
              Counted(c, l.unit) > 0 && l == RentalLine(l.unit, Counted(c, l.unit), PriceOf(UnitPrice(p, l.unit)), 0)
    ensures var lines := LinesOf(p, c);
            forall j, k :: 0 <= j < k < |lines| ==> Larger(lines[j].unit, lines[k].unit)
  {
    var m, w, d, h := UnitLine(Month, c.m, p.month), UnitLine(Week, c.w, p.week), UnitLine(Day, c.d, p.day),
      UnitLine(Hour, c.h, p.hour);
    UnitLineIs(Month, c.m, p.month);
    UnitLineIs(Week, c.w, p.week);
    UnitLineIs(Day, c.d, p.day);
    UnitLineIs(Hour, c.h, p.hour);
    hide UnitLine, PriceOf;
    assert LinesOf(p, c) == m + w + d + h;
    forall l ensures l in m + w + d + h <==> l in m || l in w || l in d || l in h {}
    OneOf(m, Month, c.m, p.month);
    OneOf(w, Week, c.w, p.week);
    OneOf(d, Day, c.d, p.day);
    OneOf(h, Hour, c.h, p.hour);
  }

  lemma OneOf(lines: seq<RentalLine>, unit: Unit, n: nat, price: Option<nat>)
    requires |lines| == (if n > 0 then 1 else 0)
    requires forall k :: 0 <= k < |lines| ==> lines[k] == RentalLine(unit, n, PriceOf(price), 0)
    ensures forall l :: l in lines <==> n > 0 && l == RentalLine(unit, n, PriceOf(price), 0)
  {
    if n > 0 {
      assert lines[0] in lines;
    }
  }

  /** What pricing a rental answers, in full: its two errors, and the cheapest way of paying that suffices. */
  lemma PriceMeans(from: Wall, to: int, t: Terms, weekend: bool, r: Priced)
    requires IsPrice(from, to, t, weekend, r)
    ensures r.EndsBeforeStart? <==> to <= from
    ensures r.TooLong? <==> from < to && to > AddMonths(from, 5 * 12)
    ensures r.NoPrice? ==> forall way :: !Suffices(from, to, t, weekend, way)
    ensures r.Priced? ==>
              (exists way :: Suffices(from, to, t, weekend, way) && r.lines == LinesOfWay(t, way)) &&
              forall way :: Suffices(from, to, t, weekend, way) ==> LinesNet(r.lines) <= LinesNet(LinesOfWay(t, way))
  {
    hide AddMonths, Pays, Cheapest, Need, Suffices, LinesOfWay;
    if r.NoPrice? || r.Priced? {
      forall way | Suffices(from, to, t, weekend, way)
        ensures r.Priced? && LinesNet(r.lines) <= LinesNet(LinesOfWay(t, way))
      {
        PayingIsAWay(from, to, t, weekend, LinesOfWay(t, way));
        if r.Priced? {
          CheapestOfPaying(from, Need(from, to, t), t, weekend, LinesNet(r.lines), LinesOfWay(t, way));
        }
      }
      if r.Priced? {
        PayingIsAWay(from, to, t, weekend, r.lines);
      }
    }
  }

  // ---------- What follows from being the cheapest

  lemma NeedGrows(from: Wall, to: int, to': int, t: Terms)
    requires to <= to'
    ensures Need(from, to, t) <= Need(from, to', t)
  {}

  lemma PaysForLess(from: Wall, need: int, need': int, t: Terms, weekend: bool, lines: seq<RentalLine>)
    requires need <= need' && Pays(from, need', t, weekend, lines)
    ensures Pays(from, need, t, weekend, lines)
  {
    hide CoverEnd, LinesOf, Allowed;
    if c :| Covers(from, need', t.prices, c) && lines == LinesOf(t.prices, c) {
      assert Covers(from, need, t.prices, c);
    }
  }

  /** Whatever pays costs at least the cheapest. */
  lemma CheapestOfPaying(from: Wall, need: int, t: Terms, weekend: bool, net: int, lines: seq<RentalLine>)
    requires Cheapest(from, need, t, weekend, net) && Pays(from, need, t, weekend, lines)
    ensures net <= LinesNet(lines)
  {
    hide Covers, LinesOf, LinesNet, WeekendFits;
    if c :| Covers(from, need, t.prices, c) && lines == LinesOf(t.prices, c) {
      NetOfLines(t.prices, c);
    } else {
      NetOfUnitLine(Weekend, 1, t.prices.weekend);
    }
  }

  /** Ending later never costs less, and an earlier end is priced wherever a later one is. */
  lemma LaterNeverCheaper(from: Wall, to: int, to': int, t: Terms, weekend: bool, r: Priced, r': Priced)
    requires from < to <= to'
    requires IsPrice(from, to, t, weekend, r) && IsPrice(from, to', t, weekend, r')
    requires r'.Priced?
    ensures r.Priced? && LinesNet(r.lines) <= LinesNet(r'.lines)
  {
    hide Pays, Cheapest, Need, AddMonths;
    NeedGrows(from, to, to', t);
    PaysForLess(from, Need(from, to, t), Need(from, to', t), t, weekend, r'.lines);
    CheapestOfPaying(from, Need(from, to, t), t, weekend, LinesNet(r.lines), r'.lines);
  }

  /** The amount is determined by the rental and its terms. */
  lemma PriceUnique(from: Wall, to: int, t: Terms, weekend: bool, r: Priced, r': Priced)
    requires IsPrice(from, to, t, weekend, r) && IsPrice(from, to, t, weekend, r')
    ensures r.Priced? <==> r'.Priced?
    ensures r.Priced? ==> LinesNet(r.lines) == LinesNet(r'.lines)
  {
    hide Pays, Cheapest, Need, AddMonths;
    if r.Priced? {
      LaterNeverCheaper(from, to, to, t, weekend, r', r);
    }
    if r'.Priced? {
      LaterNeverCheaper(from, to, to, t, weekend, r, r');
    }
  }

  /** lines pay for the period, and what they pay for reaches end. */
  ghost predicate PaidUntil(from: Wall, need: int, t: Terms, weekend: bool, lines: seq<RentalLine>, end: int) {
    (exists c :: Covers(from, need, t.prices, c) && lines == LinesOf(t.prices, c) && CoverEnd(from, c) >= end) ||
    (WeekendFits(from, need, t, weekend) && lines == WeekendLines(t) && InOneWeekend(from, end))
  }

  lemma PaidUntilPays(from: Wall, need: int, need': int, t: Terms, weekend: bool, lines: seq<RentalLine>, end: int)
    requires PaidUntil(from, need, t, weekend, lines, end)
    requires need' <= need || need' <= end
    ensures Pays(from, need', t, weekend, lines)
  {
    hide CoverEnd, LinesOf, Allowed;
    if c :| Covers(from, need, t.prices, c) && lines == LinesOf(t.prices, c) && CoverEnd(from, c) >= end {
      assert Covers(from, need', t.prices, c);
    }
  }

  /** Returning up to the grace past the end of what is paid for costs no more. */
  lemma WithinGraceCostsNoMore(from: Wall, to: int, to': int, t: Terms, weekend: bool, r: Priced, r': Priced, end: int)
    requires IsPrice(from, to, t, weekend, r) && r.Priced? && IsPrice(from, to', t, weekend, r')
    requires PaidUntil(from, Need(from, to, t), t, weekend, r.lines, end)
    requires from < to' <= end + t.grace && to' <= AddMonths(from, 60)
    ensures r'.Priced? && LinesNet(r'.lines) <= LinesNet(r.lines)
  {
    hide Pays, Cheapest, PaidUntil, AddMonths;
    PaidUntilPays(from, Need(from, to, t), Need(from, to', t), t, weekend, r.lines, end);
    CheapestOfPaying(from, Need(from, to', t), t, weekend, LinesNet(r'.lines), r.lines);
  }
}
