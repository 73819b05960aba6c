/** A rental across the boundary of two seasons, wholly under the first or split unit by unit. */
module RentalSeasons {
  import opened Calendar
  import opened RentalPricing
  import opened Wrappers

  /** A plan's terms from a moment on. */
  datatype Season = Season(starts: int, terms: Terms)

  // ---------- Lines as single units

  function Single(l: RentalLine): RentalLine {
    l.(count := 1)
  }

  function Repeat(l: RentalLine, n: nat): (units: seq<RentalLine>)
    ensures |units| == n
  {
    seq(n, _ => Single(l))
  }

  /** Every counted unit on its own, in order. */
  function Expand(lines: seq<RentalLine>): seq<RentalLine> {
    if lines == [] then [] else Expand(lines[..|lines| - 1]) + Repeat(lines[|lines| - 1], lines[|lines| - 1].count)
  }

  /** Neighbouring lines that could be one. */
  predicate Alike(a: RentalLine, b: RentalLine) {
    a.unit == b.unit && a.unitPrice == b.unitPrice && a.season == b.season
  }

  predicate Merged(lines: seq<RentalLine>) {
    (forall k :: 0 <= k < |lines| ==> lines[k].count > 0) &&
    forall k :: 0 < k < |lines| ==> !Alike(lines[k - 1], lines[k])
  }

  // ---------- Where a unit starts and what it costs there

  /** How long a unit other than a month is. */
  function Duration(unit: Unit): int {
    match unit case Week => WEEK case Day => DAY case _ => HOUR
  }

  function MonthsIn(units: seq<RentalLine>): nat {
    if units == [] then 0 else MonthsIn(units[..|units| - 1]) + (if units[|units| - 1].unit == Month then 1 else 0)
  }

  function TimeIn(units: seq<RentalLine>): nat {
    if units == [] then 0
    else
      var u := units[|units| - 1];
      TimeIn(units[..|units| - 1]) + (if u.unit == Month then 0 else Duration(u.unit))
  }

  /** The start of a unit that comes after the units before it: months as whole months from the rental's start. */
  function UnitStart(from: Wall, before: seq<RentalLine>, unit: Unit): int {
    if unit == Month then AddMonths(from, MonthsIn(before)) else AddMonths(from, MonthsIn(before)) + TimeIn(before)
  }

  /** The first season counts from the rental's start. */
  function StartOf(from: Wall, inside: seq<Season>, j: nat): int
    requires j < |inside|
  {
    if j == 0 then from else inside[j].starts
  }

  /** The last season that has begun at a moment, or the first. */
  function SeasonAt(from: Wall, inside: seq<Season>, n: nat, at: int): (i: nat)
    requires n <= |inside|
    ensures i == 0 || i < n
    ensures i > 0 ==> StartOf(from, inside, i) <= at
    ensures forall j :: i < j < n ==> StartOf(from, inside, j) > at
  {
    if n <= 1 then 0 else if StartOf(from, inside, n - 1) <= at then n - 1 else SeasonAt(from, inside, n - 1, at)
  }

  /** A unit as sold: under the season it starts in, at that season's price or, where it has none, the first's. */
  function SoldUnit(from: Wall, inside: seq<Season>, first: nat, before: seq<RentalLine>, u: RentalLine): RentalLine
    requires inside != []
  {
    var i := SeasonAt(from, inside, |inside|, UnitStart(from, before, u.unit));
    var price := match UnitPrice(inside[i].terms.prices, u.unit) case Some(p) => p case None => u.unitPrice;
    RentalLine(u.unit, 1, price, first + i)
  }

  function SoldUnits(from: Wall, inside: seq<Season>, first: nat, units: seq<RentalLine>): (sold: seq<RentalLine>)
    requires inside != []
    ensures |sold| == |units|
  {
    if units == [] then []
    else SoldUnits(from, inside, first, units[..|units| - 1]) +
         [SoldUnit(from, inside, first, units[..|units| - 1], units[|units| - 1])]
  }

  /** lines are the chosen units, each as sold, and neighbours that are alike put together. */
  ghost predicate IsSplit(from: Wall, inside: seq<Season>, first: nat, chosen: seq<RentalLine>, lines: seq<RentalLine>)
    requires inside != []
  {
    Expand(lines) == SoldUnits(from, inside, first, Expand(chosen)) && Merged(lines)
  }

  // ---------- The split

  lemma ExpandAppend(lines: seq<RentalLine>, l: RentalLine)
    ensures Expand(lines + [l]) == Expand(lines) + Repeat(l, l.count)
  {
    assert (lines + [l])[..|lines|] == lines;
  }

  /** One more unit: counted on the last line if it is alike, on a line of its own otherwise. */
  method AddUnit(out: seq<RentalLine>, u: RentalLine) returns (out': seq<RentalLine>)
    requires Merged(out) && u.count == 1
    ensures Merged(out') && Expand(out') == Expand(out) + [u]
  {
    hide Expand, Repeat;
    var k := |out| - 1;
    if k >= 0 && Alike(out[k], u) {
      var l := out[k].(count := out[k].count + 1);
      out' := out[k := l];
      assert out == out[..k] + [out[k]] && out' == out[..k] + [l];
      ExpandAppend(out[..k], out[k]);
      ExpandAppend(out[..k], l);
      RepeatMore(out[k], l, u);
    } else {
      out' := out + [u];
      ExpandAppend(out, u);
      RepeatOnce(u);
    }
  }

  lemma RepeatOnce(u: RentalLine)
    requires u.count == 1
    ensures Repeat(u, u.count) == [u]
  {}

  lemma RepeatMore(l: RentalLine, more: RentalLine, u: RentalLine)
    requires l.count > 0 && more == l.(count := l.count + 1) && u.count == 1 && Alike(l, u)
    ensures Repeat(more, more.count) == Repeat(l, l.count) + [u]
  {}

  method FindSeason(from: Wall, inside: seq<Season>, at: int) returns (i: nat)
    requires inside != []
    ensures i == SeasonAt(from, inside, |inside|, at)
  {
    i := 0;
    var j := 0;
    while j < |inside|
      invariant 0 <= j <= |inside|
      invariant i == SeasonAt(from, inside, j, at)
    {
      if StartOf(from, inside, j) <= at {
        i := j;
      }
      j := j + 1;
    }
  }

  /** The units of done are sold, and the months and the time they take are counted. */
  ghost predicate SoldSoFar(from: Wall, inside: seq<Season>, first: nat, done: seq<RentalLine>,
                            out: seq<RentalLine>, months: nat, after: nat)
    requires inside != []
  {
    months == MonthsIn(done) && after == TimeIn(done) &&
    Merged(out) && Expand(out) == SoldUnits(from, inside, first, done)
  }

  /** The next unit, sold under the season in force at its start. */
  method SellUnit(from: Wall, inside: seq<Season>, first: nat, u: RentalLine, ghost done: seq<RentalLine>,
                  out: seq<RentalLine>, months: nat, after: nat)
    returns (out': seq<RentalLine>, months': nat, after': nat)
    requires inside != [] && SoldSoFar(from, inside, first, done, out, months, after)
    ensures SoldSoFar(from, inside, first, done + [Single(u)], out', months', after')
  {
    hide AddMonths, Merged, Duration;
    var cursor := if u.unit == Month then AddMonths(from, months) else AddMonths(from, months) + after;
    var i := FindSeason(from, inside, cursor);
    var price := u.unitPrice;
    var p := UnitPrice(inside[i].terms.prices, u.unit);
    if p.Some? {
      price := p.value;
    }
    assert (done + [Single(u)])[..|done|] == done;
    out' := AddUnit(out, RentalLine(u.unit, 1, price, first + i));
    if u.unit == Month {
      months', after' := months + 1, after;
    } else {
      DurationPositive(u.unit);
      months', after' := months, after + Duration(u.unit);
    }
  }

  /** Every unit of one line in turn. */
  method SellLine(from: Wall, inside: seq<Season>, first: nat, u: RentalLine, ghost done: seq<RentalLine>,
                  out: seq<RentalLine>, months: nat, after: nat)
    returns (out': seq<RentalLine>, months': nat, after': nat)
    requires inside != [] && SoldSoFar(from, inside, first, done, out, months, after)
    ensures SoldSoFar(from, inside, first, done + Repeat(u, u.count), out', months', after')
  {
    hide SoldSoFar;
    out', months', after' := out, months, after;
    var n := 0;
    assert done + Repeat(u, 0) == done;
    while n < u.count
      invariant 0 <= n <= u.count
      invariant SoldSoFar(from, inside, first, done + Repeat(u, n), out', months', after')
    {
      out', months', after' := SellUnit(from, inside, first, u, done + Repeat(u, n), out', months', after');
      assert done + Repeat(u, n) + [Single(u)] == done + Repeat(u, n + 1);
      n := n + 1;
    }
  }

  method SplitUnits(from: Wall, inside: seq<Season>, first: nat, units: seq<RentalLine>) returns (out: seq<RentalLine>)
    requires inside != []
    ensures IsSplit(from, inside, first, units, out)
  {
    out := [];
    var months, after: nat := 0, 0;
    assert SoldSoFar(from, inside, first, [], out, months, after);
    hide SoldSoFar, IsSplit, Repeat;
    var a := 0;
    while a < |units|
      invariant 0 <= a <= |units|
      invariant SoldSoFar(from, inside, first, Expand(units[..a]), out, months, after)
    {
      out, months, after := SellLine(from, inside, first, units[a], Expand(units[..a]), out, months, after);
      ExpandAppend(units[..a], units[a]);
      assert units[..a] + [units[a]] == units[..a + 1];
      a := a + 1;
    }
    assert units[..|units|] == units;
    SplitDone(from, inside, first, units, out, months, after);
  }

  lemma SplitDone(from: Wall, inside: seq<Season>, first: nat, units: seq<RentalLine>, out: seq<RentalLine>,
    months: nat, after: nat)
    requires inside != [] && SoldSoFar(from, inside, first, Expand(units), out, months, after)
    ensures IsSplit(from, inside, first, units, out)
  {}

  lemma DurationPositive(unit: Unit)
    ensures Duration(unit) > 0
  {}

  // ---------- Pricing under seasons

  /** The last of the first n seasons begun at from, or 0. */
  function SeasonBegun(seasons: seq<Season>, n: nat, from: int): (i: nat)
    requires n <= |seasons|
    ensures i == 0 || (i < n && seasons[i].starts <= from)
    ensures forall j :: i < j < n ==> seasons[j].starts > from
  {
    if n == 0 then 0 else if seasons[n - 1].starts <= from then n - 1 else SeasonBegun(seasons, n - 1, from)
  }

  /**
   * How many seasons from the first on matter: the first, and those after it for as long as they start before the end.
   */
  function Reached(inside: seq<Season>, n: nat, to: int): (k: nat)
    requires 1 <= n <= |inside|
    ensures n <= k <= |inside|
    ensures forall j :: n <= j < k ==> inside[j].starts < to
    ensures k < |inside| ==> inside[k].starts >= to
    decreases |inside| - n
  {
    if n < |inside| && inside[n].starts < to then Reached(inside, n + 1, to) else n
  }

  function WithSeason(r: Priced, season: nat): Priced {
    match r
    case Priced(lines) => Priced(seq(|lines|, k requires 0 <= k < |lines| => lines[k].(season := season)))
    case _ => r
  }

  /** What pricing under seasons must answer. */
  ghost predicate IsSeasonPrice(from: Wall, to: int, seasons: seq<Season>, split: bool, r: Priced) {
    if seasons == [] || seasons[0].starts > from then r.NoPrice?
    else if to <= from then r.EndsBeforeStart?
    else
      var first := SeasonBegun(seasons, |seasons|, from);
      var n := Reached(seasons[first..], 1, to);
      var inside := seasons[first..][..n];
      if !split || n == 1 then
        exists whole :: IsPrice(from, to, inside[0].terms, true, whole) && r == WithSeason(whole, first)
      else
        exists whole :: IsPrice(from, to, inside[0].terms, false, whole) &&
          if whole.Priced? then r.Priced? && IsSplit(from, inside, first, whole.lines, r.lines) else r == whole
  }

  /** The season a rental starts in, and those that start before it ends. */
  method FindInside(from: Wall, to: int, seasons: seq<Season>) returns (first: nat, inside: seq<Season>)
    requires seasons != []
    ensures first == SeasonBegun(seasons, |seasons|, from)
    ensures inside == seasons[first..][..Reached(seasons[first..], 1, to)]
  {
    first := 0;
    var i := 0;
    while i < |seasons|
      invariant 0 <= i <= |seasons|
      invariant first == SeasonBegun(seasons, i, from)
    {
      if seasons[i].starts <= from {
        first := i;
      }
      i := i + 1;
    }
    inside := seasons[first..];
    var n := 1;
    while n < |inside| && inside[n].starts < to
      invariant 1 <= n <= |inside|
      invariant Reached(inside, n, to) == Reached(inside, 1, to)
    {
      n := n + 1;
    }
    inside := inside[..n];
  }

  method PriceRentalSeasons(from: Wall, to: int, seasons: seq<Season>, split: bool) returns (r: Priced)
    ensures IsSeasonPrice(from, to, seasons, split, r)
  {
    hide IsPrice, IsSplit;
    if |seasons| == 0 || seasons[0].starts > from {
      return NoPrice;
    }
    if to <= from {
      return EndsBeforeStart;
    }
    var first, inside := FindInside(from, to, seasons);
    hide SeasonBegun, Reached;
    if !split || |inside| == 1 {
      var whole := PriceWall(from, to, inside[0].terms, true);
      r := WithSeason(whole, first);
    } else {
      var whole := PriceWall(from, to, inside[0].terms, false);
      if whole.Priced? {
        var lines := SplitUnits(from, inside, first, whole.lines);
        r := Priced(lines);
      } else {
        r := whole;
      }
    }
  }

  // ---------- What a split keeps

  function CountOf(lines: seq<RentalLine>, unit: Unit): nat {
    if lines == [] then 0
    else CountOf(lines[..|lines| - 1], unit) + (if lines[|lines| - 1].unit == unit then lines[|lines| - 1].count else 0)
  }

  lemma {:induction false} CountOfConcat(a: seq<RentalLine>, b: seq<RentalLine>, unit: Unit)
    ensures CountOf(a + b, unit) == CountOf(a, unit) + CountOf(b, unit)
  {
    if b == [] {
      assert a + b == a;
    } else {
      CountOfConcat(a, b[..|b| - 1], unit);
      assert (a + b)[..|a + b| - 1] == a + b[..|b| - 1];
    }
  }

  lemma {:induction false} CountOfRepeat(l: RentalLine, n: nat, unit: Unit)
    ensures CountOf(Repeat(l, n), unit) == if l.unit == unit then n else 0
  {
    if n > 0 {
      CountOfRepeat(l, n - 1, unit);
      assert Repeat(l, n)[..n - 1] == Repeat(l, n - 1);
    }
  }

  lemma {:induction false} CountOfExpand(lines: seq<RentalLine>, unit: Unit)
    ensures CountOf(Expand(lines), unit) == CountOf(lines, unit)
  {
    if lines != [] {
      var init, l := lines[..|lines| - 1], lines[|lines| - 1];
      CountOfExpand(init, unit);
      CountOfConcat(Expand(init), Repeat(l, l.count), unit);
      CountOfRepeat(l, l.count, unit);
    }
  }

  lemma {:induction false} CountOfSold(from: Wall, inside: seq<Season>, first: nat, units: seq<RentalLine>, unit: Unit)
    requires inside != [] && forall k :: 0 <= k < |units| ==> units[k].count == 1
    ensures CountOf(SoldUnits(from, inside, first, units), unit) == CountOf(units, unit)
  {
    if units != [] {
      var n := |units| - 1;
      CountOfSold(from, inside, first, units[..n], unit);
      assert SoldUnits(from, inside, first, units)[..n] == SoldUnits(from, inside, first, units[..n]);
    }
  }

  lemma {:induction false} ExpandSingles(lines: seq<RentalLine>)
    ensures forall k :: 0 <= k < |Expand(lines)| ==> Expand(lines)[k].count == 1
  {
    if lines != [] {
      ExpandSingles(lines[..|lines| - 1]);
    }
  }

  /** A split adds and drops no unit of any kind. */
  lemma SplitKeepsCounts(from: Wall, inside: seq<Season>, first: nat, chosen: seq<RentalLine>, lines: seq<RentalLine>,
    unit: Unit)
    requires inside != [] && IsSplit(from, inside, first, chosen, lines)
    ensures CountOf(lines, unit) == CountOf(chosen, unit)
  {
    CountOfExpand(lines, unit);
    CountOfExpand(chosen, unit);
    ExpandSingles(chosen);
    CountOfSold(from, inside, first, Expand(chosen), unit);
  }

  // ---------- Seasons never go back

  /** Months come before everything else. */
  predicate MonthsFirst(units: seq<RentalLine>) {
    forall i, j :: 0 <= i < j < |units| && units[j].unit == Month ==> units[i].unit == Month
  }

  predicate SeasonsAscend(lines: seq<RentalLine>) {
    forall i, j :: 0 <= i < j < |lines| ==> lines[i].season <= lines[j].season
  }

  lemma {:induction false} OnlyMonths(units: seq<RentalLine>)
    requires forall i :: 0 <= i < |units| ==> units[i].unit == Month
    ensures TimeIn(units) == 0
  {
    if units != [] {
      OnlyMonths(units[..|units| - 1]);
    }
  }

  /** Units follow each other in time. */
  lemma NextStart(from: Wall, before: seq<RentalLine>, u: RentalLine, next: RentalLine)
    requires MonthsFirst(before + [u] + [next])
    ensures UnitStart(from, before, u.unit) <= UnitStart(from, before + [u], next.unit)
  {
    hide AddMonths, Duration;
    assert (before + [u])[..|before|] == before;
    DurationPositive(u.unit);
    AddMonthsIncreases(from, MonthsIn(before), MonthsIn(before + [u]));
    var all := before + [u] + [next];
    if next.unit == Month {
      assert all[|before| + 1] == next && all[|before|] == u;
      forall i | 0 <= i < |before| ensures before[i].unit == Month {
        assert all[i].unit == Month;
      }
      OnlyMonths(before);
    }
  }

  lemma SeasonLater(from: Wall, inside: seq<Season>, n: nat, at: int, at': int)
    requires n <= |inside| && at <= at'
    ensures SeasonAt(from, inside, n, at) <= SeasonAt(from, inside, n, at')
  {
    var i, i' := SeasonAt(from, inside, n, at), SeasonAt(from, inside, n, at');
    assert i == 0 || (i < n && StartOf(from, inside, i) <= at');
  }

  lemma {:induction false} SoldAscend(from: Wall, inside: seq<Season>, first: nat, units: seq<RentalLine>)
    requires inside != [] && MonthsFirst(units)
    ensures SeasonsAscend(SoldUnits(from, inside, first, units))
  {
    hide UnitStart;
    if |units| > 1 {
      var n := |units| - 1;
      var init, u := units[..n], units[n];
      SoldAscend(from, inside, first, init);
      var before, last := init[..n - 1], init[n - 1];
      assert before + [last] == init && before + [last] + [u] == units;
      NextStart(from, before, last, u);
      SeasonLater(from, inside, |inside|, UnitStart(from, before, last.unit), UnitStart(from, init, u.unit));
      var sold := SoldUnits(from, inside, first, init);
      assert sold[n - 1] == SoldUnit(from, inside, first, before, last);
      assert SoldUnits(from, inside, first, units) == sold + [SoldUnit(from, inside, first, init, u)];
    }
  }

  lemma {:induction false} LinesAscend(lines: seq<RentalLine>)
    requires SeasonsAscend(Expand(lines)) && forall k :: 0 <= k < |lines| ==> lines[k].count > 0
    ensures SeasonsAscend(lines)
  {
    if |lines| > 1 {
      var n := |lines| - 1;
      var init, l := lines[..n], lines[n];
      var units := Expand(init);
      assert forall k :: 0 <= k < |units| ==> Expand(lines)[k] == units[k];
      LinesAscend(init);
      var before, last := init[..n - 1], init[n - 1];
      assert units == Expand(before) + Repeat(last, last.count);
      assert Expand(lines)[|units| - 1].season == last.season && Expand(lines)[|units|].season == l.season;
    }
  }

  lemma {:induction false} MonthsFirstInCover(p: Prices, c: Cover)
    ensures MonthsFirst(Expand(LinesOf(p, c)))
  {
    hide Expand;
    var m := UnitLine(Month, c.m, p.month);
    var rest := UnitLine(Week, c.w, p.week) + UnitLine(Day, c.d, p.day) + UnitLine(Hour, c.h, p.hour);
    assert LinesOf(p, c) == m + rest;
    ExpandConcat(m, rest);
    AllOf(m, Month);
    NoneOf(rest, Month);
  }

  lemma {:induction false} ExpandConcat(a: seq<RentalLine>, b: seq<RentalLine>)
    ensures Expand(a + b) == Expand(a) + Expand(b)
  {
    hide Expand, Repeat;
    if b == [] {
      ExpandNothing();
      assert a + b == a;
    } else {
      var n := |b| - 1;
      ExpandConcat(a, b[..n]);
      ExpandLast(b);
      ExpandLast(a + b);
      assert (a + b)[..|a| + n] == a + b[..n];
    }
  }

  lemma ExpandNothing()
    ensures Expand([]) == []
  {}

  lemma ExpandLast(lines: seq<RentalLine>)
    requires lines != []
    ensures Expand(lines) == Expand(lines[..|lines| - 1]) + Repeat(lines[|lines| - 1], lines[|lines| - 1].count)
  {}

  lemma {:induction false} AllOf(lines: seq<RentalLine>, unit: Unit)
    requires forall k :: 0 <= k < |lines| ==> lines[k].unit == unit
    ensures forall k :: 0 <= k < |Expand(lines)| ==> Expand(lines)[k].unit == unit
  {
    if lines != [] {
      AllOf(lines[..|lines| - 1], unit);
    }
  }

  lemma {:induction false} NoneOf(lines: seq<RentalLine>, unit: Unit)
    requires forall k :: 0 <= k < |lines| ==> lines[k].unit != unit
    ensures forall k :: 0 <= k < |Expand(lines)| ==> Expand(lines)[k].unit != unit
  {
    if lines != [] {
      NoneOf(lines[..|lines| - 1], unit);
    }
  }

  /** Along the lines of a split rental the seasons never go back. */
  lemma SplitSeasonsAscend(from: Wall, to: int, t: Terms, inside: seq<Season>, first: nat, chosen: Priced,
    lines: seq<RentalLine>)
    requires inside != [] && IsPrice(from, to, t, false, chosen) && chosen.Priced?
    requires IsSplit(from, inside, first, chosen.lines, lines)
    ensures SeasonsAscend(lines)
  {
    hide AddMonths, Covers, Cheapest, LinesOf, Expand, SeasonsAscend;
    assert Pays(from, Need(from, to, t), t, false, chosen.lines);
    var c :| Covers(from, Need(from, to, t), t.prices, c) && chosen.lines == LinesOf(t.prices, c);
    MonthsFirstInCover(t.prices, c);
    SoldAscend(from, inside, first, Expand(chosen.lines));
    LinesAscend(lines);
  }

  // ---------- The units of a cover, one after the other

  /** The first k units of a cover: months, then weeks, days and hours. */
  function FirstUnits(c: Cover, k: nat): Cover {
    if k <= c.m then Cover(k, 0, 0, 0)
    else if k <= c.m + c.w then Cover(c.m, k - c.m, 0, 0)
    else if k <= c.m + c.w + c.d then Cover(c.m, c.w, k - c.m - c.w, 0)
    else Cover(c.m, c.w, c.d, k - c.m - c.w - c.d)
  }

  /** The unit after the first k, if there is one. */
  function NthUnit(c: Cover, k: nat): Unit {
    if k < c.m then Month else if k < c.m + c.w then Week else if k < c.m + c.w + c.d then Day else Hour
  }

  function SizeOf(c: Cover): nat {
    c.m + c.w + c.d + c.h
  }

  lemma ExpandUnitLine(unit: Unit, n: nat, price: Option<nat>)
    ensures Expand(UnitLine(unit, n, price)) == Repeat(RentalLine(unit, n, PriceOf(price), 0), n)
  {
    if n > 0 {
      assert UnitLine(unit, n, price)[..0] == [];
    }
  }

  lemma ExpandCover(p: Prices, c: Cover)
    ensures Expand(LinesOf(p, c)) ==
            Repeat(RentalLine(Month, c.m, PriceOf(p.month), 0), c.m) +
            Repeat(RentalLine(Week, c.w, PriceOf(p.week), 0), c.w) +
            Repeat(RentalLine(Day, c.d, PriceOf(p.day), 0), c.d) +
            Repeat(RentalLine(Hour, c.h, PriceOf(p.hour), 0), c.h)
  {
    hide Expand, Repeat, UnitLine;
    var m, w, d, h := UnitLine(Month, c.m, p.month), UnitLine(Week, c.w, p.week), UnitLine(Day, c.d, p.day),
      UnitLine(Hour, c.h, p.hour);
    ExpandUnitLine(Month, c.m, p.month);
    ExpandUnitLine(Week, c.w, p.week);
    ExpandUnitLine(Day, c.d, p.day);
    ExpandUnitLine(Hour, c.h, p.hour);
    ExpandConcat(m, w);
    ExpandConcat(m + w, d);
    ExpandConcat(m + w + d, h);
  }

  /** A cover's lines, expanded, are its units, each at the price the plan has for its kind. */
  lemma CoverUnit(p: Prices, c: Cover, k: nat)
    requires k < SizeOf(c)
    ensures |Expand(LinesOf(p, c))| == SizeOf(c)
    ensures Expand(LinesOf(p, c))[k] == RentalLine(NthUnit(c, k), 1, PriceOf(UnitPrice(p, NthUnit(c, k))), 0)
  {
    hide Expand;
    ExpandCover(p, c);
  }

  lemma {:induction false} CountedUnits(p: Prices, c: Cover, k: nat)
    requires k <= SizeOf(c)
    ensures k <= |Expand(LinesOf(p, c))|
    ensures var units, first := Expand(LinesOf(p, c))[..k], FirstUnits(c, k);
            MonthsIn(units) == first.m && TimeIn(units) == first.w * WEEK + first.d * DAY + first.h * HOUR
  {
    hide Expand, LinesOf;
    ExpandSize(p, c);
    if k > 0 {
      CountedUnits(p, c, k - 1);
      CoverUnit(p, c, k - 1);
      var units := Expand(LinesOf(p, c));
      assert units[..k][..k - 1] == units[..k - 1];
    }
  }

  lemma ExpandSize(p: Prices, c: Cover)
    ensures |Expand(LinesOf(p, c))| == SizeOf(c)
  {
    hide Expand;
    ExpandCover(p, c);
  }

  /** The units of a cover follow each other without a gap: each starts where those before it end. */
  lemma UnitsTile(from: Wall, p: Prices, c: Cover, k: nat)
    requires k < SizeOf(c)
    ensures k < |Expand(LinesOf(p, c))|
    ensures UnitStart(from, Expand(LinesOf(p, c))[..k], NthUnit(c, k)) == CoverEnd(from, FirstUnits(c, k))
  {
    hide Expand, LinesOf, MonthsIn, TimeIn, AddMonths;
    ExpandSize(p, c);
    CountedUnits(p, c, k);
  }

  /** The season a unit is sold under: the last to have begun when it starts, or the first. */
  predicate SoldIn(inside: seq<Season>, i: int, start: int) {
    0 <= i < |inside| && (i > 0 ==> inside[i].starts <= start) &&
    forall j :: i < j < |inside| ==> inside[j].starts > start
  }

  lemma SeasonAtIsSoldIn(from: Wall, inside: seq<Season>, at: int)
    requires inside != []
    ensures SoldIn(inside, SeasonAt(from, inside, |inside|, at), at)
  {
    var i := SeasonAt(from, inside, |inside|, at);
    hide SeasonAt;
    forall j | i < j < |inside| ensures inside[j].starts > at {
      assert StartOf(from, inside, j) == inside[j].starts;
    }
  }

  lemma {:induction false} SoldAt(from: Wall, inside: seq<Season>, first: nat, units: seq<RentalLine>, k: nat)
    requires inside != [] && k < |units|
    ensures SoldUnits(from, inside, first, units)[k] == SoldUnit(from, inside, first, units[..k], units[k])
  {
    hide SoldUnit;
    if k < |units| - 1 {
      SoldAt(from, inside, first, units[..|units| - 1], k);
      assert units[..|units| - 1][..k] == units[..k];
    }
  }

  /**
   * What a split rental is: every unit of the cover once and in order, under the season that has begun when it starts,
   * at that season's price for it, or at the first season's where that one has none.
   */
  lemma SplitMeans(from: Wall, inside: seq<Season>, first: nat, p: Prices, c: Cover, lines: seq<RentalLine>, k: nat)
    requires inside != [] && IsSplit(from, inside, first, LinesOf(p, c), lines) && k < SizeOf(c)
    ensures |Expand(lines)| == SizeOf(c)
    ensures var u, unit := Expand(lines)[k], NthUnit(c, k);
            u.unit == unit && u.count == 1 && SoldIn(inside, u.season - first, CoverEnd(from, FirstUnits(c, k))) &&
            var own := UnitPrice(inside[u.season - first].terms.prices, unit);
            u.unitPrice == (if own.Some? then own.value else PriceOf(UnitPrice(p, unit)))
  {
    hide Expand, LinesOf, UnitStart, CoverEnd, FirstUnits, NthUnit, UnitPrice, Merged, SoldIn, SeasonAt;
    var units := Expand(LinesOf(p, c));
    ExpandSize(p, c);
    CoverUnit(p, c, k);
    UnitsTile(from, p, c, k);
    SoldAt(from, inside, first, units, k);
    SeasonAtIsSoldIn(from, inside, UnitStart(from, units[..k], NthUnit(c, k)));
  }

  /** The last line's units are as many as its count says, and the unit before them is another. */
  lemma LastRun(lines: seq<RentalLine>)
    requires Merged(lines) && lines != []
    ensures var all, l := Expand(lines), lines[|lines| - 1];
            l.count <= |all| && (forall k :: |all| - l.count <= k < |all| ==> all[k] == Single(l)) &&
            (l.count < |all| ==> all[|all| - l.count - 1] != Single(l)) &&
            Expand(lines[..|lines| - 1]) == all[..|all| - l.count]
  {
    hide Expand;
    ExpandLast(lines);
    var front := lines[..|lines| - 1];
    if front == [] {
      ExpandNothing();
    } else {
      ExpandLast(front);
      assert !Alike(lines[|front| - 1], lines[|front|]);
    }
  }

  lemma FrontMerged(lines: seq<RentalLine>)
    requires Merged(lines) && lines != []
    ensures Merged(lines[..|lines| - 1])
  {}

  /** The units determine the lines: neighbours that could be one line are one. */
  lemma {:induction false} MergedUnique(a: seq<RentalLine>, b: seq<RentalLine>)
    requires Merged(a) && Merged(b) && Expand(a) == Expand(b)
    ensures a == b
  {
    hide Expand, Merged;
    if a == [] || b == [] {
      NotNothing(a);
      NotNothing(b);
    } else {
      LastRun(a);
      LastRun(b);
      var all, x, y := Expand(a), a[|a| - 1], b[|b| - 1];
      NotNothing(a);
      NotNothing(b);
      assert all[|all| - 1] == Single(x) == Single(y);
      assert x.count == y.count;
      FrontMerged(a);
      FrontMerged(b);
      MergedUnique(a[..|a| - 1], b[..|b| - 1]);
      assert a == a[..|a| - 1] + [x] && b == b[..|b| - 1] + [y];
    }
  }

  lemma NotNothing(lines: seq<RentalLine>)
    requires Merged(lines)
    ensures Expand(lines) == [] <==> lines == []
    ensures lines != [] ==> lines[|lines| - 1].count > 0
  {}

  /** A split rental's lines are determined by the rental, the seasons and the units chosen. */
  lemma SplitUnique(from: Wall, inside: seq<Season>, first: nat, chosen: seq<RentalLine>, a: seq<RentalLine>,
                    b: seq<RentalLine>)
    requires inside != [] && IsSplit(from, inside, first, chosen, a) && IsSplit(from, inside, first, chosen, b)
    ensures a == b
  {
    hide Expand, Merged;
    MergedUnique(a, b);
  }

  /** A split rental never has the weekend's line. */
  lemma SplitHasNoWeekend(from: Wall, inside: seq<Season>, first: nat, p: Prices, c: Cover, lines: seq<RentalLine>)
    requires inside != [] && IsSplit(from, inside, first, LinesOf(p, c), lines)
    ensures CountOf(lines, Weekend) == 0
  {
    hide IsSplit;
    SplitKeepsCounts(from, inside, first, LinesOf(p, c), lines, Weekend);
    CountOfUnitLine(Month, c.m, p.month);
    CountOfUnitLine(Week, c.w, p.week);
    CountOfUnitLine(Day, c.d, p.day);
    CountOfUnitLine(Hour, c.h, p.hour);
    hide CountOf, UnitLine;
    var m, w, d, h := UnitLine(Month, c.m, p.month), UnitLine(Week, c.w, p.week), UnitLine(Day, c.d, p.day),
      UnitLine(Hour, c.h, p.hour);
    CountOfConcat(m, w, Weekend);
    CountOfConcat(m + w, d, Weekend);
    CountOfConcat(m + w + d, h, Weekend);
  }

  lemma CountOfUnitLine(unit: Unit, n: nat, price: Option<nat>)
    requires unit != Weekend
    ensures CountOf(UnitLine(unit, n, price), Weekend) == 0
  {
    if n > 0 {
      assert UnitLine(unit, n, price)[..0] == [];
    }
  }

  // ---------- What a price under seasons is

  /** The season a rental starts in, and how many begin before it ends, that one included. */
  predicate Spans(from: Wall, to: int, seasons: seq<Season>, first: nat, n: nat) {
    0 < n && first + n <= |seasons| && seasons[first].starts <= from &&
    (forall j :: first < j < |seasons| ==> seasons[j].starts > from) &&
    (forall j :: first < j < first + n ==> seasons[j].starts < to) &&
    (first + n < |seasons| ==> seasons[first + n].starts >= to)
  }

  /**
   * What pricing under seasons answers: nothing before the first season; otherwise by the season the rental starts in,
   * weekend included, all lines under that season; or, split over more than one season, the cheapest units without the
   * weekend, each under its own.
   */
  lemma SeasonPriceMeans(from: Wall, to: int, seasons: seq<Season>, split: bool, r: Priced)
    returns (first: nat, n: nat, whole: Priced)
    requires IsSeasonPrice(from, to, seasons, split, r)
    ensures seasons == [] || seasons[0].starts > from ==> r.NoPrice?
    ensures seasons != [] && seasons[0].starts <= from && to <= from ==> r.EndsBeforeStart?
    ensures seasons != [] && seasons[0].starts <= from < to ==>
              Spans(from, to, seasons, first, n) &&
              IsPrice(from, to, seasons[first].terms, !split || n == 1, whole) &&
              (r.Priced? <==> whole.Priced?) && (!r.Priced? ==> r == whole) &&
              (r.Priced? ==>
                 if !split || n == 1 then
                   |r.lines| == |whole.lines| &&
                   forall k :: 0 <= k < |r.lines| ==> r.lines[k] == whole.lines[k].(season := first)
                 else IsSplit(from, seasons[first..first + n], first, whole.lines, r.lines))
  {
    hide IsPrice, IsSplit;
    first, n, whole := 0, 0, NoPrice;
    if seasons != [] && seasons[0].starts <= from && from < to {
      first := SeasonBegun(seasons, |seasons|, from);
      n := Reached(seasons[first..], 1, to);
      var inside := seasons[first..][..n];
      assert inside == seasons[first..first + n];
      hide SeasonBegun, Reached;
      assert Spans(from, to, seasons, first, n) by {
        assert forall j :: first < j < |seasons| ==> seasons[j] == seasons[first..][j - first];
      }
      if !split || n == 1 {
        whole :| IsPrice(from, to, inside[0].terms, true, whole) && r == WithSeason(whole, first);
      } else {
        whole :| IsPrice(from, to, inside[0].terms, false, whole) &&
          if whole.Priced? then r.Priced? && IsSplit(from, inside, first, whole.lines, r.lines) else r == whole;
      }
    }
  }
}
