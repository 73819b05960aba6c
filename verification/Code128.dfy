/** Code 128 set B: text as bar and space widths (ISO/IEC 15417, with the check character of Annex A). */
module Code128 {
  import opened Wrappers

  const START_B: int := 104

  /** A symbol's value. The stop symbol, value 106, stands apart: it has seven widths. */
  type Symbol = v: int | 0 <= v < 106 witness 0

  /** A symbol's three bars and three spaces, in turn. */
  datatype Pattern = P(bar1: nat, space1: nat, bar2: nat, space2: nat, bar3: nat, space3: nat)

  /** Ten symbols a row. */
  function Row(r: nat): (row: seq<Pattern>)
    requires r < 11
    ensures |row| == if r < 10 then 10 else 6
  {
    match r
    case 0 => [
      P(2, 1, 2, 2, 2, 2), P(2, 2, 2, 1, 2, 2), P(2, 2, 2, 2, 2, 1), P(1, 2, 1, 2, 2, 3), P(1, 2, 1, 3, 2, 2),
      P(1, 3, 1, 2, 2, 2), P(1, 2, 2, 2, 1, 3), P(1, 2, 2, 3, 1, 2), P(1, 3, 2, 2, 1, 2), P(2, 2, 1, 2, 1, 3)]
    case 1 => [
      P(2, 2, 1, 3, 1, 2), P(2, 3, 1, 2, 1, 2), P(1, 1, 2, 2, 3, 2), P(1, 2, 2, 1, 3, 2), P(1, 2, 2, 2, 3, 1),
      P(1, 1, 3, 2, 2, 2), P(1, 2, 3, 1, 2, 2), P(1, 2, 3, 2, 2, 1), P(2, 2, 3, 2, 1, 1), P(2, 2, 1, 1, 3, 2)]
    case 2 => [
      P(2, 2, 1, 2, 3, 1), P(2, 1, 3, 2, 1, 2), P(2, 2, 3, 1, 1, 2), P(3, 1, 2, 1, 3, 1), P(3, 1, 1, 2, 2, 2),
      P(3, 2, 1, 1, 2, 2), P(3, 2, 1, 2, 2, 1), P(3, 1, 2, 2, 1, 2), P(3, 2, 2, 1, 1, 2), P(3, 2, 2, 2, 1, 1)]
    case 3 => [
      P(2, 1, 2, 1, 2, 3), P(2, 1, 2, 3, 2, 1), P(2, 3, 2, 1, 2, 1), P(1, 1, 1, 3, 2, 3), P(1, 3, 1, 1, 2, 3),
      P(1, 3, 1, 3, 2, 1), P(1, 1, 2, 3, 1, 3), P(1, 3, 2, 1, 1, 3), P(1, 3, 2, 3, 1, 1), P(2, 1, 1, 3, 1, 3)]
    case 4 => [
      P(2, 3, 1, 1, 1, 3), P(2, 3, 1, 3, 1, 1), P(1, 1, 2, 1, 3, 3), P(1, 1, 2, 3, 3, 1), P(1, 3, 2, 1, 3, 1),
      P(1, 1, 3, 1, 2, 3), P(1, 1, 3, 3, 2, 1), P(1, 3, 3, 1, 2, 1), P(3, 1, 3, 1, 2, 1), P(2, 1, 1, 3, 3, 1)]
    case 5 => [
      P(2, 3, 1, 1, 3, 1), P(2, 1, 3, 1, 1, 3), P(2, 1, 3, 3, 1, 1), P(2, 1, 3, 1, 3, 1), P(3, 1, 1, 1, 2, 3),
      P(3, 1, 1, 3, 2, 1), P(3, 3, 1, 1, 2, 1), P(3, 1, 2, 1, 1, 3), P(3, 1, 2, 3, 1, 1), P(3, 3, 2, 1, 1, 1)]
    case 6 => [
      P(3, 1, 4, 1, 1, 1), P(2, 2, 1, 4, 1, 1), P(4, 3, 1, 1, 1, 1), P(1, 1, 1, 2, 2, 4), P(1, 1, 1, 4, 2, 2),
      P(1, 2, 1, 1, 2, 4), P(1, 2, 1, 4, 2, 1), P(1, 4, 1, 1, 2, 2), P(1, 4, 1, 2, 2, 1), P(1, 1, 2, 2, 1, 4)]
    case 7 => [
      P(1, 1, 2, 4, 1, 2), P(1, 2, 2, 1, 1, 4), P(1, 2, 2, 4, 1, 1), P(1, 4, 2, 1, 1, 2), P(1, 4, 2, 2, 1, 1),
      P(2, 4, 1, 2, 1, 1), P(2, 2, 1, 1, 1, 4), P(4, 1, 3, 1, 1, 1), P(2, 4, 1, 1, 1, 2), P(1, 3, 4, 1, 1, 1)]
    case 8 => [
      P(1, 1, 1, 2, 4, 2), P(1, 2, 1, 1, 4, 2), P(1, 2, 1, 2, 4, 1), P(1, 1, 4, 2, 1, 2), P(1, 2, 4, 1, 1, 2),
      P(1, 2, 4, 2, 1, 1), P(4, 1, 1, 2, 1, 2), P(4, 2, 1, 1, 1, 2), P(4, 2, 1, 2, 1, 1), P(2, 1, 2, 1, 4, 1)]
    case 9 => [
      P(2, 1, 4, 1, 2, 1), P(4, 1, 2, 1, 2, 1), P(1, 1, 1, 1, 4, 3), P(1, 1, 1, 3, 4, 1), P(1, 3, 1, 1, 4, 1),
      P(1, 1, 4, 1, 1, 3), P(1, 1, 4, 3, 1, 1), P(4, 1, 1, 1, 1, 3), P(4, 1, 1, 3, 1, 1), P(1, 1, 3, 1, 4, 1)]
    case _ => [
      P(1, 1, 4, 1, 3, 1), P(3, 1, 1, 1, 4, 1), P(4, 1, 1, 1, 3, 1), P(2, 1, 1, 4, 1, 2), P(2, 1, 1, 2, 1, 4),
      P(2, 1, 1, 2, 3, 2)]
  }

  function InTurn(p: Pattern): (widths: seq<nat>)
    ensures |widths| == 6
  {
    [p.bar1, p.space1, p.bar2, p.space2, p.bar3, p.space3]
  }

  function Widths(v: Symbol): (widths: seq<nat>)
    ensures |widths| == 6
  {
    InTurn(Row(v / 10)[v % 10])
  }

  function StopWidths(): (widths: seq<nat>)
    ensures |widths| == 7
  {
    [2, 3, 3, 1, 1, 1, 2]
  }

  // ---------- The encoder

  predicate IsPrintable(text: string) {
    forall i :: 0 <= i < |text| ==> 32 <= text[i] as int <= 126
  }

  function ValueAt(text: string, i: nat): (v: int)
    requires IsPrintable(text) && i < |text|
    ensures 0 <= v <= 94
  {
    text[i] as int - 32
  }

  /** Every character's value times its position, on top of the start symbol. */
  function CheckSum(text: string): nat
    requires IsPrintable(text)
  {
    if text == [] then START_B else CheckSum(text[..|text| - 1]) + ValueAt(text, |text| - 1) * |text|
  }

  function CheckSymbol(text: string): (v: Symbol)
    requires IsPrintable(text)
    ensures v < 103
  {
    CheckSum(text) % 103
  }

  /** The symbols of a text: start, one for each character, and the check symbol. */
  function Symbols(text: string): (values: seq<Symbol>)
    requires IsPrintable(text)
    ensures |values| == |text| + 2
  {
    [START_B] + seq(|text|, i requires 0 <= i < |text| => ValueAt(text, i)) + [CheckSymbol(text)]
  }

  function AllWidths(values: seq<Symbol>): (widths: seq<nat>)
    ensures |widths| == 6 * |values|
  {
    if values == [] then [] else AllWidths(values[..|values| - 1]) + Widths(values[|values| - 1])
  }

  method LayOut(values: seq<Symbol>) returns (out: seq<nat>)
    ensures out == AllWidths(values)
  {
    out := [];
    var i := 0;
    while i < |values|
      invariant 0 <= i <= |values|
      invariant out == AllWidths(values[..i])
    {
      assert values[..i + 1][..i] == values[..i];
      out := out + Widths(values[i]);
      i := i + 1;
    }
    assert values[..|values|] == values;
  }

  /** The widths that make up a text, or nothing for one that is empty or not printable ASCII. */
  method Modules(text: string) returns (r: Option<seq<nat>>)
    ensures r.None? <==> text == "" || exists i :: 0 <= i < |text| && !(' ' <= text[i] <= '~')
    ensures r.Some? ==> r.value == AllWidths(Symbols(text)) + StopWidths()
  {
    hide AllWidths;
    if text == "" {
      return None;
    }
    var values: seq<Symbol> := [START_B];
    var sum: int := START_B;
    var i := 0;
    while i < |text|
      invariant 0 <= i <= |text|
      invariant IsPrintable(text[..i])
      invariant values == [START_B] + seq(i, k requires 0 <= k < i => ValueAt(text[..i], k))
      invariant sum == CheckSum(text[..i])
    {
      var r := text[i] as int;
      if r < 32 || r > 126 {
        assert !IsPrintable(text);
        return None;
      }
      assert text[..i + 1][..i] == text[..i];
      values := values + [r - 32];
      sum := sum + (r - 32) * (i + 1);
      i := i + 1;
    }
    assert text[..|text|] == text;
    values := values + [sum % 103];
    assert values == Symbols(text);
    var out := LayOut(values);
    r := Some(out + StopWidths());
  }

  // ---------- A reader

  /** The value a pattern belongs to, looked up by its first three widths and then its last three. */
  function ValueOf(n: nat): (v: int)
    ensures -1 <= v < 106
  {
    match n / 1000
    case 111 => (match n % 1000 case 143 => 92 case 224 => 63 case 242 => 80 case 323 => 33 case 341 => 93
      case 422 => 64 case _ => -1)
    case 112 => (match n % 1000 case 133 => 42 case 214 => 69 case 232 => 12 case 313 => 36 case 331 => 43
      case 412 => 70 case _ => -1)
    case 113 => (match n % 1000 case 123 => 45 case 141 => 99 case 222 => 15 case 321 => 46 case _ => -1)
    case 114 => (match n % 1000 case 113 => 95 case 131 => 100 case 212 => 83 case 311 => 96 case _ => -1)
    case 121 => (match n % 1000 case 124 => 65 case 142 => 81 case 223 => 3 case 241 => 82 case 322 => 4 case 421 => 66
      case _ => -1)
    case 122 => (match n % 1000 case 114 => 71 case 132 => 13 case 213 => 6 case 231 => 14 case 312 => 7 case 411 => 72
      case _ => -1)
    case 123 => (match n % 1000 case 122 => 16 case 221 => 17 case _ => -1)
    case 124 => (match n % 1000 case 112 => 84 case 211 => 85 case _ => -1)
    case 131 => (match n % 1000 case 123 => 34 case 141 => 94 case 222 => 5 case 321 => 35 case _ => -1)
    case 132 => (match n % 1000 case 113 => 37 case 131 => 44 case 212 => 8 case 311 => 38 case _ => -1)
    case 133 => (match n % 1000 case 121 => 47 case _ => -1)
    case 134 => (match n % 1000 case 111 => 79 case _ => -1)
    case 141 => (match n % 1000 case 122 => 67 case 221 => 68 case _ => -1)
    case 142 => (match n % 1000 case 112 => 73 case 211 => 74 case _ => -1)
    case 211 => (match n % 1000 case 214 => 104 case 232 => 105 case 313 => 39 case 331 => 49 case 412 => 103
      case _ => -1)
    case 212 => (match n % 1000 case 123 => 30 case 141 => 89 case 222 => 0 case 321 => 31 case _ => -1)
    case 213 => (match n % 1000 case 113 => 51 case 131 => 53 case 212 => 21 case 311 => 52 case _ => -1)
    case 214 => (match n % 1000 case 121 => 90 case _ => -1)
    case 221 => (match n % 1000 case 114 => 76 case 132 => 19 case 213 => 9 case 231 => 20 case 312 => 10
      case 411 => 61 case _ => -1)
    case 222 => (match n % 1000 case 122 => 1 case 221 => 2 case _ => -1)
    case 223 => (match n % 1000 case 112 => 22 case 211 => 18 case _ => -1)
    case 231 => (match n % 1000 case 113 => 40 case 131 => 50 case 212 => 11 case 311 => 41 case _ => -1)
    case 232 => (match n % 1000 case 121 => 32 case _ => -1)
    case 241 => (match n % 1000 case 112 => 78 case 211 => 75 case _ => -1)
    case 311 => (match n % 1000 case 123 => 54 case 141 => 101 case 222 => 24 case 321 => 55 case _ => -1)
    case 312 => (match n % 1000 case 113 => 57 case 131 => 23 case 212 => 27 case 311 => 58 case _ => -1)
    case 313 => (match n % 1000 case 121 => 48 case _ => -1)
    case 314 => (match n % 1000 case 111 => 60 case _ => -1)
    case 321 => (match n % 1000 case 122 => 25 case 221 => 26 case _ => -1)
    case 322 => (match n % 1000 case 112 => 28 case 211 => 29 case _ => -1)
    case 331 => (match n % 1000 case 121 => 56 case _ => -1)
    case 332 => (match n % 1000 case 111 => 59 case _ => -1)
    case 411 => (match n % 1000 case 113 => 97 case 131 => 102 case 212 => 86 case 311 => 98 case _ => -1)
    case 412 => (match n % 1000 case 121 => 91 case _ => -1)
    case 413 => (match n % 1000 case 111 => 77 case _ => -1)
    case 421 => (match n % 1000 case 112 => 87 case 211 => 88 case _ => -1)
    case 431 => (match n % 1000 case 111 => 62 case _ => -1)
    case _ => -1
  }

  function NumberOf(w: seq<nat>): nat
    requires |w| == 6
  {
    100000 * w[0] + 10000 * w[1] + 1000 * w[2] + 100 * w[3] + 10 * w[4] + w[5]
  }

  /** Symbols from widths, six at a time, up to a stop symbol that must end them. */
  function ReadSymbols(widths: seq<nat>): Option<seq<Symbol>> {
    if |widths| < 13 then (if widths == [2, 3, 3, 1, 1, 1, 2] then Some([]) else None)
    else
      var v := ValueOf(NumberOf(widths[..6]));
      if v < 0 then None
      else match ReadSymbols(widths[6..]) case None => None case Some(rest) => Some([v] + rest)
  }

  function TextOf(values: seq<Symbol>): (text: string)
    requires forall i :: 0 <= i < |values| ==> values[i] <= 94
    ensures IsPrintable(text) && |text| == |values|
  {
    seq(|values|, i requires 0 <= i < |values| => (values[i] as int + 32) as char)
  }

  /** A row's own check: the start symbol once, and each symbol after it as many times as its place. */
  function Weighed(values: seq<Symbol>): int {
    if values == [] then 0
    else Weighed(values[..|values| - 1]) + values[|values| - 1] * (if |values| == 1 then 1 else |values| - 1)
  }

  /** The text a row of widths stands for, if its start, its characters and its check symbol are right. */
  function Read(widths: seq<nat>): Option<string> {
    match ReadSymbols(widths)
    case None => None
    case Some(values) =>
      if |values| < 3 || values[0] != 104 || exists i :: 1 <= i < |values| - 1 && values[i] > 94 then None
      else
        var n := |values| - 1;
        if values[n] == Weighed(values[..n]) % 103 then Some(TextOf(values[1..n])) else None
  }

  lemma FirstRows(r: nat, k: nat)
    requires r < 3 && k < |Row(r)|
    ensures ValueOf(NumberOf(InTurn(Row(r)[k]))) == 10 * r + k
  {
    if r == 0 {} else if r == 1 {} else {}
  }

  lemma MiddleRows(r: nat, k: nat)
    requires 3 <= r < 6 && k < |Row(r)|
    ensures ValueOf(NumberOf(InTurn(Row(r)[k]))) == 10 * r + k
  {
    if r == 3 {} else if r == 4 {} else {}
  }

  lemma LaterRows(r: nat, k: nat)
    requires 6 <= r < 8 && k < |Row(r)|
    ensures ValueOf(NumberOf(InTurn(Row(r)[k]))) == 10 * r + k
  {
    if r == 6 {} else {}
  }

  lemma LastRows(r: nat, k: nat)
    requires 8 <= r < 11 && k < |Row(r)|
    ensures ValueOf(NumberOf(InTurn(Row(r)[k]))) == 10 * r + k
  {
    if r == 8 {} else if r == 9 {} else {}
  }

  /** Every width is 1 to 4, a symbol is 11 wide, and its bars together are an even width. */
  predicate Shaped(w: seq<nat>) {
    |w| == 6 && 1 <= w[0] <= 4 && 1 <= w[1] <= 4 && 1 <= w[2] <= 4 && 1 <= w[3] <= 4 && 1 <= w[4] <= 4 &&
    1 <= w[5] <= 4 && w[0] + w[1] + w[2] + w[3] + w[4] + w[5] == 11 && (w[0] + w[2] + w[4]) % 2 == 0
  }

  lemma FirstRowsShaped(r: nat, k: nat)
    requires r < 3 && k < |Row(r)|
    ensures Shaped(InTurn(Row(r)[k]))
  {
    if r == 0 {} else if r == 1 {} else {}
  }

  lemma MiddleRowsShaped(r: nat, k: nat)
    requires 3 <= r < 6 && k < |Row(r)|
    ensures Shaped(InTurn(Row(r)[k]))
  {
    if r == 3 {} else if r == 4 {} else {}
  }

  lemma LaterRowsShaped(r: nat, k: nat)
    requires 6 <= r < 8 && k < |Row(r)|
    ensures Shaped(InTurn(Row(r)[k]))
  {
    if r == 6 {} else {}
  }

  lemma LastRowsShaped(r: nat, k: nat)
    requires 8 <= r < 11 && k < |Row(r)|
    ensures Shaped(InTurn(Row(r)[k]))
  {
    if r == 8 {} else if r == 9 {} else {}
  }

  /** Every symbol has the standard's shape; the stop symbol has it too, with a bar of two behind. */
  lemma SymbolsShaped(v: Symbol)
    ensures Shaped(Widths(v)) && Shaped(StopWidths()[..6]) && StopWidths()[6] == 2
  {
    hide Row;
    if v < 30 {
      FirstRowsShaped(v / 10, v % 10);
    } else if v < 60 {
      MiddleRowsShaped(v / 10, v % 10);
    } else if v < 80 {
      LaterRowsShaped(v / 10, v % 10);
    } else {
      LastRowsShaped(v / 10, v % 10);
    }
  }

  /** No two symbols have the same widths. */
  lemma PatternRead(v: Symbol)
    ensures ValueOf(NumberOf(Widths(v))) == v
  {
    hide Row, ValueOf;
    if v < 30 {
      FirstRows(v / 10, v % 10);
    } else if v < 60 {
      MiddleRows(v / 10, v % 10);
    } else if v < 80 {
      LaterRows(v / 10, v % 10);
    } else {
      LastRows(v / 10, v % 10);
    }
  }

  lemma {:induction false} AllWidthsFront(v: Symbol, values: seq<Symbol>)
    ensures AllWidths([v] + values) == Widths(v) + AllWidths(values)
  {
    hide Widths;
    if values == [] {
      assert ([v] + values)[..0] == [] && [v] + values == [v];
    } else {
      var n := |values| - 1;
      AllWidthsFront(v, values[..n]);
      assert ([v] + values)[..n + 1] == [v] + values[..n];
    }
  }

  lemma {:induction false} SymbolsRead(values: seq<Symbol>)
    ensures ReadSymbols(AllWidths(values) + StopWidths()) == Some(values)
  {
    hide Widths, ValueOf, NumberOf;
    if values == [] {
      assert AllWidths([]) + StopWidths() == StopWidths();
    } else {
      var v, rest := values[0], values[1..];
      SymbolsRead(rest);
      AllWidthsFront(v, rest);
      PatternRead(v);
      assert [v] + rest == values;
      var widths := AllWidths(values) + StopWidths();
      assert widths[..6] == Widths(v) && widths[6..] == AllWidths(rest) + StopWidths();
    }
  }

  lemma {:induction false} SumIsWeighed(text: string)
    requires IsPrintable(text)
    ensures Weighed(Symbols(text)[..|text| + 1]) == CheckSum(text)
  {
    hide CheckSymbol;
    var values := Symbols(text)[..|text| + 1];
    if text == [] {
      assert values == [START_B] && values[..0] == [];
    } else {
      var n := |text| - 1;
      SumIsWeighed(text[..n]);
      assert values[..n + 1] == Symbols(text[..n])[..n + 1];
    }
  }

  /** The widths of an accepted text read back as that text. */
  lemma TextRead(text: string)
    requires text != "" && IsPrintable(text)
    ensures Read(AllWidths(Symbols(text)) + StopWidths()) == Some(text)
  {
    hide AllWidths, ReadSymbols, StopWidths, CheckSum, Weighed;
    var values := Symbols(text);
    SymbolsRead(values);
    SumIsWeighed(text);
    assert TextOf(values[1..|values| - 1]) == text;
  }

  // ---------- What the check symbol sees

  lemma {:induction false} CheckSumUpdate(text: string, k: nat, c: char)
    requires IsPrintable(text) && k < |text| && 32 <= c as int <= 126
    ensures IsPrintable(text[k := c])
    ensures CheckSum(text[k := c]) == CheckSum(text) + (c as int - text[k] as int) * (k + 1)
  {
    var n := |text| - 1;
    if k == n {
      assert text[k := c][..n] == text[..n];
      WeightChange(text[k] as int - 32, c as int - 32, k + 1);
    } else {
      CheckSumUpdate(text[..n], k, c);
      assert text[k := c][..n] == text[..n][k := c];
    }
  }

  lemma WeightChange(a: int, b: int, weight: int)
    ensures b * weight == a * weight + (b - a) * weight
  {}

  /** 103 is prime: it divides no product of a smaller positive number and one it does not divide. */
  lemma {:induction false} PrimeProduct(a: int, b: nat)
    requires 0 < b < 103 && (a * b) % 103 == 0
    ensures a % 103 == 0
    decreases b
  {
    if b > 1 {
      var q, r := 103 / b, 103 % b;
      NoDivisor(b);
      var m := a * b / 103;
      assert a * r == 103 * (a - q * m) by {
        assert 103 == q * b + r;
        assert a * 103 == a * (q * b) + a * r;
        assert a * (q * b) == q * (a * b) && a * b == 103 * m && q * (103 * m) == 103 * (q * m);
      }
      MultipleOf103(a - q * m);
      PrimeProduct(a, r);
    }
  }

  lemma MultipleOf103(k: int)
    ensures (103 * k) % 103 == 0
  {}

  lemma NoDivisor(b: nat)
    requires 1 < b < 103
    ensures 103 % b != 0
  {
    var q := 103 / b;
    if 103 % b == 0 {
      assert q * b == 103;
      if b > 10 {
        SmallFactor(q, b);
      } else {
        SmallFactor(b, q);
      }
    }
  }

  lemma SmallFactor(a: nat, b: nat)
    requires 1 < b < 103 && a <= 10
    ensures a * b != 103
  {
    if a == 0 {} else if a == 1 {} else if a == 2 {} else if a == 3 {} else if a == 4 {} else if a == 5 {}
    else if a == 6 {} else if a == 7 {} else if a == 8 {} else if a == 9 {} else {}
  }

  lemma SameRemainder(a: int, b: int)
    ensures a % 103 == b % 103 <==> (a - b) % 103 == 0
  {}

  /** Replacing one character changes the check symbol, unless its position is a multiple of 103. */
  lemma OneCharacterChanged(text: string, k: nat, c: char)
    requires IsPrintable(text) && k < |text| && 32 <= c as int <= 126 && c != text[k]
    ensures IsPrintable(text[k := c])
    ensures CheckSymbol(text[k := c]) != CheckSymbol(text) <==> (k + 1) % 103 != 0
  {
    hide CheckSum;
    CheckSumUpdate(text, k, c);
    var d := c as int - text[k] as int;
    SameRemainder(CheckSum(text[k := c]), CheckSum(text));
    ProductSeen(d, k + 1);
  }

  /** A small change at a position is seen modulo 103 unless the position is a multiple of it. */
  lemma ProductSeen(d: int, place: nat)
    requires d != 0 && -103 < d < 103
    ensures (d * place) % 103 == 0 <==> place % 103 == 0
  {
    var e := if d > 0 then d else -d;
    assert place * e == if d > 0 then d * place else -(d * place);
    Opposite(d * place);
    if (place * e) % 103 == 0 {
      PrimeProduct(place, e);
    }
    if place % 103 == 0 {
      var m := place / 103;
      assert place * e == 103 * (m * e);
      MultipleOf103(m * e);
    }
  }

  lemma Opposite(n: int)
    ensures n % 103 == 0 <==> (-n) % 103 == 0
  {}

  /** Swapping two different neighbours always changes the check symbol. */
  lemma NeighboursSwapped(text: string, k: nat)
    requires IsPrintable(text) && k + 1 < |text| && text[k] != text[k + 1]
    ensures var swapped := text[k := text[k + 1]][k + 1 := text[k]];
            IsPrintable(swapped) && CheckSymbol(swapped) != CheckSymbol(text)
  {
    hide CheckSum;
    var a, b := text[k], text[k + 1];
    var once := text[k := b];
    CheckSumUpdate(text, k, b);
    CheckSumUpdate(once, k + 1, a);
    var d := a as int - b as int;
    assert once[k + 1] == b;
    assert (b as int - a as int) * (k + 1) + d * (k + 2) == d;
    SameRemainder(CheckSum(once[k + 1 := a]), CheckSum(text));
  }
}
