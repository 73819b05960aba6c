/** What the function modules of a symbol show, and which data modules each mask turns over. */
module QrPatterns {
  import opened Arithmetic
  import opened QrTables
  import opened QrPath
  import opened QrGeometry

  function Abs(n: int): int {
    if n < 0 then -n else n
  }

  function Max(a: int, b: int): int {
    if a > b then a else b
  }

  // ---------- Format and version information

  function FormatStep(rem: bv16): bv16 {
    (rem << 1) ^ ((rem >> 9) * 0x537)
  }

  function FormatRemainder(data: bv16, steps: nat): bv16 {
    if steps == 0 then data else FormatStep(FormatRemainder(data, steps - 1))
  }

  /** Level M is 00, so the five data bits are the mask. */
  function FormatWord(mask: nat): bv16
    requires mask < 8
  {
    var data := mask as bv16;
    ((data << 10) | FormatRemainder(data, 10)) ^ 0x5412
  }

  predicate Bit15(word: bv16, i: nat)
    requires i < 15
  {
    (word >> i) & 1 == 1
  }

  predicate FormatBit(mask: nat, i: nat)
    requires mask < 8 && i < 15
  {
    Bit15(FormatWord(mask), i)
  }

  function VersionStep(rem: bv32): bv32 {
    (rem << 1) ^ ((rem >> 11) * 0x1F25)
  }

  function VersionRemainder(data: bv32, steps: nat): bv32 {
    if steps == 0 then data else VersionStep(VersionRemainder(data, steps - 1))
  }

  function VersionWord(v: Version): bv32 {
    ((v as bv32) << 12) | VersionRemainder(v as bv32, 12)
  }

  predicate Bit18(word: bv32, i: nat)
    requires i < 18
  {
    (word >> i) & 1 == 1
  }

  predicate VersionBit(v: Version, i: nat)
    requires i < 18
  {
    Bit18(VersionWord(v), i)
  }

  /** Bit i of a word stands for the i-th power of two. */
  lemma Places15(w: bv16)
    ensures (Bit15(w, 0) <==> w & 0x1 != 0) && (Bit15(w, 1) <==> w & 0x2 != 0)
    ensures (Bit15(w, 2) <==> w & 0x4 != 0) && (Bit15(w, 3) <==> w & 0x8 != 0)
    ensures (Bit15(w, 4) <==> w & 0x10 != 0) && (Bit15(w, 5) <==> w & 0x20 != 0)
    ensures (Bit15(w, 6) <==> w & 0x40 != 0) && (Bit15(w, 7) <==> w & 0x80 != 0)
    ensures (Bit15(w, 8) <==> w & 0x100 != 0) && (Bit15(w, 9) <==> w & 0x200 != 0)
    ensures (Bit15(w, 10) <==> w & 0x400 != 0) && (Bit15(w, 11) <==> w & 0x800 != 0)
    ensures (Bit15(w, 12) <==> w & 0x1000 != 0) && (Bit15(w, 13) <==> w & 0x2000 != 0)
    ensures (Bit15(w, 14) <==> w & 0x4000 != 0)
  {}

  lemma Places18(w: bv32)
    ensures (Bit18(w, 0) <==> w & 0x1 != 0) && (Bit18(w, 1) <==> w & 0x2 != 0)
    ensures (Bit18(w, 2) <==> w & 0x4 != 0) && (Bit18(w, 3) <==> w & 0x8 != 0)
    ensures (Bit18(w, 4) <==> w & 0x10 != 0) && (Bit18(w, 5) <==> w & 0x20 != 0)
    ensures (Bit18(w, 6) <==> w & 0x40 != 0) && (Bit18(w, 7) <==> w & 0x80 != 0)
    ensures (Bit18(w, 8) <==> w & 0x100 != 0) && (Bit18(w, 9) <==> w & 0x200 != 0)
    ensures (Bit18(w, 10) <==> w & 0x400 != 0) && (Bit18(w, 11) <==> w & 0x800 != 0)
    ensures (Bit18(w, 12) <==> w & 0x1000 != 0) && (Bit18(w, 13) <==> w & 0x2000 != 0)
    ensures (Bit18(w, 14) <==> w & 0x4000 != 0) && (Bit18(w, 15) <==> w & 0x8000 != 0)
    ensures (Bit18(w, 16) <==> w & 0x10000 != 0) && (Bit18(w, 17) <==> w & 0x20000 != 0)
  {}

  lemma {:induction false} RemainderIsSmall(data: bv16, steps: nat)
    requires data < 0x400
    ensures FormatRemainder(data, steps) < 0x400
  {
    if steps > 0 {
      RemainderIsSmall(data, steps - 1);
    }
  }

  lemma FormatHighBits(data: bv16, rem: bv16)
    requires data < 8 && rem < 0x400
    ensures ((((data << 10) | rem) ^ 0x5412) >> 10) & 1 == (data & 1) ^ 1
    ensures ((((data << 10) | rem) ^ 0x5412) >> 11) & 1 == (data >> 1) & 1
    ensures ((((data << 10) | rem) ^ 0x5412) >> 12) & 1 == ((data >> 2) & 1) ^ 1
  {}

  lemma MaskBits(mask: nat)
    requires mask < 8
    ensures (mask as bv16) < 8
    ensures ((mask as bv16) & 1 == 1) == (mask % 2 == 1)
    ensures (((mask as bv16) >> 1) & 1 == 1) == (mask / 2 % 2 == 1)
    ensures (((mask as bv16) >> 2) & 1 == 1) == (mask / 4 == 1)
  {
    if mask == 0 {} else if mask == 1 {} else if mask == 2 {} else if mask == 3 {}
    else if mask == 4 {} else if mask == 5 {} else if mask == 6 {} else {}
  }

  /** The mask can be read off three bits of its format word. */
  lemma FormatCarriesMask(mask: nat)
    requires mask < 8
    ensures FormatBit(mask, 10) == (mask % 2 == 0)
    ensures FormatBit(mask, 11) == (mask / 2 % 2 == 1)
    ensures FormatBit(mask, 12) == (mask / 4 == 0)
  {
    hide FormatRemainder;
    var data := mask as bv16;
    MaskBits(mask);
    RemainderIsSmall(data, 10);
    FormatHighBits(data, FormatRemainder(data, 10));
  }

  // ---------- The function modules' colours, what is drawn later taking precedence

  function TimingDark(c: Cell): bool {
    if c.0 == 6 then c.1 % 2 == 0 else c.0 % 2 == 0
  }

  /** Rings around a centre: the distance decides. */
  function Ring(c: Cell, x: int, y: int): int {
    Max(Abs(c.0 - x), Abs(c.1 - y))
  }

  function FinderDark(v: Version, c: Cell): bool {
    var d := Ring(c, if c.0 <= 7 then 3 else Size(v) - 4, if c.1 <= 7 then 3 else Size(v) - 4);
    d != 2 && d != 4
  }

  /** A module of a finder is within four of the one finder's centre that it is nearest to, and coloured by it. */
  lemma FinderRings(v: Version, x: int, y: int)
    requires InSymbol(v, (x, y))
    ensures var c, far := (x, y), Size(v) - 4;
            (IsFinder(v, c) <==> Ring(c, 3, 3) <= 4 || Ring(c, far, 3) <= 4 || Ring(c, 3, far) <= 4) &&
            (Ring(c, 3, 3) <= 4 ==>
               Ring(c, far, 3) > 4 && Ring(c, 3, far) > 4 &&
               FinderDark(v, c) == (Ring(c, 3, 3) != 2 && Ring(c, 3, 3) != 4)) &&
            (Ring(c, far, 3) <= 4 ==>
               Ring(c, 3, far) > 4 && FinderDark(v, c) == (Ring(c, far, 3) != 2 && Ring(c, far, 3) != 4)) &&
            (Ring(c, 3, far) <= 4 ==> FinderDark(v, c) == (Ring(c, 3, far) != 2 && Ring(c, 3, far) != 4))
  {}

  function AlignmentDark(v: Version, c: Cell): bool
    requires IsAlignment(v, c)
  {
    var pos := QrAlign(v);
    Ring(c, pos[Near(pos, c.0)], pos[Near(pos, c.1)]) != 1
  }

  /** The bit of the format information a module shows; 15 is the module that is always dark. */
  function FormatIndex(v: Version, c: Cell): (i: int)
    requires IsFormat(v, c) && InSymbol(v, c)
    ensures 0 <= i <= 15
  {
    if c.0 == 8 && c.1 <= 5 then c.1
    else if c == (8, 7) then 6
    else if c == (8, 8) then 7
    else if c == (7, 8) then 8
    else if c.1 == 8 && c.0 <= 5 then 14 - c.0
    else if c.1 == 8 then Size(v) - 1 - c.0
    else if c.1 == Size(v) - 8 then 15
    else c.1 - Size(v) + 15
  }

  /** The copy of the format information around the first finder. */
  predicate IsFirstCopy(c: Cell) {
    (c.0 == 8 && (c.1 <= 5 || c.1 == 7 || c.1 == 8)) || (c.1 == 8 && (c.0 <= 5 || c.0 == 7))
  }

  function FormatDark(v: Version, mask: nat, c: Cell): bool
    requires mask < 8 && IsFormat(v, c) && InSymbol(v, c)
  {
    FormatIndex(v, c) == 15 || FormatBit(mask, FormatIndex(v, c))
  }

  function VersionIndex(v: Version, c: Cell): (i: int)
    requires IsVersion(v, c) && InSymbol(v, c)
    ensures 0 <= i < 18
  {
    if c.1 < 6 then 3 * c.1 + c.0 - (Size(v) - 11) else 3 * c.0 + c.1 - (Size(v) - 11)
  }

  function VersionDark(v: Version, c: Cell): bool
    requires IsVersion(v, c) && InSymbol(v, c)
  {
    VersionBit(v, VersionIndex(v, c))
  }

  function FunctionDark(v: Version, mask: nat, c: Cell): bool
    requires mask < 8 && IsFunction(v, c) && InSymbol(v, c)
  {
    if IsFormat(v, c) then FormatDark(v, mask, c)
    else if IsVersion(v, c) then VersionDark(v, c)
    else if IsAlignment(v, c) then AlignmentDark(v, c)
    else if IsFinder(v, c) then FinderDark(v, c)
    else TimingDark(c)
  }

  // ---------- The masks

  predicate MaskBit(mask: nat, c: Cell)
    requires mask < 8 && c.0 >= 0 && c.1 >= 0
  {
    var (x, y) := c;
    match mask
    case 0 => (x + y) % 2 == 0
    case 1 => y % 2 == 0
    case 2 => x % 3 == 0
    case 3 => (x + y) % 3 == 0
    case 4 => (x / 3 + y / 2) % 2 == 0
    case 5 => x * y % 2 + x * y % 3 == 0
    case 6 => (x * y % 2 + x * y % 3) % 2 == 0
    case _ => ((x + y) % 2 + x * y % 3) % 2 == 0
  }

  // ---------- Alignment centres are told apart

  lemma {:induction false} NearFinds(pos: seq<int>, i: nat, x: int)
    requires i < |pos| && pos[i] - 2 <= x <= pos[i] + 2
    requires forall k :: 0 < k < |pos| ==> pos[k - 1] + 12 <= pos[k]
    ensures Near(pos, x) == i
  {
    var last := |pos| - 1;
    if i < last {
      Spaced(pos, i, last);
      NearFinds(pos[..last], i, x);
    }
  }

  lemma {:induction false} Spaced(pos: seq<int>, i: nat, j: nat)
    requires i < j < |pos|
    requires forall k :: 0 < k < |pos| ==> pos[k - 1] + 12 <= pos[k]
    ensures pos[i] + 12 <= pos[j]
  {
    if i < j - 1 {
      Spaced(pos, i, j - 1);
    }
  }

  /** A module is within two of centre i exactly when i is the centre it is near. */
  lemma NearIsCentre(v: Version, i: nat, x: int)
    requires i < |QrAlign(v)|
    ensures QrAlign(v)[i] - 2 <= x <= QrAlign(v)[i] + 2 <==> Near(QrAlign(v), x) == i
  {
    AlignmentCentres(v);
    var pos := QrAlign(v);
    hide QrAlign;
    if pos[i] - 2 <= x <= pos[i] + 2 {
      NearFinds(pos, i, x);
    }
  }

  // ---------- What the standard's tables and figures show

  /** The format information at level M, mask 0 first. */
  const FORMAT_WORDS: seq<bv16> := [0x5412, 0x5125, 0x5E7C, 0x5B4B, 0x45F9, 0x40CE, 0x4F97, 0x4AA0]

  function FiveFormatSteps(data: bv16): bv16 {
    FormatStep(FormatStep(FormatStep(FormatStep(FormatStep(data)))))
  }

  lemma FormatUnrolled(data: bv16)
    ensures FormatRemainder(data, 10) == FiveFormatSteps(FiveFormatSteps(data))
  {
    hide FormatStep;
    assert FormatRemainder(data, 1) == FormatStep(data);
    assert FormatRemainder(data, 2) == FormatStep(FormatRemainder(data, 1));
    assert FormatRemainder(data, 3) == FormatStep(FormatRemainder(data, 2));
    assert FormatRemainder(data, 4) == FormatStep(FormatRemainder(data, 3));
    assert FormatRemainder(data, 5) == FormatStep(FormatRemainder(data, 4));
    assert FormatRemainder(data, 6) == FormatStep(FormatRemainder(data, 5));
    assert FormatRemainder(data, 7) == FormatStep(FormatRemainder(data, 6));
    assert FormatRemainder(data, 8) == FormatStep(FormatRemainder(data, 7));
    assert FormatRemainder(data, 9) == FormatStep(FormatRemainder(data, 8));
  }

  /** The format information computed is the standard's table (annex C). */
  lemma FormatWords(mask: nat)
    requires mask < 8
    ensures FormatWord(mask) == FORMAT_WORDS[mask]
  {
    hide FormatRemainder;
    FormatUnrolled(mask as bv16);
    if mask == 0 {} else if mask == 1 {} else if mask == 2 {} else if mask == 3 {}
    else if mask == 4 {} else if mask == 5 {} else if mask == 6 {} else {}
  }

  /** The version information, version 7 first. */
  const VERSION_WORDS: seq<bv32> := [0x07C94, 0x085BC, 0x09A99, 0x0A4D3, 0x0BBF6, 0x0C762, 0x0D847,
    0x0E60D, 0x0F928, 0x10B78, 0x1145D, 0x12A17, 0x13532, 0x149A6]

  function SixVersionSteps(data: bv32): bv32 {
    VersionStep(VersionStep(VersionStep(VersionStep(VersionStep(VersionStep(data))))))
  }

  lemma VersionUnrolled(data: bv32)
    ensures VersionRemainder(data, 12) == SixVersionSteps(SixVersionSteps(data))
  {
    hide VersionStep;
    assert VersionRemainder(data, 1) == VersionStep(data);
    assert VersionRemainder(data, 2) == VersionStep(VersionRemainder(data, 1));
    assert VersionRemainder(data, 3) == VersionStep(VersionRemainder(data, 2));
    assert VersionRemainder(data, 4) == VersionStep(VersionRemainder(data, 3));
    assert VersionRemainder(data, 5) == VersionStep(VersionRemainder(data, 4));
    assert VersionRemainder(data, 6) == VersionStep(VersionRemainder(data, 5));
    assert VersionRemainder(data, 7) == VersionStep(VersionRemainder(data, 6));
    assert VersionRemainder(data, 8) == VersionStep(VersionRemainder(data, 7));
    assert VersionRemainder(data, 9) == VersionStep(VersionRemainder(data, 8));
    assert VersionRemainder(data, 10) == VersionStep(VersionRemainder(data, 9));
    assert VersionRemainder(data, 11) == VersionStep(VersionRemainder(data, 10));
  }

  lemma VersionTableTo10()
    ensures VersionWord(7) == VERSION_WORDS[0] && VersionWord(8) == VERSION_WORDS[1]
    ensures VersionWord(9) == VERSION_WORDS[2] && VersionWord(10) == VERSION_WORDS[3]
  {
    hide VersionRemainder;
    VersionUnrolled(7);
    VersionUnrolled(8);
    VersionUnrolled(9);
    VersionUnrolled(10);
  }

  lemma VersionTableTo15()
    ensures VersionWord(11) == VERSION_WORDS[4] && VersionWord(12) == VERSION_WORDS[5]
    ensures VersionWord(13) == VERSION_WORDS[6] && VersionWord(14) == VERSION_WORDS[7]
    ensures VersionWord(15) == VERSION_WORDS[8]
  {
    hide VersionRemainder;
    VersionUnrolled(11);
    VersionUnrolled(12);
    VersionUnrolled(13);
    VersionUnrolled(14);
    VersionUnrolled(15);
  }

  lemma VersionTableTo20()
    ensures VersionWord(16) == VERSION_WORDS[9] && VersionWord(17) == VERSION_WORDS[10]
    ensures VersionWord(18) == VERSION_WORDS[11] && VersionWord(19) == VERSION_WORDS[12]
    ensures VersionWord(20) == VERSION_WORDS[13]
  {
    hide VersionRemainder;
    VersionUnrolled(16);
    VersionUnrolled(17);
    VersionUnrolled(18);
    VersionUnrolled(19);
    VersionUnrolled(20);
  }

  /** The version information computed is the standard's table (annex D). */
  lemma VersionWords(v: Version)
    requires v >= 7
    ensures VersionWord(v) == VERSION_WORDS[v - 7]
  {
    hide VersionWord;
    VersionTableTo10();
    VersionTableTo15();
    VersionTableTo20();
  }

  /** How many rows a mask has before it repeats; it always repeats after six columns. */
  function TileHeight(mask: nat): (h: nat)
    requires mask < 8
    ensures h > 0
  {
    match mask case 0 => 2 case 1 => 2 case 2 => 1 case 3 => 3 case 4 => 4 case _ => 6
  }

  /** The columns a row of a mask's tile has dark; the tile repeats from the symbol's upper left corner. */
  function TileRow(mask: nat, row: nat): set<nat>
    requires mask < 8
  {
    match mask
    case 0 => (match row case 0 => {0, 2, 4} case _ => {1, 3, 5})
    case 1 => (match row case 0 => {0, 1, 2, 3, 4, 5} case _ => {})
    case 2 => {0, 3}
    case 3 => (match row case 0 => {0, 3} case 1 => {2, 5} case _ => {1, 4})
    case 4 => (match row case 0 => {0, 1, 2} case 1 => {0, 1, 2} case _ => {3, 4, 5})
    case 5 => (match row case 0 => {0, 1, 2, 3, 4, 5} case 1 => {0} case 2 => {0, 3} case 3 => {0, 2, 4}
      case 4 => {0, 3} case _ => {0})
    case 6 => (match row case 0 => {0, 1, 2, 3, 4, 5} case 1 => {0, 1, 2} case 2 => {0, 1, 3, 4} case 3 => {0, 2, 4}
      case 4 => {0, 2, 3, 5} case _ => {0, 4, 5})
    case _ => (match row case 0 => {0, 2, 4} case 1 => {3, 4, 5} case 2 => {0, 4, 5} case 3 => {1, 3, 5}
      case 4 => {0, 1, 2} case _ => {1, 2, 3})
  }

  /** Products are seen modulo 2 and 3 through their factors modulo 6. */
  lemma ProductModSix(x: nat, y: nat)
    ensures x * y % 2 == (x % 6) * (y % 6) % 2 && x * y % 3 == (x % 6) * (y % 6) % 3
  {
    var a, r, b, s := x / 6, x % 6, y / 6, y % 6;
    SixesTaken(x, y, a, r, b, s);
    SixesDropped(a * y + r * b, r * s);
  }

  lemma SixesTaken(x: int, y: int, a: int, r: int, b: int, s: int)
    requires x == 6 * a + r && y == 6 * b + s
    ensures x * y == 6 * (a * y + r * b) + r * s
  {
    TimesSum(6 * a, r, y);
    SumTimes(r, 6 * b, s);
    assert 6 * a * y == 6 * (a * y) && r * (6 * b) == 6 * (r * b);
  }

  lemma SixesDropped(k: int, n: int)
    ensures (6 * k + n) % 2 == n % 2 && (6 * k + n) % 3 == n % 3
  {
    DivisionLaw(n, 2);
    DivisionLaw(n, 3);
    Quotient(6 * k + n, 2, 3 * k + n / 2, n % 2);
    Quotient(6 * k + n, 3, 2 * k + n / 3, n % 3);
    DivisionLaw(6 * k + n, 2);
    DivisionLaw(6 * k + n, 3);
  }

  predicate TileDark(mask: nat, x: nat, y: nat)
    requires mask < 8 && x < 6
  {
    x in TileRow(mask, y % TileHeight(mask))
  }

  /** What the last three masks make of a product modulo 2 and 3 and a sum modulo 2. */
  predicate ProductDark(mask: nat, two: nat, three: nat, odd: nat)
    requires 5 <= mask < 8 && two < 2 && three < 3 && odd < 2
  {
    match mask
    case 5 => two + three == 0
    case 6 => two + three == 0 || two + three == 2
    case _ => odd + three == 0 || odd + three == 2
  }

  /** The three tiles at one place, of what their formulas take there. */
  predicate TilesShow(r: nat, s: nat, two: nat, three: nat, odd: nat)
    requires r < 6 && s < 6 && two < 2 && three < 3 && odd < 2
  {
    (TileDark(5, r, s) <==> ProductDark(5, two, three, odd)) &&
    (TileDark(6, r, s) <==> ProductDark(6, two, three, odd)) &&
    (TileDark(7, r, s) <==> ProductDark(7, two, three, odd))
  }

  lemma TilesOfRow0()
    ensures TilesShow(0, 0, 0, 0, 0) && TilesShow(1, 0, 0, 0, 1)
    ensures TilesShow(2, 0, 0, 0, 0) && TilesShow(3, 0, 0, 0, 1)
    ensures TilesShow(4, 0, 0, 0, 0) && TilesShow(5, 0, 0, 0, 1)
  {}

  lemma TilesOfRow1()
    ensures TilesShow(0, 1, 0, 0, 1) && TilesShow(1, 1, 1, 1, 0)
    ensures TilesShow(2, 1, 0, 2, 1) && TilesShow(3, 1, 1, 0, 0)
    ensures TilesShow(4, 1, 0, 1, 1) && TilesShow(5, 1, 1, 2, 0)
  {}

  lemma TilesOfRow2()
    ensures TilesShow(0, 2, 0, 0, 0) && TilesShow(1, 2, 0, 2, 1)
    ensures TilesShow(2, 2, 0, 1, 0) && TilesShow(3, 2, 0, 0, 1)
    ensures TilesShow(4, 2, 0, 2, 0) && TilesShow(5, 2, 0, 1, 1)
  {}

  lemma TilesOfRow3()
    ensures TilesShow(0, 3, 0, 0, 1) && TilesShow(1, 3, 1, 0, 0)
    ensures TilesShow(2, 3, 0, 0, 1) && TilesShow(3, 3, 1, 0, 0)
    ensures TilesShow(4, 3, 0, 0, 1) && TilesShow(5, 3, 1, 0, 0)
  {}

  lemma TilesOfRow4()
    ensures TilesShow(0, 4, 0, 0, 0) && TilesShow(1, 4, 0, 1, 1)
    ensures TilesShow(2, 4, 0, 2, 0) && TilesShow(3, 4, 0, 0, 1)
    ensures TilesShow(4, 4, 0, 1, 0) && TilesShow(5, 4, 0, 2, 1)
  {}

  lemma TilesOfRow5()
    ensures TilesShow(0, 5, 0, 0, 1) && TilesShow(1, 5, 1, 2, 0)
    ensures TilesShow(2, 5, 0, 1, 1) && TilesShow(3, 5, 1, 0, 0)
    ensures TilesShow(4, 5, 0, 2, 1) && TilesShow(5, 5, 1, 1, 0)
  {}

  lemma SmallProducts(r: nat, s: nat)
    requires r < 6 && s < 6
    ensures TilesShow(r, s, r * s % 2, r * s % 3, (r + s) % 2)
  {
    hide TilesShow;
    TilesOfRow0();
    TilesOfRow1();
    TilesOfRow2();
    TilesOfRow3();
    TilesOfRow4();
    TilesOfRow5();
    if s == 0 {} else if s == 1 {} else if s == 2 {} else if s == 3 {} else if s == 4 {} else {}
    if r == 0 {} else if r == 1 {} else if r == 2 {} else if r == 3 {} else if r == 4 {} else {}
  }

  lemma SameRow(mask: nat, x: nat, y: nat)
    requires 5 <= mask < 8 && x < 6
    ensures TileDark(mask, x, y) <==> TileDark(mask, x, y % 6)
  {}

  lemma MaskOfProduct(mask: nat, x: nat, y: nat)
    requires 5 <= mask < 8
    ensures MaskBit(mask, (x, y)) <==> ProductDark(mask, x * y % 2, x * y % 3, (x + y) % 2)
  {}

  lemma TiledByProduct(mask: nat, x: nat, y: nat)
    requires 5 <= mask < 8
    ensures MaskBit(mask, (x, y)) <==> TileDark(mask, x % 6, y)
  {
    hide TileDark, MaskBit, ProductDark;
    var r, s := x % 6, y % 6;
    ProductModSix(x, y);
    SumModTwo(x, y);
    MaskOfProduct(mask, x, y);
    SmallProducts(r, s);
    SameRow(mask, r, y);
  }

  lemma SumModTwo(x: nat, y: nat)
    ensures (x + y) % 2 == (x % 6 + y % 6) % 2
  {}

  lemma TiledByThirds(x: nat, y: nat)
    ensures MaskBit(4, (x, y)) <==> TileDark(4, x % 6, y)
  {
    ThirdsInTile(x, y, x / 6, x % 6, y / 4, y % 4);
    ThirdsTile(x % 6, y % 4);
  }

  lemma ThirdsInTile(x: nat, y: nat, a: nat, r: nat, b: nat, s: nat)
    requires x == 6 * a + r && r < 6 && y == 4 * b + s && s < 4
    ensures (x / 3 + y / 2) % 2 == (r / 3 + s / 2) % 2
  {
    DivisionLaw(r, 3);
    DivisionLaw(s, 2);
    Quotient(x, 3, 2 * a + r / 3, r % 3);
    Quotient(y, 2, 2 * b + s / 2, s % 2);
  }

  lemma ThirdsTile(r: nat, s: nat)
    requires r < 6 && s < 4
    ensures (r / 3 + s / 2) % 2 == 0 <==> r in TileRow(4, s)
  {
    if s == 0 {} else if s == 1 {} else if s == 2 {} else {}
  }

  lemma TiledInTwos(x: nat, y: nat)
    ensures MaskBit(0, (x, y)) <==> TileDark(0, x % 6, y)
    ensures MaskBit(1, (x, y)) <==> TileDark(1, x % 6, y)
  {}

  lemma TiledInThrees(x: nat, y: nat)
    ensures MaskBit(2, (x, y)) <==> TileDark(2, x % 6, y)
  {}

  lemma TiledDiagonally(x: nat, y: nat)
    ensures MaskBit(3, (x, y)) <==> TileDark(3, x % 6, y)
  {
    SumModThree(x, y);
    var r, s := x % 6, y % 3;
    if s == 0 {} else if s == 1 {} else {}
  }

  lemma SumModThree(x: nat, y: nat)
    ensures (x + y) % 3 == (x % 6 + y % 3) % 3
  {}

  /** Every mask turns over the modules its tile shows dark. */
  lemma MaskIsTiled(mask: nat, x: nat, y: nat)
    requires mask < 8
    ensures MaskBit(mask, (x, y)) <==> TileDark(mask, x % 6, y)
  {
    hide MaskBit, TileDark;
    if mask < 2 {
      TiledInTwos(x, y);
    } else if mask == 2 {
      TiledInThrees(x, y);
    } else if mask == 3 {
      TiledDiagonally(x, y);
    } else if mask == 4 {
      TiledByThirds(x, y);
    } else {
      TiledByProduct(mask, x, y);
    }
  }

  // ---------- Which modules are function modules

  /** A module within two of an alignment pattern's centre that is not under a finder. */
  predicate ByAlignment(v: Version, c: Cell, i: int, j: int) {
    var pos := QrAlign(v);
    0 <= i < |pos| && 0 <= j < |pos| && !(i == 0 && j == 0) && !(i == 0 && j == |pos| - 1) &&
    !(i == |pos| - 1 && j == 0) && pos[i] - 2 <= c.0 <= pos[i] + 2 && pos[j] - 2 <= c.1 <= pos[j] + 2
  }

  lemma AlignmentBy(v: Version, c: Cell)
    ensures IsAlignment(v, c) <==> exists i, j :: ByAlignment(v, c, i, j)
  {
    var pos := QrAlign(v);
    if IsAlignment(v, c) {
      assert ByAlignment(v, c, Near(pos, c.0), Near(pos, c.1));
    }
    if i, j :| ByAlignment(v, c, i, j) {
      NearIsCentre(v, i, c.0);
      NearIsCentre(v, j, c.1);
    }
  }

  /**
   * The function modules: three corners of 9 by 9, 8 by 9 and 9 by 8, a row and a column of timing, the version blocks
   * from version 7 on, and 5 by 5 at every alignment centre not under a finder.
   */
  lemma FunctionModules(v: Version, c: Cell)
    requires InSymbol(v, c)
    ensures var (x, y), s := c, Size(v);
            IsFunction(v, c) <==>
            (x <= 8 && y <= 8) || (x >= s - 8 && y <= 8) || (x <= 8 && y >= s - 8) || x == 6 || y == 6 ||
            (v >= 7 && ((s - 11 <= x <= s - 9 && y <= 5) || (s - 11 <= y <= s - 9 && x <= 5))) ||
            exists i, j :: ByAlignment(v, c, i, j)
  {
    AlignmentBy(v, c);
    hide IsAlignment, ByAlignment;
  }
}
