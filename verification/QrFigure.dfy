/** What every finished symbol shows, module by module, as the standard's figures have it. */
module QrFigure {
  import opened QrTables
  import opened QrPath
  import opened QrGeometry
  import opened QrPatterns
  import opened QrSymbol
  import opened QrEncoder
  import opened Sequences

  /** The finished symbol for some bits and a mask shows a module dark or light. */
  predicate Shows(v: Version, bits: seq<bool>, mask: nat, c: Cell, d: bool)
    requires mask < 8
  {
    InSymbol(v, c) && SymbolOf(v, bits, mask)[c.1][c.0] == d
  }

  lemma ShowsModule(v: Version, bits: seq<bool>, mask: nat, c: Cell)
    requires mask < 8 && InSymbol(v, c)
    ensures Shows(v, bits, mask, c, ModuleAt(v, bits, mask, c))
  {
    hide ModuleAt;
  }

  // ---------- Which alignment centres are near the edges

  lemma NearLow(v: Version, x: int)
    requires 0 <= x <= 8
    ensures Near(QrAlign(v), x) <= 0
  {
    AlignmentCentres(v);
    var pos, i := QrAlign(v), Near(QrAlign(v), x);
    hide QrAlign;
    if i > 0 {
      Spaced(pos, 0, i);
    }
  }

  lemma NearHigh(v: Version, x: int)
    requires x >= Size(v) - 9
    ensures Near(QrAlign(v), x) == -1 || Near(QrAlign(v), x) == |QrAlign(v)| - 1
  {
    AlignmentCentres(v);
    var pos, i := QrAlign(v), Near(QrAlign(v), x);
    hide QrAlign;
    if 0 <= i < |pos| - 1 {
      Spaced(pos, i, |pos| - 1);
    }
  }

  // ---------- Finders

  /** The dark columns of a finder pattern with its separator, row by row from the symbol's edge. */
  function FinderRow(y: nat): set<nat> {
    match y
    case 0 => {0, 1, 2, 3, 4, 5, 6}
    case 1 => {0, 6}
    case 2 => {0, 2, 3, 4, 6}
    case 3 => {0, 2, 3, 4, 6}
    case 4 => {0, 2, 3, 4, 6}
    case 5 => {0, 6}
    case 6 => {0, 1, 2, 3, 4, 5, 6}
    case _ => {}
  }

  lemma RingRow(x: nat, y: nat)
    requires x < 8 && y < 8
    ensures var d := Ring((x, y), 3, 3); (d != 2 && d != 4) == (x in FinderRow(y))
  {
    if y == 0 {} else if y == 1 {} else if y == 2 {} else if y == 3 {} else if y == 4 {} else if y == 5 {}
    else if y == 6 {} else {}
  }

  /** A module of a corner is the finder's, whatever mask and data. */
  lemma FinderModule(v: Version, bits: seq<bool>, mask: nat, c: Cell)
    requires mask < 8 && InSymbol(v, c) && IsFinder(v, c)
    ensures ModuleAt(v, bits, mask, c) == FinderDark(v, c)
  {
    if c.0 <= 7 {
      NearLow(v, c.0);
    } else {
      NearHigh(v, c.0);
    }
    if c.1 <= 7 {
      NearLow(v, c.1);
    } else {
      NearHigh(v, c.1);
    }
    hide QrAlign, Near, FinderDark, FormatDark, VersionDark, AlignmentDark;
  }

  /** The three finders, each seen from its corner. */
  lemma FindersShown(v: Version, bits: seq<bool>, mask: nat, x: nat, y: nat)
    requires mask < 8 && x < 8 && y < 8
    ensures var far := Size(v) - 1;
            Shows(v, bits, mask, (x, y), x in FinderRow(y)) &&
            Shows(v, bits, mask, (far - x, y), x in FinderRow(y)) &&
            Shows(v, bits, mask, (x, far - y), x in FinderRow(y))
  {
    hide ModuleAt, FinderRow, Shows;
    var far := Size(v) - 1;
    FinderModule(v, bits, mask, (x, y));
    FinderModule(v, bits, mask, (far - x, y));
    FinderModule(v, bits, mask, (x, far - y));
    ShowsModule(v, bits, mask, (x, y));
    ShowsModule(v, bits, mask, (far - x, y));
    ShowsModule(v, bits, mask, (x, far - y));
    RingRow(x, y);
  }

  // ---------- Timing

  lemma CentresEven(v: Version, i: nat)
    requires i < |QrAlign(v)|
    ensures QrAlign(v)[i] % 2 == 0
  {
    if v <= 6 {} else if v <= 10 {} else if v <= 13 {} else if v <= 17 {} else {}
  }

  lemma TimingAcross(v: Version, bits: seq<bool>, mask: nat, i: nat)
    requires mask < 8 && 8 <= i <= Size(v) - 9
    ensures ModuleAt(v, bits, mask, (i, 6)) == (i % 2 == 0)
  {
    CrossedTiming(v, i);
    hide QrAlign, Near, FormatDark, VersionDark, FinderDark;
  }

  lemma TimingDown(v: Version, bits: seq<bool>, mask: nat, i: nat)
    requires mask < 8 && 8 <= i <= Size(v) - 9
    ensures ModuleAt(v, bits, mask, (6, i)) == (i % 2 == 0)
  {
    CrossedTiming(v, i);
    hide QrAlign, Near, FormatDark, VersionDark, FinderDark;
  }

  /** Where an alignment pattern crosses a timing line, its ring is dark at even places too. */
  lemma CrossedTiming(v: Version, i: nat)
    ensures var pos := QrAlign(v);
            Near(pos, 6) <= 0 && (Near(pos, 6) == 0 ==> pos[0] == 6) && (v >= 2 ==> Near(pos, 6) == 0) &&
            (Near(pos, i) >= 0 ==> (Abs(i - pos[Near(pos, i)]) != 1 <==> i % 2 == 0))
  {
    hide QrAlign, Near;
    NearLow(v, 6);
    FirstCentre(v);
    var k := Near(QrAlign(v), i);
    if k >= 0 {
      CentresEven(v, k);
      NearEven(i, QrAlign(v)[k]);
    }
  }

  lemma FirstCentre(v: Version)
    ensures v >= 2 ==> QrAlign(v) != [] && QrAlign(v)[0] == 6 && Near(QrAlign(v), 6) == 0
    ensures v == 1 ==> QrAlign(v) == []
  {
    AlignmentCentres(v);
    hide QrAlign, Near;
    if v >= 2 {
      NearIsCentre(v, 0, 6);
    }
  }

  lemma NearEven(i: int, centre: int)
    requires centre - 2 <= i <= centre + 2 && centre % 2 == 0
    ensures Abs(i - centre) != 1 <==> i % 2 == 0
  {}

  /** Between the finders both timing lines are dark at even places, also where alignment patterns cross them. */
  lemma TimingShown(v: Version, bits: seq<bool>, mask: nat, i: nat)
    requires mask < 8 && 8 <= i <= Size(v) - 9
    ensures Shows(v, bits, mask, (i, 6), i % 2 == 0) && Shows(v, bits, mask, (6, i), i % 2 == 0)
  {
    hide ModuleAt, Shows;
    TimingAcross(v, bits, mask, i);
    TimingDown(v, bits, mask, i);
    ShowsModule(v, bits, mask, (i, 6));
    ShowsModule(v, bits, mask, (6, i));
  }

  // ---------- Alignment patterns

  /** The dark columns of an alignment pattern, row by row, counted from its upper left corner. */
  function AlignmentRow(y: nat): set<nat> {
    match y
    case 1 => {0, 4}
    case 2 => {0, 2, 4}
    case 3 => {0, 4}
    case _ => {0, 1, 2, 3, 4}
  }

  /** The centres of every pattern that is not under a finder. */
  predicate HasPattern(v: Version, i: nat, j: nat) {
    var n := |QrAlign(v)|;
    i < n && j < n && (i, j) != (0, 0) && (i, j) != (0, n - 1) && (i, j) != (n - 1, 0)
  }

  /** A centre is the first, the last, or well away from both edges. */
  lemma CentrePlace(v: Version, i: nat)
    requires i < |QrAlign(v)|
    ensures if i == 0 then QrAlign(v)[i] == 6 else QrAlign(v)[i] >= 18
    ensures if i == |QrAlign(v)| - 1 then QrAlign(v)[i] == Size(v) - 7 else QrAlign(v)[i] <= Size(v) - 19
  {
    AlignmentCentres(v);
    var pos := QrAlign(v);
    hide QrAlign;
    if i > 0 {
      Spaced(pos, 0, i);
    }
    if i < |pos| - 1 {
      Spaced(pos, i, |pos| - 1);
    }
  }

  lemma ClearOfFormat(v: Version, c: Cell, x: int, y: int)
    requires x - 2 <= c.0 <= x + 2 && y - 2 <= c.1 <= y + 2
    requires (x == 6 || x >= 18) && (x == Size(v) - 7 || x <= Size(v) - 19)
    requires (y == 6 || y >= 18) && (y == Size(v) - 7 || y <= Size(v) - 19)
    requires x == 6 ==> y != 6 && y != Size(v) - 7
    requires y == 6 ==> x != Size(v) - 7
    ensures InSymbol(v, c) && !IsFormat(v, c) && !IsVersion(v, c)
  {}

  lemma AlignmentModule(v: Version, bits: seq<bool>, mask: nat, i: nat, j: nat, c: Cell)
    requires mask < 8 && HasPattern(v, i, j)
    requires QrAlign(v)[i] - 2 <= c.0 <= QrAlign(v)[i] + 2 && QrAlign(v)[j] - 2 <= c.1 <= QrAlign(v)[j] + 2
    ensures InSymbol(v, c) && ModuleAt(v, bits, mask, c) == (Ring(c, QrAlign(v)[i], QrAlign(v)[j]) != 1)
  {
    hide QrAlign, Near, FormatDark, VersionDark, FinderDark, Ring, InSymbol, IsFormat, IsVersion;
    NearIsCentre(v, i, c.0);
    NearIsCentre(v, j, c.1);
    CentrePlace(v, i);
    CentrePlace(v, j);
    ClearOfFormat(v, c, QrAlign(v)[i], QrAlign(v)[j]);
  }

  lemma SmallRing(x: nat, y: nat)
    requires x < 5 && y < 5
    ensures (Ring((x, y), 2, 2) != 1) == (x in AlignmentRow(y))
  {
    if y == 0 {} else if y == 1 {} else if y == 2 {} else if y == 3 {} else {}
  }

  /** Every alignment pattern, from its upper left corner. */
  lemma AlignmentShown(v: Version, bits: seq<bool>, mask: nat, i: nat, j: nat, x: nat, y: nat)
    requires mask < 8 && HasPattern(v, i, j) && x < 5 && y < 5
    ensures Shows(v, bits, mask, (QrAlign(v)[i] - 2 + x, QrAlign(v)[j] - 2 + y), x in AlignmentRow(y))
  {
    hide ModuleAt, AlignmentRow, QrAlign, Shows;
    var c := (QrAlign(v)[i] - 2 + x, QrAlign(v)[j] - 2 + y);
    AlignmentModule(v, bits, mask, i, j, c);
    SmallRing(x, y);
    ShowsModule(v, bits, mask, c);
  }

  // ---------- Format and version information

  /** Where bit i of the format information stands around the first finder. */
  function FormatPlace(i: nat): Cell
    requires i < 15
  {
    if i <= 5 then (8, i) else if i == 6 then (8, 7) else if i == 7 then (8, 8) else if i == 8 then (7, 8)
    else (14 - i, 8)
  }

  /** And under the second and beside the third. */
  function FormatCopy(v: Version, i: nat): Cell
    requires i < 15
  {
    if i < 8 then (Size(v) - 1 - i, 8) else (8, Size(v) - 15 + i)
  }

  lemma FormatModule(v: Version, bits: seq<bool>, mask: nat, i: nat)
    requires mask < 8 && i < 15
    ensures InSymbol(v, FormatPlace(i)) && InSymbol(v, FormatCopy(v, i))
    ensures ModuleAt(v, bits, mask, FormatPlace(i)) == ModuleAt(v, bits, mask, FormatCopy(v, i)) == FormatBit(mask, i)
  {
    hide FormatBit, DataBit, MaskBit, IsAlignment;
  }

  predicate FormatTableBit(mask: nat, i: nat)
    requires mask < 8 && i < 15
  {
    Bit15(FORMAT_WORDS[mask], i)
  }

  lemma FormatFromTable(mask: nat, i: nat)
    requires mask < 8 && i < 15
    ensures FormatBit(mask, i) == FormatTableBit(mask, i)
  {
    hide FormatWord, Bit15;
    FormatWords(mask);
  }

  /** Both copies show the mask's word from the standard's table, and the module beside the third finder is dark. */
  lemma FormatShown(v: Version, bits: seq<bool>, mask: nat, i: nat)
    requires mask < 8 && i < 15
    ensures Shows(v, bits, mask, FormatPlace(i), FormatTableBit(mask, i))
    ensures Shows(v, bits, mask, FormatCopy(v, i), FormatTableBit(mask, i))
    ensures Shows(v, bits, mask, (8, Size(v) - 8), true)
  {
    hide ModuleAt, FormatPlace, FormatCopy, Shows, FormatBit, FormatTableBit;
    FormatModule(v, bits, mask, i);
    FormatFromTable(mask, i);
    DarkModule(v, bits, mask);
    ShowsModule(v, bits, mask, FormatPlace(i));
    ShowsModule(v, bits, mask, FormatCopy(v, i));
    ShowsModule(v, bits, mask, (8, Size(v) - 8));
  }

  lemma DarkModule(v: Version, bits: seq<bool>, mask: nat)
    requires mask < 8
    ensures ModuleAt(v, bits, mask, (8, Size(v) - 8))
  {
    hide FormatBit, DataBit, MaskBit, IsAlignment;
  }

  lemma VersionModule(v: Version, bits: seq<bool>, mask: nat, i: nat)
    requires mask < 8 && v >= 7 && i < 18
    ensures ModuleAt(v, bits, mask, (Size(v) - 11 + i % 3, i / 3)) == VersionBit(v, i)
    ensures ModuleAt(v, bits, mask, (i / 3, Size(v) - 11 + i % 3)) == VersionBit(v, i)
  {
    hide VersionBit, DataBit, MaskBit, IsAlignment;
  }

  predicate VersionTableBit(v: Version, i: nat)
    requires v >= 7 && i < 18
  {
    Bit18(VERSION_WORDS[v - 7], i)
  }

  lemma VersionFromTable(v: Version, i: nat)
    requires v >= 7 && i < 18
    ensures VersionBit(v, i) == VersionTableBit(v, i)
  {
    hide VersionWord, Bit18;
    VersionWords(v);
  }

  /** From version 7 on both blocks show the version's word from the standard's table. */
  lemma VersionShown(v: Version, bits: seq<bool>, mask: nat, i: nat)
    requires mask < 8 && v >= 7 && i < 18
    ensures Shows(v, bits, mask, (Size(v) - 11 + i % 3, i / 3), VersionTableBit(v, i))
    ensures Shows(v, bits, mask, (i / 3, Size(v) - 11 + i % 3), VersionTableBit(v, i))
  {
    hide ModuleAt, Shows, VersionBit, VersionTableBit;
    VersionModule(v, bits, mask, i);
    VersionFromTable(v, i);
    ShowsModule(v, bits, mask, (Size(v) - 11 + i % 3, i / 3));
    ShowsModule(v, bits, mask, (i / 3, Size(v) - 11 + i % 3));
  }

  // ---------- Codewords

  /** Bit k stands on the k-th free module of the zigzag, turned over where the mask's tile is dark. */
  lemma DataShown(v: Version, bits: seq<bool>, mask: nat, k: nat)
    requires mask < 8 && k < |bits| && k < |Free(v, Path(v))|
    ensures var c := Free(v, Path(v))[k];
            InSymbol(v, c) && Shows(v, bits, mask, c, bits[k] != TileDark(mask, c.0 % 6, c.1))
  {
    hide MaskBit, IsFunction, Free, Path, Distinct, InSymbol, TileDark;
    FreeHoldsCodewords(v);
    PathIsDistinct(v);
    FreeDistinct(v, Path(v));
    var c := Free(v, Path(v))[k];
    IndexOfAt(Free(v, Path(v)), k);
    ModuleAtFree(v, bits, mask, c);
    InFirstQuadrant(v, c);
    MaskIsTiled(mask, c.0, c.1);
  }

  lemma InFirstQuadrant(v: Version, c: Cell)
    requires InSymbol(v, c)
    ensures c.0 >= 0 && c.1 >= 0 && c == (c.0, c.1)
  {}
}
