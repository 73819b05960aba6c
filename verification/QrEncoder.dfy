/** The whole encoder, and a reader of error-free symbols that undoes it. */
module QrEncoder {
  import opened Gf256
  import opened QrTables
  import opened QrStream
  import opened QrInterleave
  import opened QrPath
  import opened QrGeometry
  import opened QrPatterns
  import opened QrSymbol
  import opened Sequences
  import opened Wrappers

  // ---------- Building a symbol

  /** mask is the first of the eight whose symbol has the least penalty. */
  ghost predicate FirstBest(v: Version, bits: seq<bool>, penalty: Grid -> nat, mask: nat)
    requires mask < 8
  {
    BestOf(8, v, bits, penalty, mask)
  }

  /** mask is the first of the least among the masks below n. */
  ghost predicate BestOf(n: nat, v: Version, bits: seq<bool>, penalty: Grid -> nat, mask: nat)
    requires n <= 8 && mask < 8
  {
    forall m :: 0 <= m < n ==>
      penalty(SymbolOf(v, bits, mask)) <= penalty(SymbolOf(v, bits, m)) &&
      (m < mask ==> penalty(SymbolOf(v, bits, mask)) < penalty(SymbolOf(v, bits, m)))
  }

  /** There is one such mask: no other has less penalty, and none before it as little. */
  lemma FirstBestExactly(v: Version, bits: seq<bool>, penalty: Grid -> nat, mask: nat, m: nat)
    requires mask < 8 && m < 8 && FirstBest(v, bits, penalty, mask)
    ensures penalty(SymbolOf(v, bits, mask)) <= penalty(SymbolOf(v, bits, m))
    ensures FirstBest(v, bits, penalty, m) ==> m == mask
  {
    hide SymbolOf;
  }

  lemma NextBest(n: nat, v: Version, bits: seq<bool>, penalty: Grid -> nat, best: nat)
    requires 0 < n < 8 && best < n && BestOf(n, v, bits, penalty, best)
    ensures BestOf(n + 1, v, bits, penalty,
                   if penalty(SymbolOf(v, bits, n)) < penalty(SymbolOf(v, bits, best)) then n else best)
  {
    hide SymbolOf;
  }

  lemma PlacedIsPlain(q: QR, v: Version, bits: seq<bool>)
    requires q.Valid() && q.Size == Size(v)
    requires q.PlacedAlong(v, bits, Free(v, Path(v)))
    requires forall x, y :: q.Inside(x, y) ==> q.fn[y, x] == IsFunction(v, (x, y))
    requires forall x, y :: q.Inside(x, y) && IsFunction(v, (x, y)) ==> q.dark[y, x] == FunctionDark(v, 0, (x, y))
    ensures q.Plain(v, bits, 0)
  {
    hide IsFunction, FunctionDark, Free, Path;
    var free := Free(v, Path(v));
    PathVisitsAll(v);
    FreeDistinct(v, Path(v));
    forall x, y | q.Inside(x, y) && !IsFunction(v, (x, y)) ensures q.dark[y, x] == DataBit(v, bits, (x, y)) {
      IndexOfMember(free, (x, y));
    }
  }

  /** The eight masks, each shown, judged and taken off again; then the best is put on for good. */
  method ChooseMask(v: Version, q: QR, ghost bits: seq<bool>, penalty: Grid -> nat) returns (best: nat)
    requires q.Valid() && q.Size == Size(v) && q.Plain(v, bits, 0)
    modifies q.dark, q.fn
    ensures best < 8 && q.Rows() == SymbolOf(v, bits, best) && FirstBest(v, bits, penalty, best)
  {
    hide SymbolOf, QR.Plain, QR.Shown, QR.Rows, BestOf;
    var bestPenalty: int := -1;
    best := 0;
    ghost var format := 0;
    var mask := 0;
    while mask < 8
      invariant 0 <= mask <= 8 && best < 8 && format < 8
      invariant q.Plain(v, bits, format)
      invariant mask == 0 ==> bestPenalty == -1
      invariant mask > 0 ==>
                  best < mask && bestPenalty == penalty(SymbolOf(v, bits, best)) && BestOf(mask, v, bits, penalty, best)
    {
      q.Show(v, mask, bits, format);
      var p := penalty(q.Rows());
      if mask == 0 {
        OnlyBest(v, bits, penalty);
      } else {
        NextBest(mask, v, bits, penalty, best);
      }
      if bestPenalty < 0 || p < bestPenalty {
        best, bestPenalty := mask, p;
      }
      q.Unmask(v, mask, bits);
      format := mask;
      mask := mask + 1;
    }
    q.Show(v, best, bits, format);
  }

  lemma OnlyBest(v: Version, bits: seq<bool>, penalty: Grid -> nat)
    ensures BestOf(1, v, bits, penalty, 0)
  {}

  /** The function modules drawn, the codewords placed, and the masks tried. */
  method QrBuild(v: Version, data: seq<byte>, penalty: Grid -> nat) returns (q: QR, mask: nat)
    requires |data| == DataCodewords(v)
    ensures q.Valid() && q.Size == Size(v) && fresh(q) && fresh(q.dark) && fresh(q.fn)
    ensures mask < 8 && q.Rows() == SymbolOf(v, Unpack(Interleaved(v, data)), mask)
    ensures FirstBest(v, Unpack(Interleaved(v, data)), penalty, mask)
  {
    hide DataCodewords, IsFunction, FunctionDark, Unpack, Free, Path, Interleaved, SymbolOf, FirstBest, QR.Rows;
    q := new QR(Size(v));
    q.DrawFunction(v);
    var all := QrInterleave.QrInterleave(v, data);
    q.Place(v, all);
    PlacedIsPlain(q, v, Unpack(all));
    mask := ChooseMask(v, q, Unpack(all), penalty);
  }

  // ---------- Reading a symbol

  predicate IsGridOf(v: Version, grid: Grid) {
    |grid| == Size(v) && forall y :: 0 <= y < Size(v) ==> |grid[y]| == Size(v)
  }

  /** Both copies of the format information say mask. */
  predicate FormatShows(v: Version, grid: Grid, mask: nat)
    requires mask < 8 && IsGridOf(v, grid)
  {
    forall x, y :: 0 <= x < Size(v) && 0 <= y < Size(v) && IsFormat(v, (x, y)) ==>
      grid[y][x] == FormatDark(v, mask, (x, y))
  }

  function FindMask(v: Version, grid: Grid, from: nat): (r: Option<nat>)
    requires from <= 8 && IsGridOf(v, grid)
    ensures r.Some? ==> r.value < 8
    decreases 8 - from
  {
    if from == 8 then None
    else if FormatShows(v, grid, from) then Some(from)
    else FindMask(v, grid, from + 1)
  }

  /** The modules that are free, in zigzag order, the mask taken off, as many as the version has codewords for. */
  function ReadBits(v: Version, grid: Grid, mask: nat): (bits: seq<bool>)
    requires mask < 8 && IsGridOf(v, grid)
    ensures |bits| == 8 * TotalCodewords(v)
  {
    FreeHoldsCodewords(v);
    var free := Free(v, Path(v));
    seq(8 * TotalCodewords(v), k requires 0 <= k < 8 * TotalCodewords(v) =>
      grid[free[k].1][free[k].0] != MaskBit(mask, free[k]))
  }

  lemma FreeHoldsCodewords(v: Version)
    ensures |Free(v, Path(v))| >= 8 * TotalCodewords(v)
    ensures forall k :: 0 <= k < |Free(v, Path(v))| ==>
              InSymbol(v, Free(v, Path(v))[k]) && !IsFunction(v, Free(v, Path(v))[k])
  {
    hide DataCodewords, TotalCodewords, RawModules, IsFunction, Path;
    FreeModules(v);
    BlocksFillSymbol(v);
    PathVisitsAll(v);
    var free := Free(v, Path(v));
    forall k | 0 <= k < |free| ensures InSymbol(v, free[k]) && !IsFunction(v, free[k]) {
      FreeMembers(v, Path(v), free[k]);
    }
  }

  function ReadCodewords(v: Version, grid: Grid, mask: nat): (all: seq<byte>)
    requires mask < 8 && IsGridOf(v, grid)
    ensures |all| == TotalCodewords(v)
  {
    hide TotalCodewords, PackAll, ReadBits, IsGridOf;
    PackAll(ReadBits(v, grid, mask))
  }

  /** The message in a version's codewords; a block that is not a Reed-Solomon codeword is refused. */
  ghost function ReadMessage(v: Version, all: seq<byte>): Option<Message>
    requires |all| == TotalCodewords(v)
  {
    var (blocks, rems) := Deinterleave(v, all);
    if Consistent(blocks, rems, QrBlocks(v).ec) then Parse(CountBits(v), Flatten(blocks)) else None
  }

  /** Reads a symbol of a known version. */
  ghost function ReadSymbol(v: Version, grid: Grid): Option<Message>
    requires IsGridOf(v, grid)
  {
    match FindMask(v, grid, 0)
    case None => None
    case Some(mask) => ReadMessage(v, ReadCodewords(v, grid, mask))
  }

  /** Reads a symbol nothing is wrong with: its size gives the version. */
  ghost function Decode(grid: Grid): Option<Message> {
    var v := (|grid| - 17) / 4;
    if 1 <= v <= 20 && IsGridOf(v, grid) then ReadSymbol(v, grid) else None
  }

  lemma FormatCells(v: Version, bits: seq<bool>, mask: nat)
    requires mask < 8
    ensures ModuleAt(v, bits, mask, (4, 8)) == FormatDark(v, mask, (4, 8)) == FormatBit(mask, 10)
    ensures ModuleAt(v, bits, mask, (3, 8)) == FormatDark(v, mask, (3, 8)) == FormatBit(mask, 11)
    ensures ModuleAt(v, bits, mask, (2, 8)) == FormatDark(v, mask, (2, 8)) == FormatBit(mask, 12)
  {
    hide FormatBit, DataBit, MaskBit;
  }

  lemma FormatShown(v: Version, bits: seq<bool>, mask: nat)
    requires mask < 8
    ensures FormatShows(v, SymbolOf(v, bits, mask), mask)
  {
    hide FormatDark, DataBit, MaskBit;
  }

  /** Three modules of the first copy, as the symbol shows them. */
  lemma FormatModules(v: Version, bits: seq<bool>, mask: nat)
    requires mask < 8
    ensures var grid := SymbolOf(v, bits, mask);
            grid[8][4] == FormatBit(mask, 10) && grid[8][3] == FormatBit(mask, 11) && grid[8][2] == FormatBit(mask, 12)
  {
    hide FormatBit, FormatDark, ModuleAt;
    FormatCells(v, bits, mask);
  }

  /** A symbol that shows a mask's format has that mask's three bits. */
  lemma ShownModules(v: Version, grid: Grid, mask: nat)
    requires mask < 8 && IsGridOf(v, grid) && FormatShows(v, grid, mask)
    ensures grid[8][4] == FormatBit(mask, 10) && grid[8][3] == FormatBit(mask, 11) && grid[8][2] == FormatBit(mask, 12)
  {
    FormatDarkAt(v, mask);
    hide FormatBit, FormatDark;
    assert IsFirstCopy((4, 8)) && IsFirstCopy((3, 8)) && IsFirstCopy((2, 8));
  }

  lemma FormatDarkAt(v: Version, mask: nat)
    requires mask < 8
    ensures FormatDark(v, mask, (4, 8)) == FormatBit(mask, 10) && FormatDark(v, mask, (3, 8)) == FormatBit(mask, 11)
    ensures FormatDark(v, mask, (2, 8)) == FormatBit(mask, 12)
  {
    hide FormatBit;
  }

  lemma SameThreeBits(mask: nat, other: nat)
    requires other < 8 && mask < 8 && FormatBit(mask, 10) == FormatBit(other, 10)
    requires FormatBit(mask, 11) == FormatBit(other, 11) && FormatBit(mask, 12) == FormatBit(other, 12)
    ensures mask == other
  {
    hide FormatBit;
    FormatCarriesMask(mask);
    FormatCarriesMask(other);
  }

  lemma FormatOfOther(v: Version, bits: seq<bool>, mask: nat, other: nat)
    requires other < mask < 8
    ensures !FormatShows(v, SymbolOf(v, bits, mask), other)
  {
    hide FormatBit, FormatDark, ModuleAt, SymbolOf, FormatShows;
    if FormatShows(v, SymbolOf(v, bits, mask), other) {
      FormatModules(v, bits, mask);
      ShownModules(v, SymbolOf(v, bits, mask), other);
      SameThreeBits(mask, other);
    }
  }

  lemma {:induction false} MaskRead(v: Version, bits: seq<bool>, mask: nat, from: nat)
    requires from <= mask < 8
    ensures FindMask(v, SymbolOf(v, bits, mask), from) == Some(mask)
    decreases mask - from
  {
    hide FormatShows, ModuleAt;
    if from < mask {
      FormatOfOther(v, bits, mask, from);
      MaskRead(v, bits, mask, from + 1);
    } else {
      FormatShown(v, bits, mask);
    }
  }

  /** The bits are read off the symbol as they were placed. */
  lemma BitsRead(v: Version, bits: seq<bool>, mask: nat)
    requires mask < 8 && |bits| == 8 * TotalCodewords(v)
    ensures ReadBits(v, SymbolOf(v, bits, mask), mask) == bits
  {
    hide ReadBits, SymbolOf, TotalCodewords;
    forall k | 0 <= k < |bits| ensures ReadBits(v, SymbolOf(v, bits, mask), mask)[k] == bits[k] {
      BitRead(v, bits, mask, k);
    }
  }

  lemma BitRead(v: Version, bits: seq<bool>, mask: nat, k: nat)
    requires mask < 8 && |bits| == 8 * TotalCodewords(v) && k < |bits|
    ensures ReadBits(v, SymbolOf(v, bits, mask), mask)[k] == bits[k]
  {
    hide MaskBit, IsFunction, Free, Path, TotalCodewords, Distinct, InSymbol;
    FreeHoldsCodewords(v);
    PathIsDistinct(v);
    FreeDistinct(v, Path(v));
    var c := Free(v, Path(v))[k];
    IndexOfAt(Free(v, Path(v)), k);
    ModuleAtFree(v, bits, mask, c);
  }

  lemma ModuleAtFree(v: Version, bits: seq<bool>, mask: nat, c: Cell)
    requires mask < 8 && InSymbol(v, c) && !IsFunction(v, c)
    ensures SymbolOf(v, bits, mask)[c.1][c.0] == (DataBit(v, bits, c) != MaskBit(mask, c))
  {
    hide MaskBit, IsFunction, DataBit;
  }

  /** Whether the data, its count and its designator fit a version. */
  predicate Fits(v: Version, length: nat, eci: nat) {
    HeaderLength(CountBits(v), length, eci) <= 8 * DataCodewords(v) && length < TwoTo(CountBits(v))
  }

  /** Reading a finished symbol gives back the designator and the data, whatever mask was chosen. */
  lemma DecodeSymbol(v: Version, data: seq<byte>, eci: nat, mask: nat)
    requires Fits(v, |data|, eci) && eci <= 127 && mask < 8
    ensures Decode(SymbolOf(v, Unpack(Interleaved(v, Stream(v, CountBits(v), data, eci))), mask)) ==
            Some(Message(eci, data))
  {
    hide Unpack, PackAll, Stream, Parse, Interleaved, Deinterleave, Consistent, Flatten, QrBlocks, DataCodewords,
      TotalCodewords, ReadBits, FindMask, SymbolOf, HeaderLength;
    var stream := Stream(v, CountBits(v), data, eci);
    var all := Interleaved(v, stream);
    DeinterleaveInverse(v, stream);
    var bits := Unpack(all);
    var grid := SymbolOf(v, bits, mask);
    MaskRead(v, bits, mask, 0);
    BitsRead(v, bits, mask);
    PackUnpacked(all);
    StreamParsed(v, CountBits(v), data, eci);
    assert ReadSymbol(v, grid) == Some(Message(eci, data));
  }

  // ---------- What fits

  /** The bytes a symbol at level M holds without a designator, version 1 first, from the standard's table 7. */
  const BYTE_CAPACITY: seq<nat> :=
    [14, 26, 42, 62, 84, 106, 122, 152, 180, 213, 251, 287, 331, 362, 412, 450, 504, 560, 624, 666]

  lemma TwoToCounts()
    ensures TwoTo(8) == 256 && TwoTo(16) >= 32768
  {
    assert TwoTo(12) == 16 * TwoTo(8);
    assert TwoTo(16) == 16 * TwoTo(12);
  }

  lemma CapacityOf(v: Version)
    ensures BYTE_CAPACITY[v - 1] == LEVEL_M_DATA[v - 1] - (if v >= 10 then 3 else 2)
  {
    if v <= 10 {} else {}
  }

  /** A version holds what the table says, and one byte less with a designator. */
  lemma FitsCapacity(v: Version, length: nat, eci: nat)
    ensures Fits(v, length, eci) <==> length + (if eci > 0 then 1 else 0) <= BYTE_CAPACITY[v - 1]
  {
    BlocksDetermined(v);
    CapacityOf(v);
    TwoToCounts();
    hide DataCodewords, TwoTo, QrBlocks, RawModules;
    assert LEVEL_M_DATA[v - 1] <= 669 && (v < 10 ==> LEVEL_M_DATA[v - 1] <= 182);
  }

  // ---------- The encoder

  /** The symbol of some data: the smallest version that holds it, its codewords under the mask of least penalty. */
  ghost predicate IsCodeOf(v: Version, mask: nat, data: seq<byte>, eci: nat, penalty: Grid -> nat, grid: Grid) {
    mask < 8 && Fits(v, |data|, eci) && (forall u: Version :: u < v ==> !Fits(u, |data|, eci)) &&
    var bits := Unpack(Interleaved(v, Stream(v, CountBits(v), data, eci)));
    grid == SymbolOf(v, bits, mask) && FirstBest(v, bits, penalty, mask)
  }

  datatype Encoded = Encoded(q: QR) | BadEci | TooLong

  /** The smallest version the data fits, and a symbol of it that reads back as the data and its designator. */
  method EncodeQR(data: seq<byte>, eci: int, penalty: Grid -> nat) returns (r: Encoded)
    ensures r.BadEci? <==> eci < 0 || eci > 127
    ensures r.TooLong? <==> 0 <= eci <= 127 && forall v: Version :: !Fits(v, |data|, eci)
    ensures r.Encoded? ==> fresh(r.q) && r.q.Valid() && Decode(r.q.Rows()) == Some(Message(eci, data))
    ensures r.Encoded? ==>
              exists v: Version, mask: nat :: r.q.Size == Size(v) && IsCodeOf(v, mask, data, eci, penalty, r.q.Rows())
  {
    hide DataCodewords, Decode, SymbolOf, Interleaved, Stream, QR.Rows, Unpack, TwoTo, FirstBest;
    if eci < 0 || eci > 127 {
      return BadEci;
    }
    var v := 1;
    while v <= 20
      invariant 1 <= v <= 21
      invariant forall u: Version :: u < v ==> !Fits(u, |data|, eci)
    {
      var count := 8;
      if v >= 10 {
        count := 16;
      }
      var bits := 4 + count + 8 * |data|;
      if eci > 0 {
        bits := bits + 12;
      }
      if bits > 8 * DataCodewords(v) || |data| >= TwoTo(count) {
        v := v + 1;
        continue;
      }
      assert Fits(v, |data|, eci);
      var stream := QrStream.QrStream(v, count, data, eci);
      var q, mask := QrBuild(v, stream, penalty);
      DecodeSymbol(v, data, eci, mask);
      assert IsCodeOf(v, mask, data, eci, penalty, q.Rows());
      return Encoded(q);
    }
    return TooLong;
  }
}
