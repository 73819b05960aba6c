/** The tables of a QR code at error correction level M, versions 1 to 20 (ISO/IEC 18004:2015, table 9 and annex E). */
module QrTables {

  /** Error correction codewords per block, then the blocks and their data codewords in each of two groups. */
  datatype Blocks = Blocks(ec: nat, n1: nat, d1: nat, n2: nat, d2: nat)

  type Version = v: int | 1 <= v <= 20 witness 1

  function QrBlocks(v: Version): Blocks {
    match v
    case 1 => Blocks(10, 1, 16, 0, 0)
    case 2 => Blocks(16, 1, 28, 0, 0)
    case 3 => Blocks(26, 1, 44, 0, 0)
    case 4 => Blocks(18, 2, 32, 0, 0)
    case 5 => Blocks(24, 2, 43, 0, 0)
    case 6 => Blocks(16, 4, 27, 0, 0)
    case 7 => Blocks(18, 4, 31, 0, 0)
    case 8 => Blocks(22, 2, 38, 2, 39)
    case 9 => Blocks(22, 3, 36, 2, 37)
    case 10 => Blocks(26, 4, 43, 1, 44)
    case 11 => Blocks(30, 1, 50, 4, 51)
    case 12 => Blocks(22, 6, 36, 2, 37)
    case 13 => Blocks(22, 8, 37, 1, 38)
    case 14 => Blocks(24, 4, 40, 5, 41)
    case 15 => Blocks(24, 5, 41, 5, 42)
    case 16 => Blocks(28, 7, 45, 3, 46)
    case 17 => Blocks(28, 10, 46, 1, 47)
    case 18 => Blocks(26, 9, 43, 4, 44)
    case 19 => Blocks(26, 3, 44, 11, 45)
    case 20 => Blocks(26, 3, 41, 13, 42)
  }

  /** The centres of the alignment patterns. */
  function QrAlign(v: Version): seq<int> {
    match v
    case 1 => []
    case 2 => [6, 18]
    case 3 => [6, 22]
    case 4 => [6, 26]
    case 5 => [6, 30]
    case 6 => [6, 34]
    case 7 => [6, 22, 38]
    case 8 => [6, 24, 42]
    case 9 => [6, 26, 46]
    case 10 => [6, 28, 50]
    case 11 => [6, 30, 54]
    case 12 => [6, 32, 58]
    case 13 => [6, 34, 62]
    case 14 => [6, 26, 46, 66]
    case 15 => [6, 26, 48, 70]
    case 16 => [6, 26, 50, 74]
    case 17 => [6, 30, 54, 78]
    case 18 => [6, 30, 56, 82]
    case 19 => [6, 30, 58, 86]
    case 20 => [6, 34, 62, 90]
  }

  function Size(v: Version): nat {
    17 + 4 * v
  }

  function DataCodewords(v: Version): nat {
    var b := QrBlocks(v);
    b.n1 * b.d1 + b.n2 * b.d2
  }

  function TotalCodewords(v: Version): nat {
    DataCodewords(v) + (QrBlocks(v).n1 + QrBlocks(v).n2) * QrBlocks(v).ec
  }

  /** The modules of a version that carry codewords, from the geometry alone. */
  function RawModules(v: Version): int {
    var n := (16 * v + 128) * v + 64;
    if v < 2 then n
    else
      var align := v / 7 + 2;
      n - ((25 * align - 10) * align - 55) - (if v >= 7 then 36 else 0)
  }

  /** The bits of the character count. */
  function CountBits(v: Version): nat {
    if v >= 10 then 16 else 8
  }

  /**
   * The block table fills the symbol to within a byte, and every block is short enough for the Reed-Solomon distance.
   */
  lemma BlocksFillSymbol(v: Version)
    ensures TotalCodewords(v) == RawModules(v) / 8
    ensures QrBlocks(v).ec > 0 && QrBlocks(v).n1 > 0
    ensures QrBlocks(v).d1 + QrBlocks(v).ec <= 255 && QrBlocks(v).d2 + QrBlocks(v).ec <= 255
    ensures QrBlocks(v).n2 > 0 ==> QrBlocks(v).d2 == QrBlocks(v).d1 + 1
    ensures QrBlocks(v).n2 == 0 ==> QrBlocks(v).d2 == 0
  {
    RawModulesFilled(v);
    BlockSizes(v);
    hide QrBlocks, TotalCodewords, RawModules;
  }

  lemma RawModulesFilled(v: Version)
    ensures TotalCodewords(v) == RawModules(v) / 8
  {}

  lemma BlockSizes(v: Version)
    ensures QrBlocks(v).ec > 0 && QrBlocks(v).n1 > 0
    ensures QrBlocks(v).d1 + QrBlocks(v).ec <= 255 && QrBlocks(v).d2 + QrBlocks(v).ec <= 255
    ensures QrBlocks(v).n2 > 0 ==> QrBlocks(v).d2 == QrBlocks(v).d1 + 1
    ensures QrBlocks(v).n2 == 0 ==> QrBlocks(v).d2 == 0
  {}

  /**
   * The alignment centres: as many as the geometry's formula assumes, the first on the timing pattern, all far apart.
   */
  lemma AlignmentCentres(v: Version)
    ensures v == 1 ==> QrAlign(v) == []
    ensures v >= 2 ==> |QrAlign(v)| == v / 7 + 2 && QrAlign(v)[0] == 6 && QrAlign(v)[|QrAlign(v)| - 1] == Size(v) - 7
    ensures forall i :: 0 < i < |QrAlign(v)| ==> QrAlign(v)[i - 1] + 12 <= QrAlign(v)[i]
  {
    if v <= 6 {} else if v <= 10 {} else if v <= 13 {} else if v <= 17 {} else {}
  }

  // ---------- What the standard's other tables say

  /** Data codewords of a symbol at level M, version 1 first. */
  const LEVEL_M_DATA: seq<nat> :=
    [16, 28, 44, 64, 86, 108, 124, 154, 182, 216, 254, 290, 334, 365, 415, 453, 507, 563, 627, 669]

  /** Blocks of a symbol at level M, version 1 first. */
  const LEVEL_M_BLOCKS: seq<nat> := [1, 1, 1, 2, 2, 4, 4, 4, 5, 5, 5, 8, 9, 9, 10, 10, 11, 13, 14, 16]

  /** The block table's row for a version that spreads that much data over that many blocks. */
  predicate IsSpread(v: Version, data: nat, blocks: nat)
    requires blocks > 0
  {
    var b := QrBlocks(v);
    DataCodewords(v) == data && b.n1 + b.n2 == blocks && b.n2 == data % blocks && b.d1 == data / blocks &&
    b.ec == (RawModules(v) / 8 - data) / blocks
  }

  lemma SpreadTo7(v: Version)
    requires v <= 7
    ensures IsSpread(v, LEVEL_M_DATA[v - 1], LEVEL_M_BLOCKS[v - 1])
  {
    if v == 1 {} else if v == 2 {} else if v == 3 {} else if v == 4 {} else if v == 5 {} else if v == 6 {} else {}
  }

  lemma SpreadTo14(v: Version)
    requires 7 < v <= 14
    ensures IsSpread(v, LEVEL_M_DATA[v - 1], LEVEL_M_BLOCKS[v - 1])
  {
    if v == 8 {} else if v == 9 {} else if v == 10 {} else if v == 11 {} else if v == 12 {} else if v == 13 {} else {}
  }

  lemma SpreadTo20(v: Version)
    requires 14 < v
    ensures IsSpread(v, LEVEL_M_DATA[v - 1], LEVEL_M_BLOCKS[v - 1])
  {
    if v == 15 {} else if v == 16 {} else if v == 17 {} else if v == 18 {} else if v == 19 {} else {}
  }

  /**
   * Capacity and number of blocks determine the rest of the block table: the data spread as evenly as it goes, the
   * longer blocks last, and the correction what the geometry leaves.
   */
  lemma BlocksDetermined(v: Version)
    ensures IsSpread(v, LEVEL_M_DATA[v - 1], LEVEL_M_BLOCKS[v - 1])
  {
    hide IsSpread;
    if v <= 7 {
      SpreadTo7(v);
    } else if v <= 14 {
      SpreadTo14(v);
    } else {
      SpreadTo20(v);
    }
  }

  /** How far apart the alignment centres are from the second on: even, and as equal as they can be. */
  function AlignStep(v: Version): nat
    requires v >= 2
  {
    var n := v / 7 + 2;
    (4 * v + 2 * n + 1) / (2 * n - 2) * 2
  }

  lemma StepsOfThree(v: Version)
    requires 7 <= v < 14
    ensures var pos := QrAlign(v); |pos| == 3 && pos[2] == Size(v) - 7 && pos[1] == Size(v) - 7 - AlignStep(v)
  {
    if v == 7 {} else if v == 8 {} else if v == 9 {} else if v == 10 {} else if v == 11 {} else if v == 12 {} else {}
  }

  lemma StepsOfFour(v: Version)
    requires 14 <= v <= 16
    ensures var pos := QrAlign(v);
            |pos| == 4 && pos[3] == Size(v) - 7 && pos[2] == Size(v) - 7 - AlignStep(v) &&
            pos[1] == Size(v) - 7 - 2 * AlignStep(v)
  {
    if v == 14 {} else if v == 15 {} else {}
  }

  lemma LaterStepsOfFour(v: Version)
    requires 17 <= v
    ensures var pos := QrAlign(v);
            |pos| == 4 && pos[3] == Size(v) - 7 && pos[2] == Size(v) - 7 - AlignStep(v) &&
            pos[1] == Size(v) - 7 - 2 * AlignStep(v)
  {
    if v == 17 {} else if v == 18 {} else if v == 19 {} else {}
  }

  /** After the first, on the timing pattern, the centres are counted back from the far edge in equal steps. */
  lemma AlignmentSteps(v: Version, i: nat)
    requires 0 < i < |QrAlign(v)|
    ensures v >= 2 && QrAlign(v)[i] == Size(v) - 7 - (|QrAlign(v)| - 1 - i) * AlignStep(v)
  {
    AlignmentCentres(v);
    if 7 <= v < 14 {
      StepsOfThree(v);
    } else if 14 <= v < 17 {
      StepsOfFour(v);
    } else if v >= 17 {
      LaterStepsOfFour(v);
    }
    hide QrAlign, AlignStep;
    assert |QrAlign(v)| <= 4;
    if i == |QrAlign(v)| - 1 {} else if i == |QrAlign(v)| - 2 {} else {}
  }
}
