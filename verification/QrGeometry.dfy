/** Which modules of a symbol are function modules, and how many are left for codewords. */
module QrGeometry {
  import opened QrTables
  import opened QrPath
  import opened Sequences
  import opened Sets

  // ---------- The function modules

  predicate InSymbol(v: Version, c: Cell) {
    0 <= c.0 < Size(v) && 0 <= c.1 < Size(v)
  }

  predicate IsTiming(c: Cell) {
    c.0 == 6 || c.1 == 6
  }

  /** A finder pattern with its separator, in one of three corners. */
  predicate IsFinder(v: Version, c: Cell) {
    (c.0 <= 7 && c.1 <= 7) || (c.0 >= Size(v) - 8 && c.1 <= 7) || (c.0 <= 7 && c.1 >= Size(v) - 8)
  }

  /** The last of the centres within two of x, or -1. */
  function Near(centres: seq<int>, x: int): (i: int)
    ensures -1 <= i < |centres|
    ensures i >= 0 ==> centres[i] - 2 <= x <= centres[i] + 2
  {
    if centres == [] then -1
    else
      var last := |centres| - 1;
      if centres[last] - 2 <= x <= centres[last] + 2 then last else Near(centres[..last], x)
  }

  /** The three places where a finder stands instead of an alignment pattern. */
  predicate IsCorner(n: nat, i: int, j: int) {
    (i == 0 && j == 0) || (i == 0 && j == n - 1) || (i == n - 1 && j == 0)
  }

  predicate IsAlignment(v: Version, c: Cell) {
    var pos := QrAlign(v);
    var i, j := Near(pos, c.0), Near(pos, c.1);
    i >= 0 && j >= 0 && !IsCorner(|pos|, i, j)
  }

  /** Both copies of the format information, and the module that is always dark. */
  predicate IsFormat(v: Version, c: Cell) {
    (c.0 == 8 && (c.1 <= 5 || c.1 == 7 || c.1 == 8 || c.1 >= Size(v) - 8)) ||
    (c.1 == 8 && (c.0 <= 5 || c.0 == 7 || c.0 >= Size(v) - 8))
  }

  predicate IsVersion(v: Version, c: Cell) {
    v >= 7 &&
    ((Size(v) - 11 <= c.0 < Size(v) - 8 && c.1 < 6) || (Size(v) - 11 <= c.1 < Size(v) - 8 && c.0 < 6))
  }

  predicate IsFunction(v: Version, c: Cell) {
    IsTiming(c) || IsFinder(v, c) || IsAlignment(v, c) || IsFormat(v, c) || IsVersion(v, c)
  }

  // ---------- Counting

  ghost function Rect(x: int, y: int, w: nat, h: nat): set<Cell> {
    set i, j | x <= i < x + w && y <= j < y + h :: (i, j)
  }

  lemma {:induction false} RowSize(x: int, y: int, w: nat)
    ensures |Rect(x, y, w, 1)| == w
  {
    if w > 0 {
      RowSize(x, y, w - 1);
      assert Rect(x, y, w, 1) == Rect(x, y, w - 1, 1) + {(x + w - 1, y)};
    } else {
      assert Rect(x, y, 0, 1) == {};
    }
  }

  lemma RectGrows(x: int, y: int, w: nat, h: nat)
    requires h > 0
    ensures |Rect(x, y, w, h)| == |Rect(x, y, w, h - 1)| + |Rect(x, y + h - 1, w, 1)|
  {
    assert Rect(x, y, w, h) == Rect(x, y, w, h - 1) + Rect(x, y + h - 1, w, 1);
    assert Rect(x, y, w, h - 1) !! Rect(x, y + h - 1, w, 1);
  }

  lemma {:induction false} RectSize(x: int, y: int, w: nat, h: nat)
    ensures |Rect(x, y, w, h)| == w * h
  {
    if h > 0 {
      hide Rect;
      RectSize(x, y, w, h - 1);
      RowSize(x, y + h - 1, w);
      RectGrows(x, y, w, h);
      assert w * h == w * (h - 1) + w;
    } else {
      assert Rect(x, y, w, 0) == {};
    }
  }

  lemma UnionSize<T>(a: set<T>, b: set<T>)
    ensures |a + b| <= |a| + |b|
  {
    assert a + b == a + (b - a);
    SubsetSize(b - a, b);
  }

  // ---------- Alignment patterns, less what lies on the timing pattern

  ghost function Pattern(pos: seq<int>, i: nat, j: nat): set<Cell>
    requires i < |pos| && j < |pos|
  {
    if IsCorner(|pos|, i, j) then {}
    else set c | c in Rect(pos[i] - 2, pos[j] - 2, 5, 5) && c.0 != 6 && c.1 != 6
  }

  function PatternCost(n: nat, i: nat, j: nat): nat {
    if IsCorner(n, i, j) then 0 else if i == 0 || j == 0 then 20 else 25
  }

  lemma PatternSize(pos: seq<int>, i: nat, j: nat)
    requires i < |pos| && j < |pos| && pos[0] == 6
    ensures |Pattern(pos, i, j)| <= PatternCost(|pos|, i, j)
  {
    var x, y := pos[i] - 2, pos[j] - 2;
    if !IsCorner(|pos|, i, j) {
      if i == 0 {
        Halves(Pattern(pos, i, j), Rect(4, y, 2, 5), Rect(7, y, 2, 5));
        RectSize(4, y, 2, 5);
        RectSize(7, y, 2, 5);
      } else if j == 0 {
        Halves(Pattern(pos, i, j), Rect(x, 4, 5, 2), Rect(x, 7, 5, 2));
        RectSize(x, 4, 5, 2);
        RectSize(x, 7, 5, 2);
      } else {
        RectSize(x, y, 5, 5);
        SubsetSize(Pattern(pos, i, j), Rect(x, y, 5, 5));
      }
    }
  }

  lemma Halves<T>(s: set<T>, a: set<T>, b: set<T>)
    requires s <= a + b
    ensures |s| <= |a| + |b|
  {
    UnionSize(a, b);
    SubsetSize(s, a + b);
  }

  /** The patterns of row i before column j. */
  ghost function RowPatterns(pos: seq<int>, i: nat, j: nat): set<Cell>
    requires i < |pos| && j <= |pos|
  {
    if j == 0 then {} else RowPatterns(pos, i, j - 1) + Pattern(pos, i, j - 1)
  }

  function RowCost(n: nat, i: nat, j: nat): nat {
    if j == 0 then 0 else RowCost(n, i, j - 1) + PatternCost(n, i, j - 1)
  }

  ghost function Patterns(pos: seq<int>, i: nat): set<Cell>
    requires i <= |pos|
  {
    if i == 0 then {} else Patterns(pos, i - 1) + RowPatterns(pos, i - 1, |pos|)
  }

  function Cost(n: nat, i: nat): nat {
    if i == 0 then 0 else Cost(n, i - 1) + RowCost(n, i - 1, n)
  }

  lemma {:induction false} RowPatternsSize(pos: seq<int>, i: nat, j: nat)
    requires i < |pos| && j <= |pos| && pos[0] == 6
    ensures |RowPatterns(pos, i, j)| <= RowCost(|pos|, i, j)
    ensures forall k :: 0 <= k < j ==> Pattern(pos, i, k) <= RowPatterns(pos, i, j)
  {
    hide Pattern, PatternCost, IsCorner;
    if j > 0 {
      RowPatternsSize(pos, i, j - 1);
      PatternSize(pos, i, j - 1);
      UnionSize(RowPatterns(pos, i, j - 1), Pattern(pos, i, j - 1));
    }
  }

  lemma {:induction false} PatternsSize(pos: seq<int>, i: nat)
    requires i <= |pos| && (pos != [] ==> pos[0] == 6)
    ensures |Patterns(pos, i)| <= Cost(|pos|, i)
  {
    hide RowPatterns, RowCost;
    if i > 0 {
      PatternsSize(pos, i - 1);
      RowPatternsSize(pos, i - 1, |pos|);
      UnionSize(Patterns(pos, i - 1), RowPatterns(pos, i - 1, |pos|));
    }
  }

  lemma {:induction false} RowInPatterns(pos: seq<int>, i: nat, k: nat)
    requires k < i <= |pos|
    ensures RowPatterns(pos, k, |pos|) <= Patterns(pos, i)
  {
    hide RowPatterns;
    if k < i - 1 {
      RowInPatterns(pos, i - 1, k);
    }
  }

  lemma CostValues()
    ensures Cost(0, 0) == 0 && Cost(2, 2) == 25 && Cost(3, 3) == 140 && Cost(4, 4) == 305
  {
    assert RowCost(3, 0, 3) == 20 && RowCost(3, 1, 3) == 70 && RowCost(3, 2, 3) == 50;
    assert RowCost(4, 0, 4) == 40 && RowCost(4, 1, 4) == 95 && RowCost(4, 2, 4) == 95 && RowCost(4, 3, 4) == 75;
  }

  lemma AlignmentCovered(v: Version, c: Cell)
    requires IsAlignment(v, c) && !IsTiming(c)
    ensures c in Patterns(QrAlign(v), |QrAlign(v)|)
  {
    AlignmentCentres(v);
    var pos := QrAlign(v);
    hide QrAlign;
    var i, j := Near(pos, c.0), Near(pos, c.1);
    assert c == (c.0, c.1);
    assert c in Rect(pos[i] - 2, pos[j] - 2, 5, 5);
    assert c in Pattern(pos, i, j);
    RowInPatterns(pos, |pos|, i);
    RowPatternsSize(pos, i, |pos|);
    assert Pattern(pos, i, j) <= RowPatterns(pos, i, |pos|) <= Patterns(pos, |pos|);
  }

  // ---------- The modules left for codewords

  ghost function Symbol(v: Version): set<Cell> {
    Rect(0, 0, Size(v), Size(v))
  }

  ghost function FunctionCells(v: Version): set<Cell> {
    set c | c in Symbol(v) && IsFunction(v, c)
  }

  ghost function Corners(v: Version): set<Cell> {
    Rect(0, 0, 9, 9) + Rect(Size(v) - 8, 0, 8, 9) + Rect(0, Size(v) - 8, 9, 8)
  }

  ghost function Timing(v: Version): set<Cell> {
    Rect(9, 6, 4 * v, 1) + Rect(6, 9, 1, 4 * v)
  }

  ghost function VersionCells(v: Version): set<Cell> {
    if v < 7 then {} else Rect(Size(v) - 11, 0, 3, 6) + Rect(0, Size(v) - 11, 6, 3)
  }

  lemma CornersSize(v: Version)
    ensures |Corners(v)| <= 225 && |Timing(v)| <= 8 * v && |VersionCells(v)| <= (if v >= 7 then 36 else 0)
  {
    hide Rect;
    var s := Size(v);
    RectSize(0, 0, 9, 9);
    RectSize(s - 8, 0, 8, 9);
    RectSize(0, s - 8, 9, 8);
    UnionSize(Rect(0, 0, 9, 9), Rect(s - 8, 0, 8, 9));
    UnionSize(Rect(0, 0, 9, 9) + Rect(s - 8, 0, 8, 9), Rect(0, s - 8, 9, 8));
    RectSize(9, 6, 4 * v, 1);
    RectSize(6, 9, 1, 4 * v);
    UnionSize(Rect(9, 6, 4 * v, 1), Rect(6, 9, 1, 4 * v));
    RectSize(s - 11, 0, 3, 6);
    RectSize(0, s - 11, 6, 3);
    UnionSize(Rect(s - 11, 0, 3, 6), Rect(0, s - 11, 6, 3));
  }

  lemma FunctionCovered(v: Version)
    ensures FunctionCells(v) <= Corners(v) + Timing(v) + VersionCells(v) + Patterns(QrAlign(v), |QrAlign(v)|)
  {
    forall c | c in FunctionCells(v)
      ensures c in Corners(v) + Timing(v) + VersionCells(v) + Patterns(QrAlign(v), |QrAlign(v)|)
    {
      assert c == (c.0, c.1);
      if IsAlignment(v, c) && !IsTiming(c) {
        AlignmentCovered(v, c);
      }
    }
  }

  lemma CostIsFormula(v: Version)
    ensures Size(v) * Size(v) - 225 - 8 * v - (if v >= 7 then 36 else 0) - Cost(|QrAlign(v)|, |QrAlign(v)|) ==
            RawModules(v)
  {
    AlignmentCentres(v);
    CostValues();
    var a := |QrAlign(v)|;
    hide QrAlign, Cost;
    assert a == 0 || a == 2 || a == 3 || a == 4;
  }

  /** At most size squared less qrRawModules of the modules are function modules. */
  lemma FunctionCellsAtMost(v: Version)
    ensures |FunctionCells(v)| <= Size(v) * Size(v) - RawModules(v)
  {
    FunctionCovered(v);
    CornersSize(v);
    AlignmentCentres(v);
    PatternsSize(QrAlign(v), |QrAlign(v)|);
    CostIsFormula(v);
    var p := Patterns(QrAlign(v), |QrAlign(v)|);
    hide QrAlign, Patterns, Corners, Timing, VersionCells, FunctionCells, RawModules;
    UnionSize(Corners(v), Timing(v));
    UnionSize(Corners(v) + Timing(v), VersionCells(v));
    UnionSize(Corners(v) + Timing(v) + VersionCells(v), p);
    SubsetSize(FunctionCells(v), Corners(v) + Timing(v) + VersionCells(v) + p);
  }

  // ---------- The modules of the zigzag that are free

  function Free(v: Version, path: seq<Cell>): seq<Cell> {
    if path == [] then []
    else
      var c := path[|path| - 1];
      Free(v, path[..|path| - 1]) + (if IsFunction(v, c) then [] else [c])
  }

  lemma {:induction false} FreeMembers(v: Version, path: seq<Cell>, c: Cell)
    ensures c in Free(v, path) <==> c in path && !IsFunction(v, c)
  {
    hide IsFunction;
    if path != [] {
      FreeMembers(v, path[..|path| - 1], c);
      assert path == path[..|path| - 1] + [path[|path| - 1]];
    }
  }

  lemma {:induction false} FreeDistinct(v: Version, path: seq<Cell>)
    requires Distinct(path)
    ensures Distinct(Free(v, path))
  {
    hide IsFunction;
    if path != [] {
      var init, c := path[..|path| - 1], path[|path| - 1];
      FreeDistinct(v, init);
      FreeMembers(v, init, c);
    }
  }

  lemma {:induction false} ElementsSize<T>(s: seq<T>)
    ensures |set x | x in s| <= |s|
  {
    if s != [] {
      var init, x := s[..|s| - 1], s[|s| - 1];
      ElementsSize(init);
      assert s == init + [x];
      assert (set y | y in s) == (set y | y in init) + {x};
    } else {
      assert (set x | x in s) == {};
    }
  }

  /** The zigzag passes at least as many free modules as the geometry says carry codewords. */
  lemma FreeModules(v: Version)
    ensures |Free(v, Path(v))| >= RawModules(v)
  {
    PathVisitsAll(v);
    FunctionCellsAtMost(v);
    RectSize(0, 0, Size(v), Size(v));
    var free := Symbol(v) - FunctionCells(v);
    hide Path, RawModules, IsAlignment;
    forall c | c in free ensures c in Free(v, Path(v)) {
      FreeMembers(v, Path(v), c);
    }
    var seen := set c | c in Free(v, Path(v));
    SubsetSize(free, seen);
    ElementsSize(Free(v, Path(v)));
    SubsetSize(FunctionCells(v), Symbol(v));
    assert Symbol(v) == free + FunctionCells(v);
  }
}
