/**
 * The zigzag in which codewords are placed (ISO/IEC 18004:2015, section 7.7.3): it visits every module outside column
 * 6 once.
 */
module QrPath {
  import opened QrTables
  import opened Sequences

  /** A module, column first. */
  type Cell = (int, int)

  /** The next pair of columns to the left, the vertical timing pattern skipped. */
  function NextRight(right: int): int {
    if right - 2 == 6 then 5 else right - 2
  }

  predicate Upward(right: int) {
    (right + 1) / 2 % 2 == 0
  }

  function CellAt(size: int, right: int, vert: int, j: int): Cell {
    (right - j, if Upward(right) then size - 1 - vert else vert)
  }

  /** What is still to be visited from a place on the zigzag. */
  function PathFrom(size: nat, right: int, vert: nat, j: nat): seq<Cell>
    requires vert <= size && j <= 2
    decreases right, size - vert, 2 - j
  {
    if right < 1 then []
    else if vert == size then PathFrom(size, NextRight(right), 0, 0)
    else if j == 2 then PathFrom(size, right, vert + 1, 0)
    else [CellAt(size, right, vert, j)] + PathFrom(size, right, vert, j + 1)
  }

  function Path(v: Version): seq<Cell> {
    PathFrom(Size(v), Size(v) - 1, 0, 0)
  }

  /** The right column of the pair that column x is visited in. */
  function Pair(x: int): int {
    if x > 6 then x + x % 2 else x + 1 - x % 2
  }

  predicate IsRight(size: int, right: int) {
    right < 1 || (right < size && right != 6 && Pair(right) == right)
  }

  /** Whether c is visited at the given place or later. */
  predicate Ahead(size: int, right: int, vert: int, j: int, c: Cell) {
    0 <= c.0 < size && 0 <= c.1 < size && c.0 != 6 &&
    (Pair(c.0) < right ||
     (Pair(c.0) == right &&
      var at := if Upward(right) then size - 1 - c.1 else c.1;
      at > vert || (at == vert && right - c.0 >= j)))
  }

  lemma AheadNextPair(size: nat, right: int, j: nat, c: Cell)
    requires j <= 2 && right >= 1 && IsRight(size, right) && size % 2 == 1
    ensures IsRight(size, NextRight(right))
    ensures Ahead(size, right, size, j, c) <==> Ahead(size, NextRight(right), 0, 0, c)
  {}

  lemma AheadNextRow(size: nat, right: int, vert: nat, c: Cell)
    requires vert < size && right >= 1 && IsRight(size, right) && size % 2 == 1
    ensures Ahead(size, right, vert, 2, c) <==> Ahead(size, right, vert + 1, 0, c)
  {}

  lemma AheadNextCell(size: nat, right: int, vert: nat, j: nat, c: Cell)
    requires vert < size && j < 2 && right >= 1 && IsRight(size, right) && size % 2 == 1
    ensures Ahead(size, right, vert, j, c) <==> c == CellAt(size, right, vert, j) || Ahead(size, right, vert, j + 1, c)
  {}

  lemma NothingAhead(size: nat, right: int, vert: nat, j: nat, c: Cell)
    requires right < 1 && IsRight(size, right)
    ensures !Ahead(size, right, vert, j, c)
  {}

  lemma {:induction false} PathFromIsAhead(size: nat, right: int, vert: nat, j: nat, c: Cell)
    requires vert <= size && j <= 2 && IsRight(size, right) && size % 2 == 1
    ensures c in PathFrom(size, right, vert, j) <==> Ahead(size, right, vert, j, c)
    decreases right, size - vert, 2 - j
  {
    hide PathFrom, Ahead, IsRight, CellAt;
    PathFromStep(size, right, vert, j);
    if right < 1 {
      NothingAhead(size, right, vert, j, c);
    } else if vert == size {
      AheadNextPair(size, right, j, c);
      PathFromIsAhead(size, NextRight(right), 0, 0, c);
    } else if j == 2 {
      AheadNextRow(size, right, vert, c);
      PathFromIsAhead(size, right, vert + 1, 0, c);
    } else {
      AheadNextCell(size, right, vert, j, c);
      PathFromIsAhead(size, right, vert, j + 1, c);
    }
  }

  lemma OneBefore(c: Cell, rest: seq<Cell>)
    requires Distinct(rest) && c !in rest
    ensures Distinct([c] + rest)
  {}

  lemma PathFromStep(size: nat, right: int, vert: nat, j: nat)
    requires vert <= size && j <= 2
    ensures PathFrom(size, right, vert, j) ==
            if right < 1 then []
            else if vert == size then PathFrom(size, NextRight(right), 0, 0)
            else if j == 2 then PathFrom(size, right, vert + 1, 0)
            else [CellAt(size, right, vert, j)] + PathFrom(size, right, vert, j + 1)
  {}

  lemma {:induction false} PathFromDistinct(size: nat, right: int, vert: nat, j: nat)
    requires vert <= size && j <= 2 && IsRight(size, right) && size % 2 == 1
    ensures Distinct(PathFrom(size, right, vert, j))
    decreases right, size - vert, 2 - j
  {
    hide PathFrom, CellAt, Ahead;
    PathFromStep(size, right, vert, j);
    if right >= 1 {
      if vert == size {
        PathFromDistinct(size, NextRight(right), 0, 0);
      } else if j == 2 {
        PathFromDistinct(size, right, vert + 1, 0);
      } else {
        var c := CellAt(size, right, vert, j);
        PathFromDistinct(size, right, vert, j + 1);
        PathFromIsAhead(size, right, vert, j + 1, c);
        NotAheadOfItself(size, right, vert, j);
        OneBefore(c, PathFrom(size, right, vert, j + 1));
      }
    }
  }

  lemma NotAheadOfItself(size: nat, right: int, vert: nat, j: nat)
    requires vert < size && j < 2 && right >= 1 && IsRight(size, right)
    ensures !Ahead(size, right, vert, j + 1, CellAt(size, right, vert, j))
  {}

  /** None is visited twice. */
  lemma PathIsDistinct(v: Version)
    ensures Distinct(Path(v))
  {
    hide PathFrom;
    PathFromDistinct(Size(v), Size(v) - 1, 0, 0);
  }

  lemma OnPath(v: Version, c: Cell)
    ensures c in Path(v) <==> 0 <= c.0 < Size(v) && 0 <= c.1 < Size(v) && c.0 != 6
  {
    hide PathFrom;
    PathFromIsAhead(Size(v), Size(v) - 1, 0, 0, c);
  }

  /** Every module outside column 6 is visited, and none twice. */
  lemma PathVisitsAll(v: Version)
    ensures Distinct(Path(v))
    ensures forall c: Cell :: c in Path(v) <==> 0 <= c.0 < Size(v) && 0 <= c.1 < Size(v) && c.0 != 6
  {
    hide Path, Distinct;
    PathIsDistinct(v);
    forall c: Cell ensures c in Path(v) <==> 0 <= c.0 < Size(v) && 0 <= c.1 < Size(v) && c.0 != 6 {
      OnPath(v, c);
    }
  }

  // ---------- Where on the zigzag a module comes

  /** The right column of the m-th pair from the right; the vertical timing pattern moves those past it by one. */
  function RightColumn(v: Version, m: nat): int {
    if Size(v) - 1 - 2 * m > 6 then Size(v) - 1 - 2 * m else Size(v) - 2 - 2 * m
  }

  /** One pair of columns: two modules a row, and then the next pair. */
  lemma {:induction false} PairPassed(size: nat, right: int, vert: nat)
    requires vert <= size && right >= 1
    ensures |PathFrom(size, right, vert, 0)| >= 2 * (size - vert)
    ensures PathFrom(size, right, vert, 0)[2 * (size - vert)..] == PathFrom(size, NextRight(right), 0, 0)
    decreases size - vert
  {
    hide PathFrom, CellAt;
    PathFromStep(size, right, vert, 0);
    if vert < size {
      OneRow(size, right, vert);
      PairPassed(size, right, vert + 1);
      var here, rest := PathFrom(size, right, vert, 0), PathFrom(size, right, vert + 1, 0);
      assert here[2 * (size - vert)..] == rest[2 * (size - vert - 1)..];
    }
  }

  lemma OneRow(size: nat, right: int, vert: nat)
    requires vert < size && right >= 1
    ensures PathFrom(size, right, vert, 0) ==
            [CellAt(size, right, vert, 0), CellAt(size, right, vert, 1)] + PathFrom(size, right, vert + 1, 0)
  {
    hide PathFrom, CellAt;
    PathFromStep(size, right, vert, 0);
    PathFromStep(size, right, vert, 1);
    PathFromStep(size, right, vert, 2);
  }

  lemma {:induction false} RowOfPair(size: nat, right: int, vert: nat, t: nat, j: nat)
    requires vert + t < size && right >= 1 && j < 2
    ensures 2 * t + j < |PathFrom(size, right, vert, 0)|
    ensures PathFrom(size, right, vert, 0)[2 * t + j] == CellAt(size, right, vert + t, j)
    decreases t
  {
    hide PathFrom, CellAt;
    OneRow(size, right, vert);
    if t > 0 {
      RowOfPair(size, right, vert + 1, t - 1, j);
    }
  }

  lemma PairDirection(v: Version, m: nat)
    requires m < Size(v) / 2
    ensures RightColumn(v, m) >= 1 && (Upward(RightColumn(v, m)) <==> m % 2 == 0)
    ensures NextRight(RightColumn(v, m)) == RightColumn(v, m + 1)
  {}

  /** How many modules the first m pairs have. */
  function PairStart(v: Version, m: nat): (k: nat)
    ensures k % 2 == 0
  {
    if m == 0 then 0 else PairStart(v, m - 1) + 2 * Size(v)
  }

  lemma {:induction false} PairsPassed(v: Version, m: nat)
    requires m <= Size(v) / 2
    ensures |Path(v)| >= PairStart(v, m)
    ensures Path(v)[PairStart(v, m)..] == PathFrom(Size(v), RightColumn(v, m), 0, 0)
  {
    hide PathFrom;
    if m > 0 {
      var at := PairStart(v, m - 1);
      PairsPassed(v, m - 1);
      PairDirection(v, m - 1);
      PairPassed(Size(v), RightColumn(v, m - 1), 0);
      assert Path(v)[at..][2 * Size(v)..] == Path(v)[at + 2 * Size(v)..];
    }
  }

  /** It ends with the last pair. */
  lemma PathLength(v: Version)
    ensures |Path(v)| == PairStart(v, Size(v) / 2)
  {
    var last := Size(v) / 2;
    PairsPassed(v, last);
    PathFromStep(Size(v), RightColumn(v, last), 0, 0);
    hide PathFrom, Path, PairStart;
    assert |Path(v)[PairStart(v, last)..]| == 0;
  }

  /** The row of the t-th step along a pair: the first pair goes up, and then down and up in turn. */
  function RowAt(v: Version, m: nat, t: nat): int {
    if m % 2 == 0 then Size(v) - 1 - t else t
  }

  /**
   * The zigzag in full: the pairs of columns from the right, the first upwards from the lower right corner and then
   * down and up in turn, and in each row the right module before the left one.
   */
  lemma PathAt(v: Version, m: nat, t: nat, j: nat)
    requires m < Size(v) / 2 && t < Size(v) && j < 2
    ensures PairStart(v, m) + 2 * t + j < |Path(v)|
    ensures Path(v)[PairStart(v, m) + 2 * t + j] == (RightColumn(v, m) - j, RowAt(v, m, t))
  {
    PairsPassed(v, m);
    PairCell(v, m, t, j);
    hide PathFrom, Path, PairStart, RightColumn, RowAt, CellAt;
    PairDirection(v, m);
    RowOfPair(Size(v), RightColumn(v, m), 0, t, j);
    InRest(Path(v), PairStart(v, m), 2 * t + j);
  }

  lemma PairCell(v: Version, m: nat, t: nat, j: nat)
    requires m < Size(v) / 2
    ensures CellAt(Size(v), RightColumn(v, m), t, j) == (RightColumn(v, m) - j, RowAt(v, m, t))
  {
    PairDirection(v, m);
    hide Upward, RightColumn;
  }

  lemma InRest(path: seq<Cell>, at: nat, n: nat)
    requires at <= |path| && n < |path[at..]|
    ensures at + n < |path| && path[at..][n] == path[at + n]
  {}

  /** The pair, row and side a place on the zigzag belongs to. */
  lemma {:induction false} PathPlace(v: Version, k: nat, pairs: nat) returns (m: nat, t: nat, j: nat)
    requires k < PairStart(v, pairs)
    ensures m < pairs && t < Size(v) && j < 2 && k == PairStart(v, m) + 2 * t + j
    ensures k % 2 == j
  {
    if k < PairStart(v, pairs - 1) {
      m, t, j := PathPlace(v, k, pairs - 1);
    } else {
      m, t, j := pairs - 1, (k - PairStart(v, pairs - 1)) / 2, (k - PairStart(v, pairs - 1)) % 2;
    }
  }

  /** From a module of the zigzag to the next. */
  predicate Follows(v: Version, c: Cell, next: Cell, right: bool) {
    var (x, y) := c;
    if right then next == (x - 1, y)
    else
      next == (x + 1, y - 1) || next == (x + 1, y + 1) ||
      (y in {0, Size(v) - 1} && next == (if x == 7 then 5 else x - 1, y))
  }

  lemma NextInPair(v: Version, m: nat, t: nat, x: int)
    requires t + 1 < Size(v)
    ensures Follows(v, (x - 1, RowAt(v, m, t)), (x, RowAt(v, m, t + 1)), false)
  {}

  lemma NextInNextPair(v: Version, m: nat)
    ensures Follows(v, (RightColumn(v, m) - 1, RowAt(v, m, Size(v) - 1)), (RightColumn(v, m + 1), RowAt(v, m + 1, 0)),
                    false)
  {
    ColumnsMeet(v, m);
    hide RightColumn;
  }

  lemma NextInRow(v: Version, x: int, y: int)
    ensures Follows(v, (x, y), (x - 1, y), true)
  {}

  /**
   * It starts in the lower right corner; its modules come two by two, a module and its left neighbour; from row to next
   * row in the same columns; and at the top or bottom the next pair is taken up in the row in which the last was left.
   */
  lemma PathIsZigzag(v: Version, k: nat)
    requires k + 1 < |Path(v)|
    ensures Path(v)[0] == (Size(v) - 1, Size(v) - 1)
    ensures Follows(v, Path(v)[k], Path(v)[k + 1], k % 2 == 0)
  {
    PathStarts(v);
    hide Path, PathFrom, RightColumn, RowAt, Follows;
    PathLength(v);
    var m, t, j := PathPlace(v, k, Size(v) / 2);
    hide PairStart;
    PathAt(v, m, t, j);
    if j == 0 {
      PathAt(v, m, t, 1);
      NextInRow(v, RightColumn(v, m), RowAt(v, m, t));
    } else if t + 1 < Size(v) {
      PathAt(v, m, t + 1, 0);
      NextInPair(v, m, t, RightColumn(v, m));
    } else {
      NextPair(v, m, k);
      PathAt(v, m + 1, 0, 0);
      NextInNextPair(v, m);
    }
  }

  lemma PathStarts(v: Version)
    ensures |Path(v)| > 0 && Path(v)[0] == (Size(v) - 1, Size(v) - 1)
  {
    hide Path;
    PathAt(v, 0, 0, 0);
  }

  lemma NextPair(v: Version, m: nat, k: nat)
    requires m < Size(v) / 2 && k == PairStart(v, m) + 2 * Size(v) - 1 && k + 1 < |Path(v)|
    ensures k + 1 == PairStart(v, m + 1) && m + 1 < Size(v) / 2
  {
    hide Path;
    PathLength(v);
  }

  /** Two neighbouring pairs share their edge, but for the timing pattern between columns 7 and 5. */
  lemma ColumnsMeet(v: Version, m: nat)
    ensures var x := RightColumn(v, m) - 1; RightColumn(v, m + 1) == if x == 7 then 5 else x - 1
  {}
}
