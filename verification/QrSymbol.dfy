/**
 * The symbol under construction: function modules drawn, codewords placed, masks tried (ISO/IEC 18004:2015, sections
 * 7.7 to 7.9).
 */
module QrSymbol {
  import opened Gf256
  import opened QrTables
  import opened QrStream
  import opened QrPath
  import opened QrGeometry
  import opened QrPatterns
  import opened Sequences

  class QR {
    const Size: nat
    const dark: array2<bool>
    const fn: array2<bool>

    ghost predicate Valid() {
      dark != fn && dark.Length0 == dark.Length1 == fn.Length0 == fn.Length1 == Size
    }

    constructor (size: nat)
      ensures Valid() && Size == size && fresh(dark) && fresh(fn)
      ensures forall x, y :: 0 <= x < size && 0 <= y < size ==> !dark[y, x] && !fn[y, x]
    {
      Size := size;
      dark := new bool[size, size]((i, j) => false);
      fn := new bool[size, size]((i, j) => false);
    }

    predicate Inside(x: int, y: int) {
      0 <= x < Size && 0 <= y < Size
    }

    method Set(x: int, y: int, d: bool)
      requires Valid() && Inside(x, y)
      modifies dark, fn
      ensures forall i, j :: Inside(i, j) ==> dark[j, i] == if i == x && j == y then d else old(dark[j, i])
      ensures forall i, j :: Inside(i, j) ==> fn[j, i] == ((i == x && j == y) || old(fn[j, i]))
    {
      dark[y, x] := d;
      fn[y, x] := true;
    }

    method DrawTiming()
      requires Valid() && Size > 6
      modifies dark, fn
      ensures forall x, y :: Inside(x, y) ==> fn[y, x] == (IsTiming((x, y)) || old(fn[y, x]))
      ensures forall x, y :: Inside(x, y) ==> dark[y, x] == if IsTiming((x, y)) then TimingDark((x, y))
              else old(dark[y, x])
    {
      var i := 0;
      while i < Size
        invariant 0 <= i <= Size
        invariant forall x, y :: Inside(x, y) ==>
                    fn[y, x] == ((x == 6 && y < i) || (y == 6 && x < i) || old(fn[y, x]))
        invariant forall x, y :: Inside(x, y) ==>
                    dark[y, x] == if (x == 6 && y < i) || (y == 6 && x < i) then TimingDark((x, y)) else old(dark[y, x])
      {
        Set(6, i, i % 2 == 0);
        Set(i, 6, i % 2 == 0);
        i := i + 1;
      }
    }

    /** The square of modules within r of a centre, as far as it lies in the symbol, each coloured by its ring. */
    method DrawRings(cx: int, cy: int, r: int, light: int -> bool)
      requires Valid() && r >= 0
      modifies dark, fn
      ensures forall x, y :: Inside(x, y) ==> fn[y, x] == (Ring((x, y), cx, cy) <= r || old(fn[y, x]))
      ensures forall x, y :: Inside(x, y) ==>
                dark[y, x] == if Ring((x, y), cx, cy) <= r then !light(Ring((x, y), cx, cy)) else old(dark[y, x])
    {
      var dy := -r;
      while dy <= r
        invariant -r <= dy <= r + 1
        invariant forall x, y :: Inside(x, y) ==>
                    fn[y, x] == ((Ring((x, y), cx, cy) <= r && y - cy < dy) || old(fn[y, x]))
        invariant forall x, y :: Inside(x, y) ==>
                    dark[y, x] == if Ring((x, y), cx, cy) <= r && y - cy < dy then !light(Ring((x, y), cx, cy))
                      else old(dark[y, x])
      {
        var dx := -r;
        while dx <= r
          invariant -r <= dx <= r + 1
          invariant forall x, y :: Inside(x, y) ==>
                      fn[y, x] == ((Ring((x, y), cx, cy) <= r && (y - cy < dy || (y - cy == dy && x - cx < dx))) ||
                        old(fn[y, x]))
          invariant forall x, y :: Inside(x, y) ==>
                      dark[y, x] == if Ring((x, y), cx, cy) <= r && (y - cy < dy || (y - cy == dy && x - cx < dx))
                                    then !light(Ring((x, y), cx, cy)) else old(dark[y, x])
        {
          var x, y := cx + dx, cy + dy;
          if 0 <= x < Size && 0 <= y < Size {
            Set(x, y, !light(Max(Abs(dx), Abs(dy))));
          }
          dx := dx + 1;
        }
        dy := dy + 1;
      }
    }

    method DrawFinders(v: Version)
      requires Valid() && Size == QrTables.Size(v)
      modifies dark, fn
      ensures forall x, y :: Inside(x, y) ==> fn[y, x] == (IsFinder(v, (x, y)) || old(fn[y, x]))
      ensures forall x, y :: Inside(x, y) ==> dark[y, x] == if IsFinder(v, (x, y)) then FinderDark(v, (x, y))
              else old(dark[y, x])
    {
      hide IsFinder, FinderDark, Ring;
      var light := (d: int) => d == 2 || d == 4;
      DrawRings(3, 3, 4, light);
      DrawRings(Size - 4, 3, 4, light);
      DrawRings(3, Size - 4, 4, light);
      forall x, y | Inside(x, y)
        ensures fn[y, x] == (IsFinder(v, (x, y)) || old(fn[y, x]))
        ensures dark[y, x] == if IsFinder(v, (x, y)) then FinderDark(v, (x, y)) else old(dark[y, x])
      {
        FinderRings(v, x, y);
      }
    }

    /** One alignment pattern: the modules whose nearest centres it has. */
    method DrawAlignment(v: Version, i: nat, j: nat)
      requires Valid() && Size == QrTables.Size(v)
      requires i < |QrAlign(v)| && j < |QrAlign(v)| && !IsCorner(|QrAlign(v)|, i, j)
      modifies dark, fn
      ensures forall x, y :: Inside(x, y) ==>
                fn[y, x] == ((Near(QrAlign(v), x) == i && Near(QrAlign(v), y) == j) || old(fn[y, x]))
      ensures forall x, y :: Inside(x, y) ==>
                dark[y, x] == if Near(QrAlign(v), x) == i && Near(QrAlign(v), y) == j then AlignmentDark(v, (x, y))
                  else old(dark[y, x])
    {
      hide QrAlign, Near, IsCorner;
      var pos := QrAlign(v);
      forall x, y
        ensures Ring((x, y), pos[i], pos[j]) <= 2 <==> Near(pos, x) == i && Near(pos, y) == j
      {
        NearIsCentre(v, i, x);
        NearIsCentre(v, j, y);
      }
      DrawRings(pos[i], pos[j], 2, (d: int) => d == 1);
    }

    method DrawAlignments(v: Version)
      requires Valid() && Size == QrTables.Size(v)
      modifies dark, fn
      ensures forall x, y :: Inside(x, y) ==> fn[y, x] == (IsAlignment(v, (x, y)) || old(fn[y, x]))
      ensures forall x, y :: Inside(x, y) ==>
                dark[y, x] == if IsAlignment(v, (x, y)) then AlignmentDark(v, (x, y)) else old(dark[y, x])
    {
      hide QrAlign, Near, IsCorner, AlignmentDark;
      var pos := QrAlign(v);
      var i := 0;
      while i < |pos|
        invariant 0 <= i <= |pos|
        invariant forall x, y :: Inside(x, y) ==>
                    fn[y, x] == ((IsAlignment(v, (x, y)) && Near(pos, x) < i) || old(fn[y, x]))
        invariant forall x, y :: Inside(x, y) ==>
                    dark[y, x] == if IsAlignment(v, (x, y)) && Near(pos, x) < i then AlignmentDark(v, (x, y))
                      else old(dark[y, x])
      {
        var j := 0;
        while j < |pos|
          invariant 0 <= j <= |pos|
          invariant forall x, y :: Inside(x, y) ==>
                      fn[y, x] == ((IsAlignment(v, (x, y)) &&
                        (Near(pos, x) < i || (Near(pos, x) == i && Near(pos, y) < j))) || old(fn[y, x]))
          invariant forall x, y :: Inside(x, y) ==>
                      dark[y, x] == if IsAlignment(v, (x, y)) &&
                        (Near(pos, x) < i || (Near(pos, x) == i && Near(pos, y) < j))
                                    then AlignmentDark(v, (x, y)) else old(dark[y, x])
        {
          if !IsCorner(|pos|, i, j) {
            DrawAlignment(v, i, j);
          }
          j := j + 1;
        }
        i := i + 1;
      }
    }

    /** The format information of a mask, drawn over whatever format information is there. */
    method Format(v: Version, mask: nat)
      requires Valid() && Size == QrTables.Size(v) && mask < 8
      modifies dark, fn
      ensures forall x, y :: Inside(x, y) ==> fn[y, x] == (IsFormat(v, (x, y)) || old(fn[y, x]))
      ensures forall x, y :: Inside(x, y) ==>
                dark[y, x] == if IsFormat(v, (x, y)) then FormatDark(v, mask, (x, y)) else old(dark[y, x])
    {
      hide FormatBit;
      FirstCopy(v, mask);
      SecondCopy(v, mask);
    }

    /** The nine bits down the column and around the corner. */
    method FirstNine(v: Version, mask: nat)
      requires Valid() && Size == QrTables.Size(v) && mask < 8
      modifies dark, fn
      ensures forall x, y :: Inside(x, y) ==>
                fn[y, x] == ((IsFirstCopy((x, y)) && FormatIndex(v, (x, y)) < 9) || old(fn[y, x]))
      ensures forall x, y :: Inside(x, y) ==>
                dark[y, x] == if IsFirstCopy((x, y)) && FormatIndex(v, (x, y)) < 9
                              then FormatBit(mask, FormatIndex(v, (x, y))) else old(dark[y, x])
    {
      hide FormatBit;
      var i := 0;
      while i <= 5
        invariant 0 <= i <= 6
        invariant forall x, y :: Inside(x, y) ==> fn[y, x] == ((x == 8 && y < i) || old(fn[y, x]))
        invariant forall x, y :: Inside(x, y) ==>
                    dark[y, x] == if x == 8 && y < i then FormatBit(mask, y) else old(dark[y, x])
      {
        Set(8, i, FormatBit(mask, i));
        i := i + 1;
      }
      Set(8, 7, FormatBit(mask, 6));
      Set(8, 8, FormatBit(mask, 7));
      Set(7, 8, FormatBit(mask, 8));
    }

    method FirstCopy(v: Version, mask: nat)
      requires Valid() && Size == QrTables.Size(v) && mask < 8
      modifies dark, fn
      ensures forall x, y :: Inside(x, y) ==> fn[y, x] == (IsFirstCopy((x, y)) || old(fn[y, x]))
      ensures forall x, y :: Inside(x, y) ==>
                dark[y, x] == if IsFirstCopy((x, y)) then FormatDark(v, mask, (x, y)) else old(dark[y, x])
    {
      hide FormatBit;
      FirstNine(v, mask);
      var i := 9;
      while i < 15
        invariant 9 <= i <= 15
        invariant forall x, y :: Inside(x, y) ==>
                    fn[y, x] == ((IsFirstCopy((x, y)) && FormatIndex(v, (x, y)) < i) || old(fn[y, x]))
        invariant forall x, y :: Inside(x, y) ==>
                    dark[y, x] == if IsFirstCopy((x, y)) && FormatIndex(v, (x, y)) < i
                                  then FormatBit(mask, FormatIndex(v, (x, y))) else old(dark[y, x])
      {
        Set(14 - i, 8, FormatBit(mask, i));
        i := i + 1;
      }
    }

    method SecondCopy(v: Version, mask: nat)
      requires Valid() && Size == QrTables.Size(v) && mask < 8
      modifies dark, fn
      ensures forall x, y :: Inside(x, y) ==>
                fn[y, x] == ((IsFormat(v, (x, y)) && !IsFirstCopy((x, y))) || old(fn[y, x]))
      ensures forall x, y :: Inside(x, y) ==>
                dark[y, x] == if IsFormat(v, (x, y)) && !IsFirstCopy((x, y)) then FormatDark(v, mask, (x, y))
                  else old(dark[y, x])
    {
      hide FormatBit;
      var i := 0;
      while i < 8
        invariant 0 <= i <= 8
        invariant forall x, y :: Inside(x, y) ==> fn[y, x] == ((y == 8 && x > Size - 1 - i) || old(fn[y, x]))
        invariant forall x, y :: Inside(x, y) ==>
                    dark[y, x] == if y == 8 && x > Size - 1 - i then FormatBit(mask, Size - 1 - x) else old(dark[y, x])
      {
        Set(Size - 1 - i, 8, FormatBit(mask, i));
        i := i + 1;
      }
      while i < 15
        invariant 8 <= i <= 15
        invariant forall x, y :: Inside(x, y) ==>
                    fn[y, x] == ((y == 8 && x > Size - 9) || (x == 8 && Size - 7 <= y < Size - 15 + i) || old(fn[y, x]))
        invariant forall x, y :: Inside(x, y) ==>
                    dark[y, x] == if y == 8 && x > Size - 9 then FormatBit(mask, Size - 1 - x)
                                  else if x == 8 && Size - 7 <= y < Size - 15 + i then FormatBit(mask, y - Size + 15)
                                  else old(dark[y, x])
      {
        Set(8, Size - 15 + i, FormatBit(mask, i));
        i := i + 1;
      }
      Set(8, Size - 8, true);
    }

    method DrawVersion(v: Version)
      requires Valid() && Size == QrTables.Size(v)
      modifies dark, fn
      ensures forall x, y :: Inside(x, y) ==> fn[y, x] == (IsVersion(v, (x, y)) || old(fn[y, x]))
      ensures forall x, y :: Inside(x, y) ==>
                dark[y, x] == if IsVersion(v, (x, y)) then VersionDark(v, (x, y)) else old(dark[y, x])
    {
      hide VersionBit;
      if v < 7 {
        return;
      }
      var i := 0;
      while i < 18
        invariant 0 <= i <= 18
        invariant forall x, y :: Inside(x, y) ==>
                    fn[y, x] == ((IsVersion(v, (x, y)) && VersionIndex(v, (x, y)) < i) || old(fn[y, x]))
        invariant forall x, y :: Inside(x, y) ==>
                    dark[y, x] == if IsVersion(v, (x, y)) && VersionIndex(v, (x, y)) < i then VersionDark(v, (x, y))
                      else old(dark[y, x])
      {
        var a, b := Size - 11 + i % 3, i / 3;
        Set(a, b, VersionBit(v, i));
        Set(b, a, VersionBit(v, i));
        i := i + 1;
      }
    }

    /** Every function module, in the order in which the later ones cover the earlier. */
    method DrawFunction(v: Version)
      requires Valid() && Size == QrTables.Size(v)
      requires forall x, y :: Inside(x, y) ==> !dark[y, x] && !fn[y, x]
      modifies dark, fn
      ensures forall x, y :: Inside(x, y) ==> fn[y, x] == IsFunction(v, (x, y))
      ensures forall x, y :: Inside(x, y) ==>
                dark[y, x] == (IsFunction(v, (x, y)) && FunctionDark(v, 0, (x, y)))
    {
      hide QrAlign, IsAlignment, AlignmentDark, FormatDark, VersionDark, FinderDark, TimingDark;
      DrawTiming();
      DrawFinders(v);
      DrawAlignments(v);
      Format(v, 0);
      DrawVersion(v);
    }

    /** The codewords' bits on the free modules of the zigzag visited so far, and nothing on the others. */
    ghost predicate PlacedAlong(v: Version, bits: seq<bool>, free: seq<Cell>)
      requires Valid() && Size == QrTables.Size(v)
      reads dark
    {
      (forall k :: 0 <= k < |free| ==> Inside(free[k].0, free[k].1)) &&
      (forall k :: 0 <= k < |free| ==> dark[free[k].1, free[k].0] == (k < |bits| && bits[k])) &&
      (forall x, y :: Inside(x, y) && !IsFunction(v, (x, y)) && (x, y) !in free ==> !dark[y, x])
    }

    /** The zigzag has come past the modules of done, and i bits have been placed. */
    ghost predicate Progress(v: Version, bits: seq<bool>, done: seq<Cell>, i: nat)
      requires Valid() && Size == QrTables.Size(v)
      reads dark, fn
    {
      var free := Free(v, done);
      i == (if |free| < |bits| then |free| else |bits|) && PlacedAlong(v, bits, free) &&
      forall x, y :: Inside(x, y) ==> fn[y, x] == IsFunction(v, (x, y))
    }

    /** One module of the zigzag. */
    method PlaceAt(v: Version, all: seq<byte>, ghost done: seq<Cell>, x: int, y: int, i: nat) returns (i': nat)
      requires Valid() && Size == QrTables.Size(v) && Inside(x, y)
      requires Progress(v, Unpack(all), done, i) && (x, y) !in done
      modifies dark
      ensures Progress(v, Unpack(all), done + [(x, y)], i')
      ensures forall x, y :: Inside(x, y) && IsFunction(v, (x, y)) ==> dark[y, x] == old(dark[y, x])
    {
      hide IsFunction, BitAt, Unpack, Free;
      i' := i;
      FreeAppend(v, done, (x, y));
      FreeMembers(v, done, (x, y));
      if !fn[y, x] && i < |all| * 8 {
        UnpackAt(all, i);
        dark[y, x] := BitAt(all[i / 8], 7 - i % 8) == 1;
        i' := i + 1;
      }
    }

    /** One pair of columns, from one end to the other. */
    method PlacePair(v: Version, all: seq<byte>, right: int, ghost done: seq<Cell>, i: nat)
      returns (i': nat, ghost done': seq<Cell>)
      requires Valid() && Size == QrTables.Size(v) && 1 <= right < Size
      requires Path(v) == done + PathFrom(Size, right, 0, 0)
      requires Progress(v, Unpack(all), done, i)
      modifies dark
      ensures Path(v) == done' + PathFrom(Size, NextRight(right), 0, 0)
      ensures Progress(v, Unpack(all), done', i')
      ensures forall x, y :: Inside(x, y) && IsFunction(v, (x, y)) ==> dark[y, x] == old(dark[y, x])
    {
      hide IsFunction, PathFrom, Unpack, Progress, Path;
      i', done' := i, done;
      var vert := 0;
      while vert < Size
        invariant 0 <= vert <= Size
        invariant Path(v) == done' + PathFrom(Size, right, vert, 0)
        invariant Progress(v, Unpack(all), done', i')
        invariant forall x, y :: Inside(x, y) && IsFunction(v, (x, y)) ==> dark[y, x] == old(dark[y, x])
      {
        var j := 0;
        while j < 2
          invariant 0 <= j <= 2
          invariant Path(v) == done' + PathFrom(Size, right, vert, j)
          invariant Progress(v, Unpack(all), done', i')
          invariant forall x, y :: Inside(x, y) && IsFunction(v, (x, y)) ==> dark[y, x] == old(dark[y, x])
        {
          var x := right - j;
          var y := if Upward(right) then Size - 1 - vert else vert;
          PathFromStep(Size, right, vert, j);
          NextOnPath(v, done', (x, y), PathFrom(Size, right, vert, j + 1));
          i' := PlaceAt(v, all, done', x, y, i');
          done' := done' + [(x, y)];
          j := j + 1;
        }
        PathFromStep(Size, right, vert, 2);
        vert := vert + 1;
      }
      PathFromStep(Size, right, vert, 0);
    }

    /** Codewords onto the modules left free, two columns at a time, up and down in turn. */
    method Place(v: Version, all: seq<byte>)
      requires Valid() && Size == QrTables.Size(v)
      requires forall x, y :: Inside(x, y) ==> fn[y, x] == IsFunction(v, (x, y))
      requires forall x, y :: Inside(x, y) && !fn[y, x] ==> !dark[y, x]
      modifies dark
      ensures PlacedAlong(v, Unpack(all), Free(v, Path(v)))
      ensures forall x, y :: Inside(x, y) && IsFunction(v, (x, y)) ==> dark[y, x] == old(dark[y, x])
    {
      hide IsFunction, PathFrom, Unpack;
      ghost var bits := Unpack(all);
      ghost var done: seq<Cell> := [];
      assert Path(v) == done + PathFrom(Size, Size - 1, 0, 0);
      var i := 0;
      var right: int := Size - 1;
      while right >= 1
        invariant right < Size
        invariant Path(v) == done + PathFrom(Size, right, 0, 0)
        invariant Progress(v, bits, done, i)
        invariant forall x, y :: Inside(x, y) && IsFunction(v, (x, y)) ==> dark[y, x] == old(dark[y, x])
        decreases right
      {
        i, done := PlacePair(v, all, right, done, i);
        right := NextRight(right);
      }
      PathFromStep(Size, right, 0, 0);
      assert done == Path(v);
    }

    /** Turns over the data modules a mask selects. */
    method Mask(mask: nat)
      requires Valid() && mask < 8
      modifies dark
      ensures forall x, y :: Inside(x, y) ==> dark[y, x] == (old(dark[y, x]) != (MaskBit(mask, (x, y)) && !fn[y, x]))
    {
      hide MaskBit;
      var y := 0;
      while y < Size
        invariant 0 <= y <= Size
        invariant forall i, j :: Inside(i, j) ==>
                    dark[j, i] == (old(dark[j, i]) != (j < y && MaskBit(mask, (i, j)) && !fn[j, i]))
      {
        var x := 0;
        while x < Size
          invariant 0 <= x <= Size
          invariant forall i, j :: Inside(i, j) ==>
                      dark[j, i] == (old(dark[j, i]) != ((j < y || (j == y && i < x)) && MaskBit(mask, (i, j)) &&
                        !fn[j, i]))
        {
          if MaskBit(mask, (x, y)) && !fn[y, x] {
            dark[y, x] := !dark[y, x];
          }
          x := x + 1;
        }
        y := y + 1;
      }
    }

    /** The symbol as a value, row by row. */
    function Rows(): (grid: Grid)
      requires Valid()
      reads dark
      ensures |grid| == Size
      ensures forall y :: 0 <= y < Size ==> |grid[y]| == Size
      ensures forall x, y :: Inside(x, y) ==> grid[y][x] == dark[y, x]
    {
      seq(Size, y requires 0 <= y < Size reads dark =>
        seq(Size, x requires 0 <= x < Size reads dark => dark[y, x]))
    }

    /** The symbol shows the bits with no mask applied, and some mask's format information. */
    ghost predicate Plain(v: Version, bits: seq<bool>, format: nat)
      requires Valid() && Size == QrTables.Size(v) && format < 8
      reads dark, fn
    {
      forall x, y :: Inside(x, y) ==>
        fn[y, x] == IsFunction(v, (x, y)) &&
        dark[y, x] == if IsFunction(v, (x, y)) then FunctionDark(v, format, (x, y)) else DataBit(v, bits, (x, y))
    }

    /** The symbol shows the bits under a mask, and that mask's format information. */
    ghost predicate Shown(v: Version, bits: seq<bool>, mask: nat)
      requires Valid() && Size == QrTables.Size(v) && mask < 8
      reads dark, fn
    {
      forall x, y :: Inside(x, y) ==>
        fn[y, x] == IsFunction(v, (x, y)) && dark[y, x] == ModuleAt(v, bits, mask, (x, y))
    }

    method Show(v: Version, mask: nat, ghost bits: seq<bool>, ghost format: nat)
      requires Valid() && Size == QrTables.Size(v) && mask < 8 && format < 8
      requires Plain(v, bits, format)
      modifies dark, fn
      ensures Shown(v, bits, mask)
      ensures Rows() == SymbolOf(v, bits, mask)
    {
      hide MaskBit, DataBit, IsVersion, IsAlignment, IsFinder, IsTiming, FormatDark;
      Mask(mask);
      Format(v, mask);
      RowsShown(v, bits, mask);
    }

    lemma RowsShown(v: Version, bits: seq<bool>, mask: nat)
      requires Valid() && Size == QrTables.Size(v) && mask < 8
      requires Shown(v, bits, mask)
      ensures Rows() == SymbolOf(v, bits, mask)
    {
      hide ModuleAt, IsFunction;
      var a, b := Rows(), SymbolOf(v, bits, mask);
      forall y | 0 <= y < Size ensures a[y] == b[y] {
        assert forall x :: 0 <= x < Size ==> Inside(x, y) && a[y][x] == b[y][x];
      }
    }

    method Unmask(v: Version, mask: nat, ghost bits: seq<bool>)
      requires Valid() && Size == QrTables.Size(v) && mask < 8
      requires Shown(v, bits, mask)
      modifies dark
      ensures Plain(v, bits, mask)
    {
      hide MaskBit, DataBit, FunctionDark, IsFunction;
      Mask(mask);
    }
  }

  // ---------- The symbol as a value

  type Grid = seq<seq<bool>>

  /** Where c stands in s, or -1. */
  function IndexOf(s: seq<Cell>, c: Cell): (i: int)
    ensures -1 <= i < |s|
  {
    if s == [] then -1 else if s[|s| - 1] == c then |s| - 1 else IndexOf(s[..|s| - 1], c)
  }

  lemma {:induction false} IndexOfAt(s: seq<Cell>, i: nat)
    requires Distinct(s) && i < |s|
    ensures IndexOf(s, s[i]) == i
  {
    if i < |s| - 1 {
      IndexOfAt(s[..|s| - 1], i);
    }
  }

  lemma {:induction false} IndexOfMember(s: seq<Cell>, c: Cell)
    ensures IndexOf(s, c) == -1 <==> c !in s
    ensures c in s ==> s[IndexOf(s, c)] == c
  {
    if s != [] {
      IndexOfMember(s[..|s| - 1], c);
      assert s == s[..|s| - 1] + [s[|s| - 1]];
    }
  }

  /** The bit placed on a free module; those left over stay light. */
  function DataBit(v: Version, bits: seq<bool>, c: Cell): bool {
    var k := IndexOf(Free(v, Path(v)), c);
    0 <= k < |bits| && bits[k]
  }

  function ModuleAt(v: Version, bits: seq<bool>, mask: nat, c: Cell): bool
    requires mask < 8 && InSymbol(v, c)
  {
    if IsFunction(v, c) then FunctionDark(v, mask, c) else DataBit(v, bits, c) != MaskBit(mask, c)
  }

  /** The finished symbol for the placed bits and a mask. */
  function SymbolOf(v: Version, bits: seq<bool>, mask: nat): (grid: Grid)
    requires mask < 8
    ensures |grid| == Size(v)
    ensures forall y :: 0 <= y < Size(v) ==> |grid[y]| == Size(v)
    ensures forall x, y :: 0 <= x < Size(v) && 0 <= y < Size(v) ==> grid[y][x] == ModuleAt(v, bits, mask, (x, y))
  {
    seq(Size(v), y requires 0 <= y < Size(v) =>
      seq(Size(v), x requires 0 <= x < Size(v) => ModuleAt(v, bits, mask, (x, y))))
  }

  lemma FreeAppend(v: Version, done: seq<Cell>, c: Cell)
    ensures Free(v, done + [c]) == if IsFunction(v, c) then Free(v, done) else Free(v, done) + [c]
  {
    hide IsFunction;
    assert (done + [c])[..|done|] == done;
  }

  /** The module the zigzag comes to next lies in the symbol and has not been visited. */
  lemma NextOnPath(v: Version, done: seq<Cell>, c: Cell, rest: seq<Cell>)
    requires Path(v) == done + ([c] + rest)
    ensures InSymbol(v, c) && c !in done
    ensures Path(v) == (done + [c]) + rest
  {
    hide Path;
    PathVisitsAll(v);
    assert Path(v)[|done|] == c;
    assert c in Path(v);
    forall k | 0 <= k < |done| ensures done[k] != c {
      assert Path(v)[k] == done[k];
    }
  }
}
