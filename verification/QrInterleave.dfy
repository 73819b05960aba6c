/** Blocks, their error correction, and the order their codewords are placed in (ISO/IEC 18004:2015, section 7.6). */
module QrInterleave {
  import opened Arithmetic
  import opened Gf256
  import opened ReedSolomon
  import opened ReedSolomonDistance
  import opened QrTables

  /** The data codewords of every block, both groups in turn. */
  function Lengths(v: Version): (lens: seq<nat>)
    ensures |lens| == QrBlocks(v).n1 + QrBlocks(v).n2
  {
    var b := QrBlocks(v);
    seq(b.n1 + b.n2, k => if k < b.n1 then b.d1 else b.d2)
  }

  function Total(lens: seq<nat>): nat {
    if lens == [] then 0 else Total(lens[..|lens| - 1]) + lens[|lens| - 1]
  }

  function Uniform(n: nat, d: nat): (lens: seq<nat>)
    ensures |lens| == n
  {
    seq(n, _ => d)
  }

  function Empty(n: nat): (blocks: seq<seq<byte>>)
    ensures |blocks| == n
  {
    seq(n, _ => [])
  }

  /** The longest block. */
  function Width(v: Version): nat {
    if QrBlocks(v).d2 > QrBlocks(v).d1 then QrBlocks(v).d2 else QrBlocks(v).d1
  }

  /** data cut into consecutive blocks of the given lengths. */
  function Split(data: seq<byte>, lens: seq<nat>): (blocks: seq<seq<byte>>)
    requires |data| == Total(lens)
    ensures |blocks| == |lens| && forall k :: 0 <= k < |lens| ==> |blocks[k]| == lens[k]
    decreases |lens|
  {
    if lens == [] then []
    else
      var n := |lens| - 1;
      var at := |data| - lens[n];
      Split(data[..at], lens[..n]) + [data[at..]]
  }

  function Flatten(blocks: seq<seq<byte>>): seq<byte> {
    if blocks == [] then [] else Flatten(blocks[..|blocks| - 1]) + blocks[|blocks| - 1]
  }

  lemma {:induction false} FlattenSplit(data: seq<byte>, lens: seq<nat>)
    requires |data| == Total(lens)
    ensures Flatten(Split(data, lens)) == data
    decreases |lens|
  {
    if lens != [] {
      var n := |lens| - 1;
      var at := |data| - lens[n];
      FlattenSplit(data[..at], lens[..n]);
      assert Split(data, lens)[..n] == Split(data[..at], lens[..n]);
    }
  }

  // ---------- Column by column

  /**
   * What is still to be placed from column i, block k on: one codeword of every block in turn, where the block has
   * one.
   */
  function Weave(blocks: seq<seq<byte>>, i: nat, k: nat, width: nat): seq<byte>
    requires k <= |blocks|
    decreases width - i, |blocks| - k
  {
    if i >= width then []
    else if k == |blocks| then Weave(blocks, i + 1, 0, width)
    else (if i < |blocks[k]| then [blocks[k][i]] else []) + Weave(blocks, i, k + 1, width)
  }

  /** The reader's side: codewords are handed to the blocks in the same order, until every block is full. */
  function Unweave(s: seq<byte>, lens: seq<nat>, i: nat, k: nat, width: nat, acc: seq<seq<byte>>): seq<seq<byte>>
    requires k <= |lens| == |acc|
    decreases width - i, |lens| - k
  {
    if i >= width then acc
    else if k == |lens| then Unweave(s, lens, i + 1, 0, width, acc)
    else if i < lens[k] && s != [] then Unweave(s[1..], lens, i, k + 1, width, acc[k := acc[k] + [s[0]]])
    else Unweave(s, lens, i, k + 1, width, acc)
  }

  /** What has been placed of every block before column i, block k. */
  function Placed(blocks: seq<seq<byte>>, i: nat, k: nat): (taken: seq<seq<byte>>)
    requires k <= |blocks|
    ensures |taken| == |blocks|
  {
    seq(|blocks|, m requires 0 <= m < |blocks| =>
      var n := if m < k then i + 1 else i;
      if n < |blocks[m]| then blocks[m][..n] else blocks[m])
  }

  function LengthsOf(blocks: seq<seq<byte>>): (lens: seq<nat>)
    ensures |lens| == |blocks|
  {
    seq(|blocks|, m requires 0 <= m < |blocks| => |blocks[m]|)
  }

  lemma PlacedStep(blocks: seq<seq<byte>>, i: nat, k: nat)
    requires k < |blocks|
    ensures Placed(blocks, i, k + 1) ==
            if i < |blocks[k]| then Placed(blocks, i, k)[k := Placed(blocks, i, k)[k] + [blocks[k][i]]]
              else Placed(blocks, i, k)
  {
    var p, q := Placed(blocks, i, k), Placed(blocks, i, k + 1);
    if i < |blocks[k]| {
      assert blocks[k][..i] + [blocks[k][i]] == q[k];
      assert forall m :: 0 <= m < |blocks| && m != k ==> q[m] == p[m];
      assert q == p[k := p[k] + [blocks[k][i]]];
    } else {
      assert forall m :: 0 <= m < |blocks| ==> q[m] == p[m];
      assert q == p;
    }
  }

  lemma PlacedNextColumn(blocks: seq<seq<byte>>, i: nat)
    ensures Placed(blocks, i, |blocks|) == Placed(blocks, i + 1, 0)
  {}

  lemma PlacedEnds(blocks: seq<seq<byte>>, i: nat, k: nat)
    requires k <= |blocks|
    ensures (forall m :: 0 <= m < |blocks| ==> |blocks[m]| <= i) ==> Placed(blocks, i, k) == blocks
    ensures Placed(blocks, 0, 0) == Empty(|blocks|)
  {}

  lemma WeaveAt(blocks: seq<seq<byte>>, i: nat, k: nat, width: nat)
    requires k <= |blocks|
    ensures Weave(blocks, i, k, width) ==
            if i >= width then []
            else if k == |blocks| then Weave(blocks, i + 1, 0, width)
            else if i < |blocks[k]| then [blocks[k][i]] + Weave(blocks, i, k + 1, width)
            else Weave(blocks, i, k + 1, width)
  {}

  lemma UnweaveAt(b: byte, s: seq<byte>, lens: seq<nat>, i: nat, k: nat, width: nat, acc: seq<seq<byte>>)
    requires k <= |lens| == |acc|
    ensures i >= width ==> Unweave(s, lens, i, k, width, acc) == acc
    ensures i < width && k == |lens| ==> Unweave(s, lens, i, k, width, acc) == Unweave(s, lens, i + 1, 0, width, acc)
    ensures i < width && k < |lens| && i < lens[k] ==>
              Unweave([b] + s, lens, i, k, width, acc) == Unweave(s, lens, i, k + 1, width, acc[k := acc[k] + [b]])
    ensures i < width && k < |lens| && i >= lens[k] ==>
              Unweave(s, lens, i, k, width, acc) == Unweave(s, lens, i, k + 1, width, acc)
  {
    assert ([b] + s)[1..] == s;
  }

  lemma {:induction false} UnweaveWeave(blocks: seq<seq<byte>>, i: nat, k: nat, width: nat, rest: seq<byte>)
    requires k <= |blocks|
    requires forall m :: 0 <= m < |blocks| ==> |blocks[m]| <= width
    ensures Unweave(Weave(blocks, i, k, width) + rest, LengthsOf(blocks), i, k, width, Placed(blocks, i, k)) == blocks
    decreases width - i, |blocks| - k
  {
    hide Placed, LengthsOf, Weave, Unweave;
    WeaveAt(blocks, i, k, width);
    if i >= width {
      PlacedEnds(blocks, i, k);
      UnweaveAt(0, Weave(blocks, i, k, width) + rest, LengthsOf(blocks), i, k, width, Placed(blocks, i, k));
    } else if k == |blocks| {
      UnweaveWeave(blocks, i + 1, 0, width, rest);
      PlacedNextColumn(blocks, i);
      UnweaveAt(0, Weave(blocks, i, k, width) + rest, LengthsOf(blocks), i, k, width, Placed(blocks, i, k));
    } else {
      UnweaveWeave(blocks, i, k + 1, width, rest);
      UnweaveOne(blocks, i, k, width, rest);
    }
  }

  /** One codeword read is one codeword placed. */
  lemma UnweaveOne(blocks: seq<seq<byte>>, i: nat, k: nat, width: nat, rest: seq<byte>)
    requires k < |blocks| && i < width
    ensures Unweave(Weave(blocks, i, k, width) + rest, LengthsOf(blocks), i, k, width, Placed(blocks, i, k)) ==
            Unweave(Weave(blocks, i, k + 1, width) + rest, LengthsOf(blocks), i, k + 1, width, Placed(blocks, i, k + 1))
  {
    hide Placed, LengthsOf, Weave, Unweave;
    WeaveAt(blocks, i, k, width);
    LengthAt(blocks, k);
    PlacedStep(blocks, i, k);
    var next := Weave(blocks, i, k + 1, width) + rest;
    if i < |blocks[k]| {
      UnweaveAt(blocks[k][i], next, LengthsOf(blocks), i, k, width, Placed(blocks, i, k));
      assert Weave(blocks, i, k, width) + rest == [blocks[k][i]] + next;
    } else {
      UnweaveAt(0, next, LengthsOf(blocks), i, k, width, Placed(blocks, i, k));
    }
  }

  lemma LengthAt(blocks: seq<seq<byte>>, k: nat)
    requires k < |blocks|
    ensures LengthsOf(blocks)[k] == |blocks[k]|
  {}

  lemma {:induction false} TotalUpdate(lens: seq<nat>, k: nat, n: nat)
    requires k < |lens|
    ensures Total(lens[k := n]) == Total(lens) - lens[k] + n
  {
    var last := |lens| - 1;
    if k < last {
      TotalUpdate(lens[..last], k, n);
      assert lens[k := n][..last] == lens[..last][k := n];
    } else {
      assert lens[k := n][..last] == lens[..last];
    }
  }

  lemma {:induction false} WeaveLength(blocks: seq<seq<byte>>, i: nat, k: nat, width: nat)
    requires k <= |blocks|
    requires forall m :: 0 <= m < |blocks| ==> |blocks[m]| <= width
    ensures |Weave(blocks, i, k, width)| + Total(LengthsOf(Placed(blocks, i, k))) == Total(LengthsOf(blocks))
    decreases width - i, |blocks| - k
  {
    hide Placed, LengthsOf, Weave, Total;
    WeaveAt(blocks, i, k, width);
    var p := Placed(blocks, i, k);
    if i >= width {
      PlacedEnds(blocks, i, k);
    } else if k == |blocks| {
      WeaveLength(blocks, i + 1, 0, width);
      PlacedNextColumn(blocks, i);
    } else {
      WeaveLength(blocks, i, k + 1, width);
      PlacedStep(blocks, i, k);
      if i < |blocks[k]| {
        LengthsUpdate(p, k, p[k] + [blocks[k][i]]);
        TotalUpdate(LengthsOf(p), k, |p[k]| + 1);
      }
    }
  }

  lemma LengthsUpdate(blocks: seq<seq<byte>>, k: nat, b: seq<byte>)
    requires k < |blocks|
    ensures LengthsOf(blocks[k := b]) == LengthsOf(blocks)[k := |b|]
    ensures LengthsOf(blocks)[k] == |blocks[k]|
  {}

  /** The remainders of all blocks. */
  function Corrections(blocks: seq<seq<byte>>, ec: nat): (rems: seq<seq<byte>>)
    requires ec > 0
    ensures |rems| == |blocks|
  {
    seq(|blocks|, k requires 0 <= k < |blocks| => Remainder(blocks[k], Divisor(ec)))
  }

  lemma LengthsFit(v: Version)
    ensures Total(Lengths(v)) == DataCodewords(v)
    ensures forall k :: 0 <= k < |Lengths(v)| ==> Lengths(v)[k] <= Width(v)
  {
    var b := QrBlocks(v);
    hide QrBlocks;
    TotalGroups(b.n1, b.d1, b.n2, b.d2);
    assert Lengths(v) == Groups(b.n1, b.d1, b.n2, b.d2);
  }

  function Groups(n1: nat, d1: nat, n2: nat, d2: nat): (lens: seq<nat>)
    ensures |lens| == n1 + n2
  {
    seq(n1 + n2, k => if k < n1 then d1 else d2)
  }

  lemma {:induction false} TotalGroups(n1: nat, d1: nat, n2: nat, d2: nat)
    ensures Total(Groups(n1, d1, n2, d2)) == n1 * d1 + n2 * d2
    decreases n1 + n2
  {
    if n2 > 0 {
      TotalGroups(n1, d1, n2 - 1, d2);
      assert Groups(n1, d1, n2, d2)[..n1 + n2 - 1] == Groups(n1, d1, n2 - 1, d2);
      assert n2 * d2 == (n2 - 1) * d2 + d2;
    } else if n1 > 0 {
      TotalGroups(n1 - 1, d1, 0, d2);
      assert Groups(n1, d1, 0, d2)[..n1 - 1] == Groups(n1 - 1, d1, 0, d2);
      assert n1 * d1 == (n1 - 1) * d1 + d1;
    }
  }

  function Interleaved(v: Version, data: seq<byte>): (all: seq<byte>)
    requires |data| == DataCodewords(v)
  {
    BlocksFillSymbol(v);
    LengthsFit(v);
    var blocks := Split(data, Lengths(v));
    Weave(blocks, 0, 0, Width(v)) + Weave(Corrections(blocks, QrBlocks(v).ec), 0, 0, QrBlocks(v).ec)
  }

  // ---------- The encoder's loops

  /** One codeword of every block in turn, where the block has one. */
  method WeaveBlocks(blocks: seq<seq<byte>>, width: nat) returns (out: seq<byte>)
    ensures out == Weave(blocks, 0, 0, width)
  {
    hide Weave;
    out := [];
    var i := 0;
    while i < width
      invariant 0 <= i <= width
      invariant out + Weave(blocks, i, 0, width) == Weave(blocks, 0, 0, width)
    {
      var k := 0;
      while k < |blocks|
        invariant 0 <= k <= |blocks|
        invariant out + Weave(blocks, i, k, width) == Weave(blocks, 0, 0, width)
      {
        WeaveAt(blocks, i, k, width);
        if i < |blocks[k]| {
          OnePlaced(out, blocks[k][i], Weave(blocks, i, k + 1, width));
          out := out + [blocks[k][i]];
        }
        k := k + 1;
      }
      WeaveAt(blocks, i, k, width);
      i := i + 1;
    }
    WeaveAt(blocks, i, 0, width);
  }

  lemma OnePlaced(out: seq<byte>, b: byte, rest: seq<byte>)
    ensures out + ([b] + rest) == out + [b] + rest
  {}

  method CorrectBlocks(blocks: seq<seq<byte>>, ec: nat) returns (rems: seq<seq<byte>>)
    requires ec > 0
    ensures rems == Corrections(blocks, ec)
  {
    hide Divisor, Remainder;
    var divisor := QrDivisor(ec);
    rems := [];
    var k := 0;
    while k < |blocks|
      invariant 0 <= k <= |blocks|
      invariant fresh(divisor) && divisor[..] == Divisor(ec)
      invariant rems == Corrections(blocks, ec)[..k]
    {
      var r := QrRemainder(blocks[k], divisor);
      rems := rems + [r[..]];
      k := k + 1;
    }
  }

  method QrInterleave(v: Version, data: seq<byte>) returns (out: seq<byte>)
    requires |data| == DataCodewords(v)
    ensures out == Interleaved(v, data)
  {
    BlocksFillSymbol(v);
    LengthsFit(v);
    var b := QrBlocks(v);
    hide QrBlocks, Corrections, Weave, Split;
    var blocks := SplitBlocks(v, data);
    out := WeaveBlocks(blocks, if b.d2 > b.d1 then b.d2 else b.d1);
    var rems := CorrectBlocks(blocks, b.ec);
    var corrections := WeaveBlocks(rems, b.ec);
    out := out + corrections;
  }

  /** The next n blocks, of d codewords each. */
  method SplitGroup(data: seq<byte>, ghost lens: seq<nat>, before: seq<seq<byte>>, from: nat, n: nat, d: nat)
    returns (blocks: seq<seq<byte>>, at: nat)
    requires |before| + n <= |lens| && Total(lens) == |data|
    requires forall k :: |before| <= k < |before| + n ==> lens[k] == d
    requires from == Total(lens[..|before|]) <= |data| && before == Split(data[..from], lens[..|before|])
    ensures |blocks| == |before| + n && at == Total(lens[..|blocks|]) <= |data|
    ensures blocks == Split(data[..at], lens[..|blocks|])
  {
    hide Total, Split;
    blocks, at := before, from;
    for i := 0 to n
      invariant |blocks| == |before| + i && at == Total(lens[..|blocks|]) <= |data|
      invariant blocks == Split(data[..at], lens[..|blocks|])
    {
      TotalPrefix(lens, |blocks| + 1);
      TotalNext(lens, |blocks|);
      SplitAppend(data, lens, |blocks|, at);
      blocks := blocks + [data[at..at + d]];
      at := at + d;
    }
  }

  lemma TotalNext(lens: seq<nat>, k: nat)
    requires k < |lens|
    ensures Total(lens[..k + 1]) == Total(lens[..k]) + lens[k]
  {
    assert lens[..k + 1][..k] == lens[..k];
  }

  /** The data cut into blocks, group by group. */
  method SplitBlocks(v: Version, data: seq<byte>) returns (blocks: seq<seq<byte>>)
    requires |data| == DataCodewords(v) == Total(Lengths(v))
    ensures blocks == Split(data, Lengths(v))
  {
    var b := QrBlocks(v);
    ghost var lens := Lengths(v);
    LengthsByGroup(v);
    hide QrBlocks, DataCodewords, Lengths;
    NothingSplit(data, lens);
    var at: nat;
    blocks, at := SplitGroup(data, lens, [], 0, b.n1, b.d1);
    blocks, at := SplitGroup(data, lens, blocks, at, b.n2, b.d2);
    assert lens[..|blocks|] == lens && data[..at] == data;
  }

  lemma LengthsByGroup(v: Version)
    ensures var b := QrBlocks(v);
            forall k :: 0 <= k < |Lengths(v)| ==> Lengths(v)[k] == if k < b.n1 then b.d1 else b.d2
  {
    hide QrBlocks;
  }

  lemma NothingSplit(data: seq<byte>, lens: seq<nat>)
    ensures Total(lens[..0]) == 0 && Split(data[..0], lens[..0]) == []
  {}

  lemma SplitAppend(data: seq<byte>, lens: seq<nat>, k: nat, at: nat)
    requires k < |lens| && at == Total(lens[..k])
    requires at + lens[k] <= |data|
    ensures Total(lens[..k + 1]) == at + lens[k]
    ensures Split(data[..at + lens[k]], lens[..k + 1]) == Split(data[..at], lens[..k]) + [data[at..at + lens[k]]]
  {
    assert lens[..k + 1][..k] == lens[..k];
    assert data[..at + lens[k]][..at] == data[..at];
  }

  lemma {:induction false} TotalPrefix(lens: seq<nat>, k: nat)
    requires k <= |lens|
    ensures Total(lens[..k]) <= Total(lens)
    decreases |lens|
  {
    if k == |lens| {
      assert lens[..k] == lens;
    } else {
      var n := |lens| - 1;
      TotalPrefix(lens[..n], k);
      assert lens[..n][..k] == lens[..k];
    }
  }

  // ---------- The reader

  /** The blocks of data and of error correction, read back from their placed order. */
  function Deinterleave(v: Version, all: seq<byte>): (r: (seq<seq<byte>>, seq<seq<byte>>))
    requires |all| == TotalCodewords(v)
  {
    var b := QrBlocks(v);
    var n := b.n1 + b.n2;
    var lens := Lengths(v);
    (Unweave(all, lens, 0, 0, Width(v), Empty(n)),
     Unweave(all[DataCodewords(v)..], Uniform(n, b.ec), 0, 0, b.ec, Empty(n)))
  }

  /** Every block is a Reed-Solomon codeword with its correction. */
  ghost predicate Consistent(blocks: seq<seq<byte>>, rems: seq<seq<byte>>, ec: nat) {
    |blocks| == |rems| &&
    forall k :: 0 <= k < |blocks| ==> |rems[k]| == ec && HasRoots(blocks[k] + rems[k], ec)
  }

  lemma {:induction false} TotalUniform(n: nat, d: nat)
    ensures Total(Uniform(n, d)) == n * d
  {
    if n > 0 {
      TotalUniform(n - 1, d);
      assert Uniform(n, d)[..n - 1] == Uniform(n - 1, d);
      assert n * d == (n - 1) * d + d;
    }
  }

  /** Weaving uses every codeword once. */
  lemma WeaveAll(blocks: seq<seq<byte>>, width: nat)
    requires forall m :: 0 <= m < |blocks| ==> |blocks[m]| <= width
    ensures |Weave(blocks, 0, 0, width)| == Total(LengthsOf(blocks))
  {
    WeaveLength(blocks, 0, 0, width);
    PlacedEnds(blocks, 0, 0);
    hide Placed;
    assert LengthsOf(Empty(|blocks|)) == Uniform(|blocks|, 0);
    TotalUniform(|blocks|, 0);
  }

  /** Reading back what was woven, from the front of what was placed. */
  lemma UnweaveAll(blocks: seq<seq<byte>>, width: nat, rest: seq<byte>)
    requires forall m :: 0 <= m < |blocks| ==> |blocks[m]| <= width
    ensures Unweave(Weave(blocks, 0, 0, width) + rest, LengthsOf(blocks), 0, 0, width, Empty(|blocks|)) == blocks
  {
    PlacedEnds(blocks, 0, 0);
    UnweaveWeave(blocks, 0, 0, width, rest);
  }

  lemma CorrectionsConsistent(blocks: seq<seq<byte>>, ec: nat)
    requires ec > 0
    ensures Consistent(blocks, Corrections(blocks, ec), ec)
    ensures LengthsOf(Corrections(blocks, ec)) == Uniform(|blocks|, ec)
  {
    hide Divisor, Remainder, HasRoots;
    forall k | 0 <= k < |blocks| ensures HasRoots(blocks[k] + Corrections(blocks, ec)[k], ec) {
      CodewordHasRoots(blocks[k], ec);
    }
  }

  /** The parts the placed codewords are made of: data blocks, corrections, and both woven. */
  lemma InterleavedParts(v: Version, data: seq<byte>) returns (blocks: seq<seq<byte>>, rems: seq<seq<byte>>)
    requires |data| == DataCodewords(v)
    ensures Interleaved(v, data) == Weave(blocks, 0, 0, Width(v)) + Weave(rems, 0, 0, QrBlocks(v).ec)
    ensures Flatten(blocks) == data && LengthsOf(blocks) == Lengths(v)
    ensures forall k :: 0 <= k < |blocks| ==> |blocks[k]| <= Width(v)
    ensures Consistent(blocks, rems, QrBlocks(v).ec)
    ensures LengthsOf(rems) == Uniform(|blocks|, QrBlocks(v).ec)
  {
    hide QrBlocks, DataCodewords, Weave, Consistent, Flatten, Corrections, Total;
    BlocksFillSymbol(v);
    LengthsFit(v);
    blocks := Split(data, Lengths(v));
    FlattenSplit(data, Lengths(v));
    rems := Corrections(blocks, QrBlocks(v).ec);
    CorrectionsConsistent(blocks, QrBlocks(v).ec);
  }

  lemma WovenSizes(v: Version, blocks: seq<seq<byte>>, rems: seq<seq<byte>>)
    requires LengthsOf(blocks) == Lengths(v) && LengthsOf(rems) == Uniform(|blocks|, QrBlocks(v).ec)
    requires forall k :: 0 <= k < |blocks| ==> |blocks[k]| <= Width(v)
    ensures |blocks| == |rems| == QrBlocks(v).n1 + QrBlocks(v).n2
    ensures |Weave(blocks, 0, 0, Width(v))| == DataCodewords(v)
    ensures |Weave(rems, 0, 0, QrBlocks(v).ec)| == |blocks| * QrBlocks(v).ec
    ensures forall k :: 0 <= k < |rems| ==> |rems[k]| == QrBlocks(v).ec
  {
    LengthsFit(v);
    hide QrBlocks, DataCodewords, Weave, Total, Lengths;
    var ec := QrBlocks(v).ec;
    forall k | 0 <= k < |rems| ensures |rems[k]| == ec {
      LengthAt(rems, k);
      assert Uniform(|blocks|, ec)[k] == ec;
    }
    hide LengthsOf, Uniform;
    WeaveAll(blocks, Width(v));
    WeaveAll(rems, ec);
    TotalUniform(|blocks|, ec);
  }

  /** Reading the placed codewords gives back the data, and blocks a decoder finds no error in. */
  lemma DeinterleaveInverse(v: Version, data: seq<byte>)
    requires |data| == DataCodewords(v)
    ensures |Interleaved(v, data)| == TotalCodewords(v)
    ensures var (blocks, rems) := Deinterleave(v, Interleaved(v, data));
            Flatten(blocks) == data && Consistent(blocks, rems, QrBlocks(v).ec)
  {
    hide QrBlocks, DataCodewords, Weave, Unweave, Flatten, Interleaved, Total, LengthsOf, Uniform, Empty, Lengths,
      Consistent;
    var blocks, rems := InterleavedParts(v, data);
    WovenSizes(v, blocks, rems);
    hide Width;
    var ec := QrBlocks(v).ec;
    var first, second := Weave(blocks, 0, 0, Width(v)), Weave(rems, 0, 0, ec);
    assert (first + second)[|first|..] == second + [];
    UnweaveAll(blocks, Width(v), second);
    UnweaveAll(rems, ec, []);
  }

  // ---------- Where each codeword is placed

  /** Column i of the blocks from block k on, where they all have one. */
  function Column(blocks: seq<seq<byte>>, i: nat, k: nat): (column: seq<byte>)
    requires k <= |blocks| && forall m :: 0 <= m < |blocks| ==> i < |blocks[m]|
    ensures |column| == |blocks| - k && forall m :: k <= m < |blocks| ==> column[m - k] == blocks[m][i]
  {
    seq(|blocks| - k, m requires 0 <= m < |blocks| - k => blocks[k + m][i])
  }

  lemma {:induction false} WeaveColumn(blocks: seq<seq<byte>>, i: nat, k: nat, width: nat)
    requires k <= |blocks| && i < width && forall m :: 0 <= m < |blocks| ==> i < |blocks[m]|
    ensures Weave(blocks, i, k, width) == Column(blocks, i, k) + Weave(blocks, i + 1, 0, width)
    decreases |blocks| - k
  {
    hide Weave;
    WeaveAt(blocks, i, k, width);
    if k < |blocks| {
      WeaveColumn(blocks, i, k + 1, width);
      assert Column(blocks, i, k) == [blocks[k][i]] + Column(blocks, i, k + 1);
    }
  }

  /** While every block has a codeword in the columns, codeword i of block k comes after i whole columns. */
  lemma {:induction false} WovenAt(blocks: seq<seq<byte>>, from: nat, i: nat, k: nat, width: nat, at: nat)
    requires from <= i < width && k < |blocks| && forall m :: 0 <= m < |blocks| ==> i < |blocks[m]|
    requires at == (i - from) * |blocks| + k
    ensures at < |Weave(blocks, from, 0, width)| && Weave(blocks, from, 0, width)[at] == blocks[k][i]
    decreases i - from
  {
    hide Weave;
    WeaveColumn(blocks, from, 0, width);
    if from < i {
      TimesSum(i - from - 1, 1, |blocks|);
      NotNegative(i - from - 1, |blocks|);
      WovenAt(blocks, from + 1, i, k, width, at - |blocks|);
    }
  }

  /** The columns every block has. */
  lemma {:induction false} WovenColumns(blocks: seq<seq<byte>>, from: nat, i: nat, width: nat, at: nat)
    requires from <= i <= width && forall m :: 0 <= m < |blocks| ==> i <= |blocks[m]|
    requires at == (i - from) * |blocks|
    ensures at <= |Weave(blocks, from, 0, width)| && Weave(blocks, from, 0, width)[at..] == Weave(blocks, i, 0, width)
    decreases i - from
  {
    hide Weave;
    if from < i {
      WeaveColumn(blocks, from, 0, width);
      TimesSum(i - from - 1, 1, |blocks|);
      NotNegative(i - from - 1, |blocks|);
      WovenColumns(blocks, from + 1, i, width, at - |blocks|);
      var rest := Weave(blocks, from + 1, 0, width);
      assert (Column(blocks, from, 0) + rest)[at..] == rest[at - |blocks|..];
    }
  }

  /** The last column, which only the blocks from n on have. */
  lemma {:induction false} LastColumnAt(blocks: seq<seq<byte>>, i: nat, k: nat, n: nat, m: nat)
    requires k <= |blocks| && n <= m < |blocks| && k <= m
    requires forall b :: 0 <= b < |blocks| ==> |blocks[b]| == if b < n then i else i + 1
    ensures var at := m - (if k < n then n else k);
            at < |Weave(blocks, i, k, i + 1)| && Weave(blocks, i, k, i + 1)[at] == blocks[m][i]
    decreases |blocks| - k
  {
    hide Weave;
    WeaveAt(blocks, i, k, i + 1);
    if k < m {
      LastColumnAt(blocks, i, k + 1, n, m);
    }
  }

  lemma {:induction false} SplitAt(data: seq<byte>, lens: seq<nat>, k: nat)
    requires |data| == Total(lens) && k < |lens|
    ensures Total(lens[..k]) + lens[k] <= |data|
    ensures Split(data, lens)[k] == data[Total(lens[..k])..Total(lens[..k]) + lens[k]]
    decreases |lens|
  {
    var n := |lens| - 1;
    var at := |data| - lens[n];
    if k < n {
      SplitAt(data[..at], lens[..n], k);
      assert lens[..n][..k] == lens[..k];
      var from, to := Total(lens[..k]), Total(lens[..k]) + lens[k];
      assert data[..at][from..to] == data[from..to];
    }
  }

  /** Where block k starts in the data: the shorter blocks come first. */
  function BlockStart(v: Version, k: nat): nat {
    var b := QrBlocks(v);
    k * b.d1 + if k > b.n1 then k - b.n1 else 0
  }

  lemma {:induction false} StartOfBlock(v: Version, k: nat)
    requires k <= |Lengths(v)|
    ensures Total(Lengths(v)[..k]) == BlockStart(v, k)
  {
    hide QrBlocks;
    BlockSizes(v);
    if k > 0 {
      StartOfBlock(v, k - 1);
      TotalNext(Lengths(v), k - 1);
      TimesSum(k - 1, 1, QrBlocks(v).d1);
    }
  }

  /** Where codeword i of block k is placed: column by column, the last column only the longer blocks'. */
  function CodewordPlace(v: Version, k: nat, i: nat): int {
    var b := QrBlocks(v);
    if i < b.d1 then i * (b.n1 + b.n2) + k else b.d1 * (b.n1 + b.n2) + k - b.n1
  }

  lemma WovenInPlace(v: Version, blocks: seq<seq<byte>>, k: nat, i: nat)
    requires LengthsOf(blocks) == Lengths(v) && k < |blocks| && i < |blocks[k]|
    ensures 0 <= CodewordPlace(v, k, i) < |Weave(blocks, 0, 0, Width(v))|
    ensures Weave(blocks, 0, 0, Width(v))[CodewordPlace(v, k, i)] == blocks[k][i]
  {
    hide QrBlocks, Weave;
    BlockSizes(v);
    var b := QrBlocks(v);
    assert |blocks| == b.n1 + b.n2;
    forall m | 0 <= m < |blocks| ensures |blocks[m]| == if m < b.n1 then b.d1 else b.d2 {
      LengthAt(blocks, m);
    }
    if i < b.d1 {
      WovenAt(blocks, 0, i, k, Width(v), CodewordPlace(v, k, i));
      NotNegative(i, |blocks|);
    } else {
      assert i == b.d1 && k >= b.n1 && Width(v) == b.d1 + 1;
      WovenColumns(blocks, 0, b.d1, Width(v), b.d1 * |blocks|);
      LastColumnAt(blocks, b.d1, 0, b.n1, k);
      NotNegative(b.d1, |blocks|);
      InRest(Weave(blocks, 0, 0, Width(v)), b.d1 * |blocks|, k - b.n1);
    }
  }

  lemma InRest(s: seq<byte>, at: nat, n: nat)
    requires at <= |s| && n < |s[at..]|
    ensures at + n < |s| && s[at..][n] == s[at + n]
  {}

  /** Every data codeword stands where the standard's table has it. */
  lemma CodewordPlaced(v: Version, data: seq<byte>, k: nat, i: nat)
    requires |data| == DataCodewords(v) && k < QrBlocks(v).n1 + QrBlocks(v).n2
    requires i < if k < QrBlocks(v).n1 then QrBlocks(v).d1 else QrBlocks(v).d2
    ensures 0 <= CodewordPlace(v, k, i) < |Interleaved(v, data)| && BlockStart(v, k) + i < |data|
    ensures Interleaved(v, data)[CodewordPlace(v, k, i)] == data[BlockStart(v, k) + i]
  {
    hide QrBlocks, Weave, Corrections, CodewordPlace, BlockStart, DataCodewords;
    BlocksFillSymbol(v);
    LengthsFit(v);
    var blocks := Split(data, Lengths(v));
    assert LengthsOf(blocks) == Lengths(v);
    WovenInPlace(v, blocks, k, i);
    SplitAt(data, Lengths(v), k);
    StartOfBlock(v, k);
  }

  /** c is the j-th correction codeword of a block. */
  predicate Corrects(v: Version, block: seq<byte>, j: nat, c: byte) {
    j < QrBlocks(v).ec && c == Remainder(block, Divisor(QrBlocks(v).ec))[j]
  }

  lemma WovenCorrection(v: Version, blocks: seq<seq<byte>>, k: nat, j: nat, at: nat)
    requires QrBlocks(v).ec > 0 && k < |blocks| && j < QrBlocks(v).ec && at == j * |blocks| + k
    ensures var woven := Weave(Corrections(blocks, QrBlocks(v).ec), 0, 0, QrBlocks(v).ec);
            at < |woven| && Corrects(v, blocks[k], j, woven[at])
  {
    hide QrBlocks, Weave, Remainder, Divisor;
    var ec := QrBlocks(v).ec;
    var rems := Corrections(blocks, ec);
    CorrectionsConsistent(blocks, ec);
    forall m | 0 <= m < |rems| ensures |rems[m]| == ec {
      LengthAt(rems, m);
      assert Uniform(|blocks|, ec)[m] == ec;
    }
    hide LengthsOf, Uniform, Consistent;
    WovenAt(rems, 0, j, k, ec, at);
  }

  lemma AfterFirst(first: seq<byte>, second: seq<byte>, at: nat)
    requires at < |second|
    ensures (first + second)[|first| + at] == second[at]
  {}

  /** After the data, every correction codeword of every block, column by column. */
  lemma CorrectionPlaced(v: Version, data: seq<byte>, k: nat, j: nat, at: nat)
    requires |data| == DataCodewords(v) && k < |Lengths(v)| && j < QrBlocks(v).ec
    requires at == j * |Lengths(v)| + k
    ensures DataCodewords(v) + at < |Interleaved(v, data)| && BlockStart(v, k) + Lengths(v)[k] <= |data|
    ensures Corrects(v, data[BlockStart(v, k)..BlockStart(v, k) + Lengths(v)[k]], j,
                     Interleaved(v, data)[DataCodewords(v) + at])
  {
    hide QrBlocks, Weave, BlockStart, DataCodewords, Lengths, Interleaved, Corrects, Corrections;
    BlocksFillSymbol(v);
    LengthsFit(v);
    var ec := QrBlocks(v).ec;
    var blocks := Split(data, Lengths(v));
    InterleavedIs(v, data);
    DataWoven(v, blocks);
    WovenCorrection(v, blocks, k, j, at);
    AfterFirst(Weave(blocks, 0, 0, Width(v)), Weave(Corrections(blocks, ec), 0, 0, ec), at);
    SplitAt(data, Lengths(v), k);
    StartOfBlock(v, k);
  }

  lemma DataWoven(v: Version, blocks: seq<seq<byte>>)
    requires LengthsOf(blocks) == Lengths(v)
    ensures |Weave(blocks, 0, 0, Width(v))| == DataCodewords(v)
  {
    LengthsFit(v);
    hide QrBlocks, DataCodewords, Weave, Total, Lengths;
    forall k | 0 <= k < |blocks| ensures |blocks[k]| <= Width(v) {
      LengthAt(blocks, k);
    }
    WeaveAll(blocks, Width(v));
  }

  lemma InterleavedIs(v: Version, data: seq<byte>)
    requires |data| == DataCodewords(v) == Total(Lengths(v)) && QrBlocks(v).ec > 0
    ensures var blocks := Split(data, Lengths(v));
            LengthsOf(blocks) == Lengths(v) &&
            Interleaved(v, data) ==
            Weave(blocks, 0, 0, Width(v)) + Weave(Corrections(blocks, QrBlocks(v).ec), 0, 0, QrBlocks(v).ec)
  {
    hide QrBlocks, Weave, Lengths, DataCodewords, Corrections;
  }
}
