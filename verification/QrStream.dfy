/**
 * The QR code's bit stream in byte mode: designator, mode, count, bytes, terminator, padding (ISO/IEC 18004:2015,
 * section 7.4).
 */
module QrStream {
  import opened Gf256
  import opened QrTables
  import opened Wrappers

  // ---------- Numbers and bytes as bits, highest first

  /** The n lowest bits of value. */
  function Bits(value: nat, n: nat): (bits: seq<bool>)
    ensures |bits| == n
  {
    if n == 0 then [] else Bits(value / 2, n - 1) + [value % 2 == 1]
  }

  function Value(bits: seq<bool>): nat {
    if bits == [] then 0 else 2 * Value(bits[..|bits| - 1]) + (if bits[|bits| - 1] then 1 else 0)
  }

  function TwoTo(n: nat): nat {
    if n == 0 then 1 else 2 * TwoTo(n - 1)
  }

  lemma {:induction false} ValueOfBits(value: nat, n: nat)
    requires value < TwoTo(n)
    ensures Value(Bits(value, n)) == value
  {
    if n > 0 {
      ValueOfBits(value / 2, n - 1);
      assert Bits(value, n)[..n - 1] == Bits(value / 2, n - 1);
    }
  }

  /** value >> i. */
  function ShiftRight(value: nat, i: nat): nat {
    if i == 0 then value else ShiftRight(value / 2, i - 1)
  }

  lemma {:induction false} BitsAt(value: nat, n: nat, i: nat)
    requires i < n
    ensures Bits(value, n)[n - 1 - i] == (ShiftRight(value, i) % 2 == 1)
  {
    if i > 0 {
      BitsAt(value / 2, n - 1, i - 1);
    }
  }

  function ByteBits(b: byte): (bits: seq<bool>)
    ensures |bits| == 8
  {
    seq(8, k requires 0 <= k < 8 => BitAt(b, 7 - k) == 1)
  }

  function SetBit(b: byte, i: nat): byte
    requires i < 8
  {
    b | (1 << i)
  }

  /** The byte whose first j bits are those of bits and whose others are 0. */
  function Pack(bits: seq<bool>, j: nat): byte
    requires |bits| == 8 && j <= 8
  {
    if j == 0 then 0 else if bits[j - 1] then SetBit(Pack(bits, j - 1), 8 - j) else Pack(bits, j - 1)
  }

  lemma BitOfSetBit(b: byte, i: nat, k: nat)
    requires i < 8 && k < 8
    ensures BitAt(SetBit(b, i), k) == if k == i then 1 else BitAt(b, k)
  {
    if k == i {} else if k < i {} else {}
  }

  lemma ByteFromBits(a: byte, b: byte)
    requires forall k :: 0 <= k < 8 ==> BitAt(a, k) == BitAt(b, k)
    ensures a == b
  {
    assert BitAt(a, 0) == BitAt(b, 0) && BitAt(a, 1) == BitAt(b, 1) && BitAt(a, 2) == BitAt(b, 2);
    assert BitAt(a, 3) == BitAt(b, 3) && BitAt(a, 4) == BitAt(b, 4) && BitAt(a, 5) == BitAt(b, 5);
    assert BitAt(a, 6) == BitAt(b, 6) && BitAt(a, 7) == BitAt(b, 7);
  }

  function NumberOf(b: byte): nat {
    b as nat
  }

  /** The bits of a byte are those of its number. */
  lemma BitsOfByte(b: byte)
    ensures Bits(b as nat, 8) == ByteBits(b)
  {
    assert NumberOf(b) == b as nat;
    BitsOfNumber(b);
  }

  lemma BitsOfNumber(b: byte)
    ensures Bits(NumberOf(b), 8) == ByteBits(b)
  {
    hide BitAt, NumberOf;
    var bits := Bits(NumberOf(b), 8);
    forall k | 0 <= k < 8 ensures bits[k] == ByteBits(b)[k] {
      BitOfNumber(b, 8, 7 - k);
    }
  }

  lemma {:induction false} BitOfNumber(b: byte, n: nat, i: nat)
    requires i < n <= 8
    ensures Bits(NumberOf(b), n)[n - 1 - i] == (BitAt(b, i) == 1)
    decreases n
  {
    hide BitAt, NumberOf;
    if i == 0 {
      LowBit(b);
    } else {
      Halved(b);
      BitOfNumber(b >> 1, n - 1, i - 1);
      BitOfHalf(b, i);
    }
  }

  lemma LowBit(b: byte)
    ensures (NumberOf(b) % 2 == 1) == (BitAt(b, 0) == 1)
  {}

  lemma Halved(b: byte)
    ensures NumberOf(b) / 2 == NumberOf(b >> 1)
  {}

  lemma BitOfHalf(b: byte, i: nat)
    requires 0 < i < 8
    ensures BitAt(b >> 1, i - 1) == BitAt(b, i)
  {
    if i == 1 {} else if i == 2 {} else if i == 3 {} else if i == 4 {} else if i == 5 {} else if i == 6 {} else {}
  }

  // ---------- Codewords as bits

  function Unpack(codewords: seq<byte>): (bits: seq<bool>)
    ensures |bits| == 8 * |codewords|
  {
    if codewords == [] then []
    else Unpack(codewords[..|codewords| - 1]) + ByteBits(codewords[|codewords| - 1])
  }

  function PackAll(bits: seq<bool>): (codewords: seq<byte>)
    requires |bits| % 8 == 0
    ensures 8 * |codewords| == |bits|
  {
    if bits == [] then [] else PackAll(bits[..|bits| - 8]) + [Pack(bits[|bits| - 8..], 8)]
  }

  lemma {:induction false} BitOfPack(bits: seq<bool>, j: nat, k: nat)
    requires |bits| == 8 && j <= 8 && k < 8
    ensures BitAt(Pack(bits, j), 7 - k) == if k < j && bits[k] then 1 else 0
  {
    hide BitAt, SetBit;
    if j == 0 {
      BitOfZero(7 - k);
    } else {
      BitOfPack(bits, j - 1, k);
      BitOfSetBit(Pack(bits, j - 1), 8 - j, 7 - k);
    }
  }

  lemma BitOfZero(i: nat)
    requires i < 8
    ensures BitAt(0, i) == 0
  {}

  lemma PackInverse(bits: seq<bool>, b: byte)
    requires |bits| == 8
    ensures ByteBits(Pack(bits, 8)) == bits
    ensures Pack(ByteBits(b), 8) == b
  {
    hide BitAt, Pack;
    forall k | 0 <= k < 8 ensures ByteBits(Pack(bits, 8))[k] == bits[k] {
      BitOfPack(bits, 8, k);
    }
    forall k | 0 <= k < 8 ensures BitAt(Pack(ByteBits(b), 8), k) == BitAt(b, k) {
      BitOfPack(ByteBits(b), 8, 7 - k);
    }
    ByteFromBits(Pack(ByteBits(b), 8), b);
  }

  lemma {:induction false} UnpackPacked(bits: seq<bool>)
    requires |bits| % 8 == 0
    ensures Unpack(PackAll(bits)) == bits
  {
    hide ByteBits, Pack;
    if bits != [] {
      var n := |bits| - 8;
      UnpackPacked(bits[..n]);
      PackInverse(bits[n..], 0);
      var p := PackAll(bits);
      assert p[..|p| - 1] == PackAll(bits[..n]);
      assert bits == bits[..n] + bits[n..];
    }
  }

  lemma PackAppend(bits: seq<bool>, eight: seq<bool>)
    requires |bits| % 8 == 0 && |eight| == 8
    ensures PackAll(bits + eight) == PackAll(bits) + [Pack(eight, 8)]
  {
    hide Pack;
    var all := bits + eight;
    assert all[..|all| - 8] == bits && all[|all| - 8..] == eight;
  }

  lemma {:induction false} PackUnpacked(codewords: seq<byte>)
    ensures PackAll(Unpack(codewords)) == codewords
  {
    hide ByteBits, Pack, PackAll;
    if codewords == [] {
      assert |PackAll(Unpack([]))| == 0;
    } else {
      var n := |codewords| - 1;
      PackUnpacked(codewords[..n]);
      PackInverse(ByteBits(codewords[n]), codewords[n]);
      PackAppend(Unpack(codewords[..n]), ByteBits(codewords[n]));
    }
  }

  lemma {:induction false} UnpackConcat(a: seq<byte>, b: seq<byte>)
    ensures Unpack(a + b) == Unpack(a) + Unpack(b)
  {
    hide ByteBits;
    if b == [] {
      assert a + b == a;
    } else {
      UnpackConcat(a, b[..|b| - 1]);
      assert (a + b)[..|a + b| - 1] == a + b[..|b| - 1];
    }
  }

  lemma {:induction false} UnpackAt(codewords: seq<byte>, i: nat)
    requires i < 8 * |codewords|
    ensures Unpack(codewords)[i] == (BitAt(codewords[i / 8], 7 - i % 8) == 1)
  {
    hide BitAt;
    var n := |codewords| - 1;
    if i < 8 * n {
      UnpackAt(codewords[..n], i);
    }
  }

  // ---------- The stream

  function Light(n: nat): (bits: seq<bool>)
    ensures |bits| == n
  {
    seq(n, _ => false)
  }

  /** Designator, mode, count and bytes. */
  function Header(count: nat, data: seq<byte>, eci: nat): seq<bool> {
    (if eci > 0 then Bits(7, 4) + Bits(eci, 8) else []) + Bits(4, 4) + Bits(|data|, count) + Unpack(data)
  }

  function HeaderLength(count: nat, length: nat, eci: nat): nat {
    4 + count + 8 * length + (if eci > 0 then 12 else 0)
  }

  function Terminator(at: nat, capacity: nat): nat
    requires at <= capacity
  {
    if capacity - at < 4 then capacity - at else 4
  }

  function ToByte(at: nat): nat {
    (8 - at % 8) % 8
  }

  lemma UpToByte(at: nat, capacity: nat)
    requires at <= capacity && capacity % 8 == 0
    ensures (at + ToByte(at)) % 8 == 0 && at + ToByte(at) <= capacity
    ensures (capacity - (at + ToByte(at))) % 8 == 0
  {
    var q, r, c := at / 8, at % 8, capacity / 8;
    if r == 0 {
      assert ToByte(at) == 0;
      assert capacity - at == 8 * (c - q);
    } else {
      assert ToByte(at) == 8 - r;
      assert at + ToByte(at) == 8 * (q + 1) && capacity == 8 * c;
      assert q < c && capacity - (at + ToByte(at)) == 8 * (c - q - 1);
    }
  }

  /** The header, its terminator, and light bits to the end of a byte. */
  function Terminated(header: seq<bool>, capacity: nat): (bits: seq<bool>)
    requires |header| <= capacity && capacity % 8 == 0
    ensures |bits| % 8 == 0 && |bits| <= capacity && header <= bits
  {
    var t := Terminator(|header|, capacity);
    UpToByte(|header| + t, capacity);
    hide ToByte;
    header + Light(t) + Light(ToByte(|header| + t))
  }

  /** The pad codewords, the two in turn. */
  function Padding(n: nat): (pads: seq<byte>)
    ensures |pads| == n
  {
    seq(n, k => if k % 2 == 0 then 0xEC else 0x11)
  }

  function Stream(v: Version, count: nat, data: seq<byte>, eci: nat): (codewords: seq<byte>)
    requires HeaderLength(count, |data|, eci) <= 8 * DataCodewords(v)
    ensures |codewords| == DataCodewords(v)
  {
    var bits := Terminated(Header(count, data, eci), 8 * DataCodewords(v));
    PackAll(bits) + Padding(DataCodewords(v) - |bits| / 8)
  }

  /** Appends the n lowest bits of value, highest first. */
  method Put(bits: seq<bool>, value: nat, n: nat) returns (r: seq<bool>)
    ensures r == bits + Bits(value, n)
  {
    r := bits;
    var i := n;
    while i > 0
      invariant 0 <= i <= n
      invariant r == bits + Bits(value, n)[..n - i]
    {
      i := i - 1;
      BitsAt(value, n, i);
      r := r + [ShiftRight(value, i) % 2 == 1];
    }
  }

  lemma {:induction false} BitsOfZero(n: nat)
    ensures Bits(0, n) == Light(n)
  {
    if n > 0 {
      BitsOfZero(n - 1);
    }
  }

  method PutHeader(count: nat, data: seq<byte>, eci: nat) returns (bits: seq<bool>)
    ensures bits == Header(count, data, eci)
  {
    hide ByteBits, BitAt, Bits;
    bits := [];
    if eci > 0 {
      bits := Put(bits, 7, 4);
      bits := Put(bits, eci, 8);
    }
    bits := Put(bits, 4, 4);
    bits := Put(bits, |data|, count);
    ghost var start := bits;
    var t := 0;
    while t < |data|
      invariant 0 <= t <= |data|
      invariant bits == start + Unpack(data[..t])
    {
      bits := Put(bits, data[t] as nat, 8);
      BitsOfByte(data[t]);
      assert data[..t + 1][..t] == data[..t];
      t := t + 1;
    }
    assert data[..|data|] == data;
  }

  lemma NothingPacked(bits: seq<bool>)
    ensures PackAll(bits[..0]) == []
  {}

  lemma PackNone(eight: seq<bool>)
    requires |eight| == 8
    ensures Pack(eight, 0) == 0
  {}

  lemma PackOne(eight: seq<bool>, j: nat)
    requires |eight| == 8 && j < 8
    ensures Pack(eight, j + 1) == if eight[j] then SetBit(Pack(eight, j), 7 - j) else Pack(eight, j)
  {
    hide SetBit;
  }

  /** Eight bits to a codeword, each bit or-ed into its place. */
  method PackBits(bits: seq<bool>) returns (out: seq<byte>)
    requires |bits| % 8 == 0
    ensures out == PackAll(bits)
  {
    hide SetBit, Pack, PackAll;
    NothingPacked(bits);
    out := [];
    var i := 0;
    while i < |bits|
      invariant 0 <= i <= |bits| && i % 8 == 0
      invariant out == PackAll(bits[..i])
    {
      var b: byte := 0;
      var j := 0;
      ghost var eight := bits[i..i + 8];
      PackNone(eight);
      while j < 8
        invariant 0 <= j <= 8
        invariant b == Pack(eight, j)
      {
        PackOne(eight, j);
        if bits[i + j] {
          b := SetBit(b, 7 - j);
        }
        j := j + 1;
      }
      out := out + [b];
      PackAppend(bits[..i], eight);
      assert bits[..i + 8] == bits[..i] + eight;
      i := i + 8;
    }
    assert bits[..|bits|] == bits;
  }

  /** The terminator and the light bits to the end of a byte. */
  method PutEnd(header: seq<bool>, capacity: nat) returns (bits: seq<bool>)
    requires |header| <= capacity && capacity % 8 == 0
    ensures bits == Terminated(header, capacity)
  {
    hide Bits, ToByte;
    BitsOfZero(Terminator(|header|, capacity));
    bits := Put(header, 0, Terminator(|header|, capacity));
    BitsOfZero(ToByte(|bits|));
    bits := Put(bits, 0, ToByte(|bits|));
  }

  /** The data codewords: mode, count, bytes, terminator, padding. */
  method QrStream(v: Version, count: nat, data: seq<byte>, eci: nat) returns (out: seq<byte>)
    requires HeaderLength(count, |data|, eci) <= 8 * DataCodewords(v)
    ensures out == Stream(v, count, data, eci)
  {
    hide Bits, Unpack, PackAll, DataCodewords, ToByte, Header, HeaderLength, Terminated;
    HeaderSize(count, data, eci);
    var bits := PutHeader(count, data, eci);
    var capacity := 8 * DataCodewords(v);
    bits := PutEnd(bits, capacity);
    out := PackBits(bits);
    ghost var packed := out;
    var pad: byte := 0xEC;
    while |out| < capacity / 8
      invariant |packed| <= |out| <= capacity / 8
      invariant out == packed + Padding(|out| - |packed|)
      invariant pad == if (|out| - |packed|) % 2 == 0 then 0xEC else 0x11
    {
      out := out + [pad];
      NextPad();
      pad := pad ^ (0xEC ^ 0x11);
    }
  }

  lemma NextPad()
    ensures (0xEC as byte) ^ (0xEC ^ 0x11) == 0x11 && (0x11 as byte) ^ (0xEC ^ 0x11) == 0xEC
  {}

  // ---------- The reader

  datatype Message = Message(eci: nat, data: seq<byte>)

  /** What a reader must find after the data: light bits for the terminator and up to a byte, then the pads. */
  predicate TailIsStandard(bits: seq<bool>, at: nat)
    requires at <= |bits|
  {
    |bits| % 8 == 0 &&
    var t := Terminator(at, |bits|);
    var end := at + t + ToByte(at + t);
    UpToByte(at + t, |bits|);
    hide ToByte;
    bits[at..end] == Light(end - at) &&
    PackAll(bits[end..]) == Padding((|bits| - end) / 8)
  }

  function ParseBytes(count: nat, bits: seq<bool>, at: nat, eci: nat): Option<Message> {
    hide Value, PackAll, TailIsStandard;
    var from := at + 4 + count;
    if from > |bits| || Value(bits[at..at + 4]) != 4 then None
    else
      var to := from + 8 * Value(bits[at + 4..from]);
      if to > |bits| || !TailIsStandard(bits, to) then None
      else Some(Message(eci, PackAll(bits[from..to])))
  }

  /** Reads a byte-mode message, with or without a one-byte designator, from the data codewords. */
  function Parse(count: nat, codewords: seq<byte>): Option<Message> {
    var bits := Unpack(codewords);
    if |bits| >= 12 && Value(bits[..4]) == 7 then
      ParseBytes(count, bits, 12, Value(bits[4..12]))
    else
      ParseBytes(count, bits, 0, 0)
  }

  lemma SmallNumbers()
    ensures Value(Bits(7, 4)) == 7 && Value(Bits(4, 4)) == 4 && TwoTo(8) == 256
  {
    ValueOfBits(7, 4);
    ValueOfBits(4, 4);
  }

  lemma HeaderParsed(count: nat, data: seq<byte>, eci: nat, bits: seq<bool>, at: nat)
    requires |data| < TwoTo(count)
    requires at == (if eci > 0 then 12 else 0)
    requires Header(count, data, eci) <= bits && HeaderLength(count, |data|, eci) <= |bits|
    requires TailIsStandard(bits, HeaderLength(count, |data|, eci))
    ensures ParseBytes(count, bits, at, eci) == Some(Message(eci, data))
  {
    hide Bits, Value, Unpack, PackAll, TailIsStandard, Header;
    HeaderParts(count, data, eci, at);
    var h := Header(count, data, eci);
    SmallNumbers();
    ValueOfBits(|data|, count);
    var from := at + 4 + count;
    assert bits[at..at + 4] == h[at..at + 4];
    assert bits[at + 4..from] == h[at + 4..from];
    assert bits[from..from + 8 * |data|] == h[from..];
    PackUnpacked(data);
  }

  lemma HeaderParts(count: nat, data: seq<byte>, eci: nat, at: nat)
    requires at == (if eci > 0 then 12 else 0)
    ensures var h := Header(count, data, eci);
            |h| == at + 4 + count + 8 * |data| && h[at..at + 4] == Bits(4, 4) &&
            h[at + 4..at + 4 + count] == Bits(|data|, count) && h[at + 4 + count..] == Unpack(data)
  {
    hide Bits, Unpack;
    var front := if eci > 0 then Bits(7, 4) + Bits(eci, 8) else [];
    assert |front| == at;
    PartsOf(front, Bits(4, 4), Bits(|data|, count), Unpack(data));
  }

  lemma PartsOf(a: seq<bool>, b: seq<bool>, c: seq<bool>, d: seq<bool>)
    ensures var h := a + b + c + d;
            h[|a|..|a| + |b|] == b && h[|a| + |b|..|a| + |b| + |c|] == c && h[|a| + |b| + |c|..] == d
  {}

  lemma Eighths(n: nat)
    requires n % 8 == 0
    ensures 8 * (n / 8) == n
  {}

  /** A terminated header with its pads, as a reader finds them. */
  lemma TailOf(header: seq<bool>, capacity: nat)
    requires |header| <= capacity && capacity % 8 == 0
    ensures var body := Terminated(header, capacity);
            var bits := body + Unpack(Padding((capacity - |body|) / 8));
            header <= bits && |bits| == capacity && TailIsStandard(bits, |header|)
  {
    hide Unpack, PackAll, ToByte, Padding;
    var body := Terminated(header, capacity);
    var t := Terminator(|header|, capacity);
    UpToByte(|header| + t, capacity);
    assert |body| == |header| + t + ToByte(|header| + t);
    Eighths(capacity - |body|);
    var pads := Padding((capacity - |body|) / 8);
    PackUnpacked(pads);
    var bits := body + Unpack(pads);
    assert |bits| == capacity && bits[|body|..] == Unpack(pads);
    assert bits[|header|..|body|] == body[|header|..] == Light(|body| - |header|);
  }

  lemma StreamBits(v: Version, count: nat, data: seq<byte>, eci: nat)
    requires HeaderLength(count, |data|, eci) <= 8 * DataCodewords(v)
    ensures var bits := Unpack(Stream(v, count, data, eci));
            Header(count, data, eci) <= bits && |bits| == 8 * DataCodewords(v) &&
            TailIsStandard(bits, HeaderLength(count, |data|, eci))
  {
    hide Bits, Value, Unpack, PackAll, DataCodewords, Header, TailIsStandard, Terminated;
    HeaderParts(count, data, eci, if eci > 0 then 12 else 0);
    var h, capacity := Header(count, data, eci), 8 * DataCodewords(v);
    var body := Terminated(h, capacity);
    TailOf(h, capacity);
    UnpackConcat(PackAll(body), Padding(DataCodewords(v) - |body| / 8));
    UnpackPacked(body);
    assert (capacity - |body|) / 8 == DataCodewords(v) - |body| / 8;
  }

  lemma HeaderStart(count: nat, data: seq<byte>, eci: nat)
    requires count >= 8
    ensures var h := Header(count, data, eci);
            |h| >= 12 && if eci > 0 then h[..4] == Bits(7, 4) && h[4..12] == Bits(eci, 8) else h[..4] == Bits(4, 4)
  {
    hide Bits, Unpack;
  }

  /** Bits that start with a header and end as the standard says parse to what the header says. */
  lemma BitsParsed(count: nat, data: seq<byte>, eci: nat, codewords: seq<byte>)
    requires |data| < TwoTo(count) && eci <= 127 && count >= 8
    requires Header(count, data, eci) <= Unpack(codewords) && HeaderLength(count, |data|, eci) <= |Unpack(codewords)|
    requires TailIsStandard(Unpack(codewords), HeaderLength(count, |data|, eci))
    ensures Parse(count, codewords) == Some(Message(eci, data))
  {
    hide Bits, Value, Unpack, PackAll, TailIsStandard, ParseBytes, Header, HeaderLength;
    var h, bits := Header(count, data, eci), Unpack(codewords);
    HeaderStart(count, data, eci);
    SmallNumbers();
    assert bits[..4] == h[..4];
    if eci > 0 {
      ValueOfBits(eci, 8);
      assert bits[4..12] == h[4..12];
      HeaderParsed(count, data, eci, bits, 12);
    } else {
      HeaderParsed(count, data, eci, bits, 0);
    }
  }

  /** Reading the stream gives back the designator and the data. */
  lemma StreamParsed(v: Version, count: nat, data: seq<byte>, eci: nat)
    requires HeaderLength(count, |data|, eci) <= 8 * DataCodewords(v)
    requires |data| < TwoTo(count) && eci <= 127 && count >= 8
    ensures Parse(count, Stream(v, count, data, eci)) == Some(Message(eci, data))
  {
    hide Unpack, DataCodewords, TailIsStandard, Header, HeaderLength, Stream, Parse;
    StreamBits(v, count, data, eci);
    BitsParsed(count, data, eci, Stream(v, count, data, eci));
  }

  // ---------- How the stream ends

  /** Where the pads begin: the first whole byte after the data and up to four terminator bits. */
  function PadsFrom(used: nat, codewords: nat): nat {
    if used + 4 < 8 * codewords then (used + 11) / 8 else codewords
  }

  lemma TerminatedLength(used: nat, codewords: nat)
    requires used <= 8 * codewords
    ensures var t := Terminator(used, 8 * codewords); used + t + ToByte(used + t) == 8 * PadsFrom(used, codewords)
  {
    var t := Terminator(used, 8 * codewords);
    UpToByte(used + t, 8 * codewords);
    if used + 4 < 8 * codewords {
      BytesAfter(used + 4);
    } else {
      assert used + t == 8 * codewords;
    }
  }

  lemma BytesAfter(at: nat)
    ensures at + ToByte(at) == (at + 7) / 8 * 8
  {
    var q, r := at / 8, at % 8;
    if r == 0 {
      assert (at + 7) / 8 == q;
    } else {
      assert (at + 7) / 8 == q + 1;
    }
  }

  lemma StreamParts(v: Version, count: nat, data: seq<byte>, eci: nat)
    requires HeaderLength(count, |data|, eci) <= 8 * DataCodewords(v)
    ensures var used := HeaderLength(count, |data|, eci);
            var body := Terminated(Header(count, data, eci), 8 * DataCodewords(v));
            |body| == 8 * PadsFrom(used, DataCodewords(v)) && |Header(count, data, eci)| == used &&
            Stream(v, count, data, eci) == PackAll(body) + Padding(DataCodewords(v) - PadsFrom(used, DataCodewords(v)))
  {
    hide PackAll, DataCodewords, Header, PadsFrom, ToByte, HeaderLength;
    HeaderSize(count, data, eci);
    TerminatedLength(|Header(count, data, eci)|, DataCodewords(v));
  }

  /** After the data come light bits to where the pads begin. */
  lemma LightAfterData(v: Version, count: nat, data: seq<byte>, eci: nat, i: nat)
    requires HeaderLength(count, |data|, eci) <= 8 * DataCodewords(v)
    requires HeaderLength(count, |data|, eci) <= i < 8 * PadsFrom(HeaderLength(count, |data|, eci), DataCodewords(v))
    ensures i < 8 * DataCodewords(v) && !Unpack(Stream(v, count, data, eci))[i]
  {
    hide Unpack, PackAll, DataCodewords, Header, PadsFrom, ToByte, HeaderLength, Padding, Stream;
    StreamParts(v, count, data, eci);
    var body := Terminated(Header(count, data, eci), 8 * DataCodewords(v));
    var pads := PadsFrom(HeaderLength(count, |data|, eci), DataCodewords(v));
    UnpackConcat(PackAll(body), Padding(DataCodewords(v) - pads));
    UnpackPacked(body);
  }

  /** The pads are 236 and 17 in turn, to the end. */
  lemma PadsToTheEnd(v: Version, count: nat, data: seq<byte>, eci: nat, k: nat)
    requires HeaderLength(count, |data|, eci) <= 8 * DataCodewords(v)
    requires PadsFrom(HeaderLength(count, |data|, eci), DataCodewords(v)) + k < DataCodewords(v)
    ensures Stream(v, count, data, eci)[PadsFrom(HeaderLength(count, |data|, eci), DataCodewords(v)) + k] ==
            if k % 2 == 0 then 236 else 17
  {
    hide PackAll, DataCodewords, Header, PadsFrom, HeaderLength, Terminated, Stream;
    StreamParts(v, count, data, eci);
    PadsInTurn();
  }

  lemma HeaderSize(count: nat, data: seq<byte>, eci: nat)
    ensures |Header(count, data, eci)| == HeaderLength(count, |data|, eci)
  {
    hide Unpack;
  }

  lemma PadsInTurn()
    ensures 0xEC as byte == 236 && 0x11 as byte == 17
  {}
}
