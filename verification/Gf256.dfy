/** The field GF(256) of the QR code, multiplied by shift and reduce (ISO/IEC 18004:2015, section 7.5.2). */
module Gf256 {

  type byte = bv8

  /** Addition in the field. Named, so that the laws below can be used without their bits. */
  function Add(a: byte, b: byte): byte {
    a ^ b
  }

  /** Multiplication by x modulo x^8 + x^4 + x^3 + x^2 + 1, the polynomial 0x11D. */
  function Xtime(z: byte): byte {
    (z << 1) ^ ((0 - (z >> 7)) & 0x1D)
  }

  function BitAt(y: byte, i: nat): (b: byte)
    requires i < 8
    ensures b <= 1
  {
    (y >> i) & 1
  }

  /** x when bit is 1, and 0 when it is 0. */
  function Times(bit: byte, x: byte): byte {
    (0 - bit) & x
  }

  /** The bits i and up of y times x, by Horner's rule from the top bit down. */
  function Partial(x: byte, y: byte, i: nat): byte
    requires i <= 8
    decreases 8 - i
  {
    if i == 8 then 0 else Add(Xtime(Partial(x, y, i + 1)), Times(BitAt(y, i), x))
  }

  /** The product the loop computes. */
  function Mul(x: byte, y: byte): byte {
    Partial(x, y, 0)
  }

  /** One round's shift on the source's wider accumulator: the ninth bit is reduced by 0x11D. */
  function WideShift(z: bv16): bv16 {
    (z << 1) ^ ((z >> 7) * 0x11D)
  }

  /** One round's addition on the wider accumulator: x times bit i of y. */
  function WideAdd(z: bv16, x: byte, y: byte, i: nat): bv16
    requires i < 8
  {
    z ^ ((((y as bv16) >> i) & 1) * (x as bv16))
  }

  /** The source's loop, from the top bit of y down. */
  method QrMul(x: byte, y: byte) returns (r: byte)
    ensures r == Mul(x, y)
  {
    hide WideShift, WideAdd, Xtime, Times, BitAt, Add;
    var z: bv16 := 0;
    ghost var low: byte := 0;
    var i := 8;
    while i > 0
      invariant 0 <= i <= 8
      invariant z == low as bv16 && low == Partial(x, y, i)
    {
      i := i - 1;
      z := WideShift(z);
      WideShiftIsXtime(low);
      z := WideAdd(z, x, y, i);
      WideAddIsAdd(Xtime(low), x, y, i);
      low := Partial(x, y, i);
    }
    Narrow(low);
    r := z as bv8;
  }

  // ---------- The loop's wider arithmetic agrees with the byte's

  lemma WideShiftIsXtime(z: byte)
    ensures WideShift(z as bv16) == Xtime(z) as bv16
  {}

  lemma WideBit(y: byte, i: nat)
    requires i < 8
    ensures ((y as bv16) >> i) & 1 == BitAt(y, i) as bv16
  {}

  lemma WideProduct(bit: byte, x: byte)
    requires bit <= 1
    ensures (bit as bv16) * (x as bv16) == Times(bit, x) as bv16
  {}

  lemma WideXor(a: byte, b: byte)
    ensures (a as bv16) ^ (b as bv16) == Add(a, b) as bv16
  {}

  lemma WideAddIsAdd(z: byte, x: byte, y: byte, i: nat)
    requires i < 8
    ensures WideAdd(z as bv16, x, y, i) == Add(z, Times(BitAt(y, i), x)) as bv16
  {
    hide Times, BitAt, Add;
    WideBit(y, i);
    WideProduct(BitAt(y, i), x);
    WideXor(z, Times(BitAt(y, i), x));
  }

  lemma Narrow(a: byte)
    ensures a as bv16 <= 255
    ensures (a as bv16) as bv8 == a
  {}

  // ---------- Addition

  lemma AddLaws(a: byte, b: byte, c: byte)
    ensures Add(a, b) == Add(b, a)
    ensures Add(Add(a, b), c) == Add(a, Add(b, c))
    ensures Add(a, a) == 0 && Add(a, 0) == a && Add(0, a) == a
  {}

  lemma Shuffle(a: byte, b: byte, c: byte, d: byte)
    ensures Add(Add(a, b), Add(c, d)) == Add(Add(a, c), Add(b, d))
  {
    hide Add;
    AddLaws(a, b, Add(c, d));
    AddLaws(b, c, d);
    AddLaws(c, b, d);
    AddLaws(a, c, Add(b, d));
  }

  /** Adding the same again takes it away. */
  lemma Cancel(a: byte, b: byte)
    ensures Add(Add(a, b), b) == a
    ensures Add(a, b) == 0 <==> a == b
  {}

  // ---------- Bits

  lemma XtimeAdditive(a: byte, b: byte)
    ensures Xtime(Add(a, b)) == Add(Xtime(a), Xtime(b))
  {}

  lemma XtimeZero()
    ensures Xtime(0) == 0
  {}

  lemma BitAdditive(a: byte, b: byte, i: nat)
    requires i < 8
    ensures BitAt(Add(a, b), i) == Add(BitAt(a, i), BitAt(b, i))
  {
    assert ((a ^ b) >> i) & 1 == ((a >> i) & 1) ^ ((b >> i) & 1);
  }

  lemma TimesAdditive(s: byte, t: byte, x: byte)
    requires s <= 1 && t <= 1
    ensures Times(Add(s, t), x) == Add(Times(s, x), Times(t, x))
  {}

  lemma TimesAdditiveRight(s: byte, x: byte, x': byte)
    ensures Times(s, Add(x, x')) == Add(Times(s, x), Times(s, x'))
  {}

  lemma XtimeTimes(s: byte, x: byte)
    requires s <= 1
    ensures Xtime(Times(s, x)) == Times(s, Xtime(x))
  {}

  // ---------- Mul is linear in each argument and commutes with Xtime

  lemma {:induction false} PartialAdditiveRight(x: byte, y: byte, y': byte, i: nat)
    requires i <= 8
    ensures Partial(x, Add(y, y'), i) == Add(Partial(x, y, i), Partial(x, y', i))
    decreases 8 - i
  {
    hide Xtime, Times, BitAt, Add;
    if i == 8 {
      AddLaws(0, 0, 0);
    } else {
      PartialAdditiveRight(x, y, y', i + 1);
      var p, q := Partial(x, y, i + 1), Partial(x, y', i + 1);
      XtimeAdditive(p, q);
      BitAdditive(y, y', i);
      TimesAdditive(BitAt(y, i), BitAt(y', i), x);
      Shuffle(Xtime(p), Xtime(q), Times(BitAt(y, i), x), Times(BitAt(y', i), x));
    }
  }

  lemma {:induction false} PartialAdditiveLeft(x: byte, x': byte, y: byte, i: nat)
    requires i <= 8
    ensures Partial(Add(x, x'), y, i) == Add(Partial(x, y, i), Partial(x', y, i))
    decreases 8 - i
  {
    hide Xtime, Times, BitAt, Add;
    if i == 8 {
      AddLaws(0, 0, 0);
    } else {
      PartialAdditiveLeft(x, x', y, i + 1);
      var p, q := Partial(x, y, i + 1), Partial(x', y, i + 1);
      XtimeAdditive(p, q);
      TimesAdditiveRight(BitAt(y, i), x, x');
      Shuffle(Xtime(p), Xtime(q), Times(BitAt(y, i), x), Times(BitAt(y, i), x'));
    }
  }

  lemma {:induction false} PartialXtime(x: byte, y: byte, i: nat)
    requires i <= 8
    ensures Partial(Xtime(x), y, i) == Xtime(Partial(x, y, i))
    decreases 8 - i
  {
    hide Xtime, Times, BitAt, Add;
    if i == 8 {
      XtimeZero();
    } else {
      PartialXtime(x, y, i + 1);
      XtimeTimes(BitAt(y, i), x);
      XtimeAdditive(Xtime(Partial(x, y, i + 1)), Times(BitAt(y, i), x));
    }
  }

  lemma MulDistributes(x: byte, y: byte, z: byte)
    ensures Mul(x, Add(y, z)) == Add(Mul(x, y), Mul(x, z))
    ensures Mul(Add(x, y), z) == Add(Mul(x, z), Mul(y, z))
  {
    hide Xtime, Times, BitAt, Add, Partial;
    PartialAdditiveRight(x, y, z, 0);
    PartialAdditiveLeft(x, y, z, 0);
  }

  // ---------- Commutativity: Horner's rule over x, with y as the coefficient

  function HighBits(x: byte, i: nat): byte
    requires i <= 8
  {
    if i == 8 then 0 else x >> i
  }

  /** Shifting the next bit in is Xtime plus that bit, for the top bit is clear. */
  lemma HighBitsStep(x: byte, i: nat)
    requires i < 8
    ensures HighBits(x, i) == Add(Xtime(HighBits(x, i + 1)), BitAt(x, i))
  {
    if i == 7 {} else if i == 6 {} else if i == 5 {} else if i == 4 {}
    else if i == 3 {} else if i == 2 {} else if i == 1 {}
  }

  lemma {:induction false} PartialOne(y: byte, i: nat)
    requires i <= 8
    ensures Partial(1, y, i) == HighBits(y, i)
    decreases 8 - i
  {
    hide Xtime, Times, BitAt, Add;
    if i < 8 {
      PartialOne(y, i + 1);
      HighBitsStep(y, i);
      TimesOne(BitAt(y, i));
    }
  }

  lemma TimesOne(s: byte)
    requires s <= 1
    ensures Times(s, 1) == s
  {}

  lemma MulOne(y: byte)
    ensures Mul(1, y) == y
  {
    PartialOne(y, 0);
  }

  lemma {:induction false} PartialZero(y: byte, i: nat)
    requires i <= 8
    ensures Partial(0, y, i) == 0
    decreases 8 - i
  {
    if i < 8 {
      PartialZero(y, i + 1);
    }
  }

  lemma MulBit(s: byte, y: byte)
    requires s <= 1
    ensures Mul(s, y) == Times(s, y)
  {
    if s == 0 {
      PartialZero(y, 0);
    } else {
      MulOne(y);
    }
  }

  lemma {:induction false} PartialSwapped(x: byte, y: byte, i: nat)
    requires i <= 8
    ensures Partial(y, x, i) == Mul(HighBits(x, i), y)
    decreases 8 - i
  {
    hide Xtime, Times, BitAt, Add;
    if i == 8 {
      PartialZero(y, 0);
    } else {
      PartialSwapped(x, y, i + 1);
      HighBitsStep(x, i);
      MulDistributes(Xtime(HighBits(x, i + 1)), BitAt(x, i), y);
      PartialXtime(HighBits(x, i + 1), y, 0);
      MulBit(BitAt(x, i), y);
    }
  }

  lemma MulCommutes(x: byte, y: byte)
    ensures Mul(x, y) == Mul(y, x)
  {
    PartialSwapped(x, y, 0);
    Shift0(x);
  }

  lemma Shift0(x: byte)
    ensures HighBits(x, 0) == x
  {}

  lemma {:induction false} PartialAssociates(x: byte, y: byte, z: byte, i: nat)
    requires i <= 8
    ensures Partial(Mul(x, y), z, i) == Mul(x, Partial(y, z, i))
    decreases 8 - i
  {
    hide Xtime, Times, BitAt, Add;
    if i == 8 {
      MulZero(x);
    } else {
      PartialAssociates(x, y, z, i + 1);
      var p, s := Partial(y, z, i + 1), BitAt(z, i);
      MulDistributes(x, Xtime(p), Times(s, y));
      MulXtime(p, x);
      MulTimes(x, s, y);
    }
  }

  lemma MulZero(x: byte)
    ensures Mul(x, 0) == 0 && Mul(0, x) == 0
  {
    PartialZero(x, 0);
    MulCommutes(x, 0);
  }

  lemma MulXtime(x: byte, y: byte)
    ensures Mul(Xtime(x), y) == Xtime(Mul(x, y))
    ensures Mul(y, Xtime(x)) == Xtime(Mul(y, x))
  {
    hide Xtime, Times, BitAt, Add;
    PartialXtime(x, y, 0);
    MulCommutes(x, y);
    MulCommutes(Xtime(x), y);
  }

  lemma MulTimes(x: byte, s: byte, y: byte)
    requires s <= 1
    ensures Mul(x, Times(s, y)) == Times(s, Mul(x, y))
  {
    hide Partial;
    if s == 0 {
      MulZero(x);
    }
  }

  lemma MulAssociates(x: byte, y: byte, z: byte)
    ensures Mul(Mul(x, y), z) == Mul(x, Mul(y, z))
  {
    PartialAssociates(x, y, z, 0);
  }
}
