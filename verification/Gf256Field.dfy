/** The ring of Gf256 is a field: 2 generates every nonzero byte, so no product of nonzero bytes is zero. */
module Gf256Field {
  import opened Gf256
  import opened Sets

  function Pow2(i: nat): byte {
    if i == 0 then 1 else Mul(Pow2(i - 1), 2)
  }

  lemma {:induction false} Pow2Add(i: nat, j: nat)
    ensures Pow2(i + j) == Mul(Pow2(i), Pow2(j))
  {
    hide Mul;
    if j == 0 {
      MulOne(Pow2(i));
      MulCommutes(Pow2(i), 1);
    } else {
      Pow2Add(i, j - 1);
      MulAssociates(Pow2(i), Pow2(j - 1), 2);
      assert i + j - 1 == i + (j - 1);
    }
  }

  lemma MulTwo(p: byte)
    ensures Mul(p, 2) == Xtime(p)
  {
    hide Mul;
    MulOne(p);
    MulXtime(1, p);
    MulCommutes(p, 1);
  }

  /** The field's defining equation: x^8 + x^4 + x^3 + x^2 + 1 is 0 at 2. */
  lemma Modulus()
    ensures Pow2(8) == Add(Add(Pow2(4), Pow2(3)), Add(Pow2(2), Pow2(0)))
    ensures Pow2(1) == 2 && Pow2(4) == 0x10 && Pow2(8) == 0x1D
  {
    hide Mul;
    MulTwo(Pow2(0));
    MulTwo(Pow2(1));
    MulTwo(Pow2(2));
    MulTwo(Pow2(3));
    MulTwo(Pow2(4));
    MulTwo(Pow2(5));
    MulTwo(Pow2(6));
    MulTwo(Pow2(7));
  }

  /** Squaring a byte read off with its last bit, from the square of the rest. */
  lemma SquareStep(h: byte, s: byte, p: byte, q: byte)
    requires Mul(h, h) == s && (p == Xtime(h) || p == Add(Xtime(h), 1)) && q == Add(Xtime(Xtime(s)), Add(p, Xtime(h)))
    ensures Mul(p, p) == q
  {
    hide Mul, Xtime, Add;
    var d := Xtime(h);
    MulXtime(h, h);
    MulXtime(h, d);
    assert Mul(d, d) == Xtime(Xtime(s));
    AddLaws(d, d, 0);
    AddLaws(Xtime(Xtime(s)), 0, 0);
    if p != d {
      MulDistributes(Add(d, 1), d, 1);
      MulDistributes(d, 1, d);
      MulDistributes(d, 1, 1);
      MulOne(d);
      MulOne(1);
      MulCommutes(d, 1);
      LastBit(Xtime(Xtime(s)), d);
    }
  }

  lemma LastBit(t: byte, d: byte)
    ensures Add(Add(t, d), Add(d, 1)) == Add(t, Add(Add(d, 1), d))
  {}

  /** Squaring a power doubles its exponent. */
  lemma Squared(i: nat, p: byte, q: byte, r: byte)
    requires Pow2(i) == p && Mul(p, p) == q && Xtime(q) == r
    ensures Pow2(2 * i) == q && Pow2(2 * i + 1) == r
  {
    hide Mul;
    Pow2Add(i, i);
    MulTwo(q);
    assert 2 * i == i + i;
  }

  lemma Square02()
    ensures Mul(0x02, 0x02) == 0x04
  {
    hide Mul;
    MulOne(1);
    SquareStep(0x01, 0x01, 0x02, 0x04);
  }

  lemma Square04()
    ensures Mul(0x04, 0x04) == 0x10
  {
    hide Mul;
    Square02();
    SquareStep(0x02, 0x04, 0x04, 0x10);
  }

  lemma Square08()
    ensures Mul(0x08, 0x08) == 0x40
  {
    hide Mul;
    Square04();
    SquareStep(0x04, 0x10, 0x08, 0x40);
  }

  lemma Square20()
    ensures Mul(0x20, 0x20) == 0x74
  {
    hide Mul;
    Square08();
    SquareStep(0x08, 0x40, 0x10, 0x1D);
    SquareStep(0x10, 0x1D, 0x20, 0x74);
  }

  lemma Square40()
    ensures Mul(0x40, 0x40) == 0xCD
  {
    hide Mul;
    Square20();
    SquareStep(0x20, 0x74, 0x40, 0xCD);
  }

  lemma Square80()
    ensures Mul(0x80, 0x80) == 0x13
  {
    hide Mul;
    Square40();
    SquareStep(0x40, 0xCD, 0x80, 0x13);
  }

  lemma Square74()
    ensures Mul(0x74, 0x74) == 0xB4
  {
    hide Mul;
    MulOne(1);
    SquareStep(0x01, 0x01, 0x03, 0x05);
    SquareStep(0x03, 0x05, 0x07, 0x15);
    SquareStep(0x07, 0x15, 0x0E, 0x54);
    SquareStep(0x0E, 0x54, 0x1D, 0x4C);
    SquareStep(0x1D, 0x4C, 0x3A, 0x2D);
    SquareStep(0x3A, 0x2D, 0x74, 0xB4);
  }

  lemma SquareCD()
    ensures Mul(0xCD, 0xCD) == 0x8F
  {
    hide Mul;
    MulOne(1);
    SquareStep(0x01, 0x01, 0x03, 0x05);
    SquareStep(0x03, 0x05, 0x06, 0x14);
    SquareStep(0x06, 0x14, 0x0C, 0x50);
    SquareStep(0x0C, 0x50, 0x19, 0x5C);
    SquareStep(0x19, 0x5C, 0x33, 0x6C);
    SquareStep(0x33, 0x6C, 0x66, 0xAD);
    SquareStep(0x66, 0xAD, 0xCD, 0x8F);
  }

  lemma Square26()
    ensures Mul(0x26, 0x26) == 0x60
  {
    hide Mul;
    Square04();
    SquareStep(0x04, 0x10, 0x09, 0x41);
    SquareStep(0x09, 0x41, 0x13, 0x18);
    SquareStep(0x13, 0x18, 0x26, 0x60);
  }

  lemma Square75()
    ensures Mul(0x75, 0x75) == 0xB5
  {
    hide Mul;
    MulOne(1);
    SquareStep(0x01, 0x01, 0x03, 0x05);
    SquareStep(0x03, 0x05, 0x07, 0x15);
    SquareStep(0x07, 0x15, 0x0E, 0x54);
    SquareStep(0x0E, 0x54, 0x1D, 0x4C);
    SquareStep(0x1D, 0x4C, 0x3A, 0x2D);
    SquareStep(0x3A, 0x2D, 0x75, 0xB5);
  }

  lemma Square03()
    ensures Mul(0x03, 0x03) == 0x05
  {
    hide Mul;
    MulOne(1);
    SquareStep(0x01, 0x01, 0x03, 0x05);
  }

  lemma SquareC0()
    ensures Mul(0xC0, 0xC0) == 0xDE
  {
    hide Mul;
    Square03();
    SquareStep(0x03, 0x05, 0x06, 0x14);
    SquareStep(0x06, 0x14, 0x0C, 0x50);
    SquareStep(0x0C, 0x50, 0x18, 0x5D);
    SquareStep(0x18, 0x5D, 0x30, 0x69);
    SquareStep(0x30, 0x69, 0x60, 0xB9);
    SquareStep(0x60, 0xB9, 0xC0, 0xDE);
  }

  lemma SquareB5()
    ensures Mul(0xB5, 0xB5) == 0x6B
  {
    hide Mul;
    Square02();
    SquareStep(0x02, 0x04, 0x05, 0x11);
    SquareStep(0x05, 0x11, 0x0B, 0x45);
    SquareStep(0x0B, 0x45, 0x16, 0x09);
    SquareStep(0x16, 0x09, 0x2D, 0x25);
    SquareStep(0x2D, 0x25, 0x5A, 0x94);
    SquareStep(0x5A, 0x94, 0xB5, 0x6B);
  }

  lemma SquareA1()
    ensures Mul(0xA1, 0xA1) == 0x66
  {
    hide Mul;
    Square02();
    SquareStep(0x02, 0x04, 0x05, 0x11);
    SquareStep(0x05, 0x11, 0x0A, 0x44);
    SquareStep(0x0A, 0x44, 0x14, 0x0D);
    SquareStep(0x14, 0x0D, 0x28, 0x34);
    SquareStep(0x28, 0x34, 0x50, 0xD0);
    SquareStep(0x50, 0xD0, 0xA1, 0x66);
  }

  lemma SquareCC()
    ensures Mul(0xCC, 0xCC) == 0x8E
  {
    hide Mul;
    Square03();
    SquareStep(0x03, 0x05, 0x06, 0x14);
    SquareStep(0x06, 0x14, 0x0C, 0x50);
    SquareStep(0x0C, 0x50, 0x19, 0x5C);
    SquareStep(0x19, 0x5C, 0x33, 0x6C);
    SquareStep(0x33, 0x6C, 0x66, 0xAD);
    SquareStep(0x66, 0xAD, 0xCC, 0x8E);
  }

  /** The powers of 2 whose exponents are the largest proper divisors of 255 are not 1; that to the 255th is. */
  lemma Pow2AtDivisors()
    ensures Pow2(15) != 1 && Pow2(51) != 1 && Pow2(85) != 1 && Pow2(255) == 1
  {
    hide Mul, Pow2;
    PowerOne();
    Square02();
    Squared(1, 0x02, 0x04, 0x08);
    Square04();
    Squared(2, 0x04, 0x10, 0x20);
    Square08();
    Squared(3, 0x08, 0x40, 0x80);
    Square20();
    Squared(5, 0x20, 0x74, 0xE8);
    Square40();
    Squared(6, 0x40, 0xCD, 0x87);
    Square80();
    Squared(7, 0x80, 0x13, 0x26);
    Square74();
    Squared(10, 0x74, 0xB4, 0x75);
    SquareCD();
    Squared(12, 0xCD, 0x8F, 0x03);
    Square26();
    Squared(15, 0x26, 0x60, 0xC0);
    Square75();
    Squared(21, 0x75, 0xB5, 0x77);
    Square03();
    Squared(25, 0x03, 0x05, 0x0A);
    SquareC0();
    Squared(31, 0xC0, 0xDE, 0xA1);
    SquareB5();
    Squared(42, 0xB5, 0x6B, 0xD6);
    SquareA1();
    Squared(63, 0xA1, 0x66, 0xCC);
    SquareCC();
    Squared(127, 0xCC, 0x8E, 0x01);
  }

  lemma PowerOne()
    ensures Pow2(1) == 2
  {
    hide Mul;
    MulOne(2);
    assert Pow2(1) == Mul(Pow2(0), 2);
  }

  // ---------- The order of 2 is 255

  /** Euclid's algorithm on exponents at which the power is 1: it is 1 at a common divisor too. */
  lemma {:induction false} OneAtDivisor(a: nat, b: nat) returns (g: nat, m: nat, n: nat)
    requires 0 < b <= a && Pow2(a) == 1 && Pow2(b) == 1
    ensures 0 < g <= b && a == m * g && b == n * g && Pow2(g) == 1
    decreases b
  {
    hide Mul;
    var q, r := a / b, a % b;
    assert a == q * b + r;
    OneAtMultiple(b, q);
    Pow2Add(q * b, r);
    MulOne(Pow2(r));
    if r == 0 {
      g, m, n := b, q, 1;
    } else {
      var k;
      g, n, k := OneAtDivisor(b, r);
      m := q * n + k;
      Distribute(q, n, k, g);
    }
  }

  lemma Distribute(q: nat, n: nat, k: nat, g: nat)
    ensures q * (n * g) + k * g == (q * n + k) * g
  {}

  lemma {:induction false} OneAtMultiple(a: nat, k: nat)
    requires Pow2(a) == 1
    ensures Pow2(k * a) == 1
  {
    hide Mul;
    if k > 0 {
      OneAtMultiple(a, k - 1);
      Pow2Add((k - 1) * a, a);
      assert k * a == (k - 1) * a + a;
      MulOne(1);
    }
  }

  /** A proper divisor of 255 = 3 * 5 * 17 is one of seven. */
  lemma ProperDivisor(g: nat, m: nat)
    requires 0 < g < 255 && m * g == 255
    ensures g in {1, 3, 5, 15, 17, 51, 85}
  {
    if g <= 16 {
      SmallDivisor(g, m);
    } else {
      if m > 16 {
        BothLarge(m, g);
        assert false;
      }
      SmallDivisor(m, g);
    }
  }

  lemma BothLarge(m: nat, g: nat)
    requires m > 16 && g > 16
    ensures m * g > 256
  {}

  lemma SmallDivisor(g: nat, m: nat)
    requires g <= 16 && m * g == 255
    ensures g in {1, 3, 5, 15} && (g == 1 ==> m == 255) && (g == 3 ==> m == 85) && (g == 5 ==> m == 51) &&
            (g == 15 ==> m == 17)
  {
    if g <= 4 {
      if g == 0 {} else if g == 1 {} else if g == 2 {} else if g == 3 {} else {}
    } else if g <= 8 {
      if g == 5 {} else if g == 6 {} else if g == 7 {} else {}
    } else if g <= 12 {
      if g == 9 {} else if g == 10 {} else if g == 11 {} else {}
    } else {
      if g == 13 {} else if g == 14 {} else if g == 15 {} else {}
    }
  }

  lemma OneAtLargest(g: nat)
    requires g in {1, 3, 5, 15, 17, 51, 85} && Pow2(g) == 1
    ensures Pow2(15) == 1 || Pow2(51) == 1 || Pow2(85) == 1
  {
    hide Mul, Pow2;
    if g == 1 {
      OneAtMultiple(1, 15);
    } else if g == 3 {
      OneAtMultiple(3, 5);
    } else if g == 5 {
      OneAtMultiple(5, 3);
    } else if g == 17 {
      OneAtMultiple(17, 3);
    }
  }

  lemma OrderOfTwo(d: nat)
    requires 0 < d < 255
    ensures Pow2(d) != 1
  {
    hide Mul, Pow2;
    Pow2AtDivisors();
    if Pow2(d) == 1 {
      var g, m, _ := OneAtDivisor(255, d);
      ProperDivisor(g, m);
      OneAtLargest(g);
      assert false;
    }
  }

  lemma PowersDistinct(i: nat, j: nat)
    requires i < j < 255
    ensures Pow2(i) != Pow2(j)
  {
    hide Mul, Pow2;
    if Pow2(i) == Pow2(j) {
      Pow2AtDivisors();
      Pow2Add(255 - i, i);
      Pow2Add(255 - i, j);
      Pow2Add(255, j - i);
      assert 255 - i + j == 255 + (j - i);
      MulOne(Pow2(j - i));
      OrderOfTwo(j - i);
      assert false;
    }
  }

  // ---------- Every nonzero byte is a power of 2

  ghost function Powers(n: nat): set<byte> {
    set i: nat | i < n :: Pow2(i)
  }

  lemma {:induction false} CountPowers(n: nat)
    requires n <= 255
    ensures |Powers(n)| == n
    ensures 0 !in Powers(n)
  {
    hide Mul;
    if n > 0 {
      CountPowers(n - 1);
      forall i: nat | i < n - 1 ensures Pow2(i) != Pow2(n - 1) {
        PowersDistinct(i, n - 1);
      }
      assert Powers(n) == Powers(n - 1) + {Pow2(n - 1)};
      PowerNonzero(n - 1);
    }
  }

  lemma PowerNonzero(i: nat)
    requires i <= 255
    ensures Pow2(i) != 0
  {
    hide Mul;
    Pow2AtDivisors();
    Pow2Add(i, 255 - i);
    MulZero(Pow2(255 - i));
  }

  function AsByte(i: nat): byte
    requires i < 256
  {
    i as bv8
  }

  ghost function Bytes(n: nat): set<byte>
    requires n <= 256
  {
    set i: nat | i < n :: AsByte(i)
  }

  lemma {:induction false} CountBytes(n: nat)
    requires n <= 256
    ensures |Bytes(n)| <= n
  {
    hide AsByte;
    if n > 0 {
      CountBytes(n - 1);
      assert Bytes(n) == Bytes(n - 1) + {AsByte(n - 1)};
    }
  }

  lemma EveryByte(x: byte)
    ensures x in Bytes(256)
  {
    var i := x as nat;
    assert i < 256 && AsByte(i) == x;
  }

  lemma Logarithm(x: byte) returns (i: nat)
    requires x != 0
    ensures i < 255 && Pow2(i) == x
  {
    hide Mul;
    CountPowers(255);
    CountBytes(256);
    if x in Powers(255) {
      i :| i < 255 && Pow2(i) == x;
    } else {
      var all := Powers(255) + {0} + {x};
      forall y | y in all ensures y in Bytes(256) {
        EveryByte(y);
      }
      SubsetSize(all, Bytes(256));
      assert false;
    }
  }

  lemma NoZeroDivisors(x: byte, y: byte)
    requires Mul(x, y) == 0
    ensures x == 0 || y == 0
  {
    hide Mul;
    if x != 0 {
      var i := Logarithm(x);
      Pow2AtDivisors();
      Pow2Add(255 - i, i);
      MulAssociates(Pow2(255 - i), x, y);
      MulZero(Pow2(255 - i));
      MulOne(y);
    }
  }
}
