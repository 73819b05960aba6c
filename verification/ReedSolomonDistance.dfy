/** How far apart the codewords of ReedSolomon are, and that the remainder is the only tail that completes a block. */
module ReedSolomonDistance {
  import opened Gf256
  import opened Gf256Field
  import opened ReedSolomon

  /** In how many positions two words of one length differ. */
  function Distance(p: Poly, q: Poly): nat
    requires |p| == |q|
  {
    if p == [] then 0
    else var n := |p| - 1; Distance(p[..n], q[..n]) + (if p[n] != q[n] then 1 else 0)
  }

  function Weight(p: Poly): (w: nat)
    ensures w <= |p|
  {
    if p == [] then 0 else Weight(p[..|p| - 1]) + (if p[|p| - 1] != 0 then 1 else 0)
  }

  lemma {:induction false} DistanceIsWeight(p: Poly, q: Poly)
    requires |p| == |q|
    ensures Distance(p, q) == Weight(Sum(p, q))
  {
    hide Add;
    if p != [] {
      var n := |p| - 1;
      DistanceIsWeight(p[..n], q[..n]);
      assert Sum(p, q)[..n] == Sum(p[..n], q[..n]);
      Cancel(p[n], q[n]);
    }
  }

  lemma {:induction false} DistanceZero(p: Poly, q: Poly)
    requires |p| == |q|
    ensures Distance(p, q) == 0 <==> p == q
  {
    if p != [] {
      var n := |p| - 1;
      DistanceZero(p[..n], q[..n]);
      assert p == p[..n] + [p[n]] && q == q[..n] + [q[n]];
    }
  }

  lemma {:induction false} DistanceConcat(p: Poly, q: Poly, r: Poly, s: Poly)
    requires |p| == |q| && |r| == |s|
    ensures Distance(p + r, q + s) == Distance(p, q) + Distance(r, s)
  {
    if r == [] {
      assert p + r == p && q + s == q;
    } else {
      var n := |r| - 1;
      DistanceConcat(p, q, r[..n], s[..n]);
      assert (p + r)[..|p| + n] == p + r[..n] && (q + s)[..|q| + n] == q + s[..n];
    }
  }

  // ---------- Words of small weight

  lemma {:induction false} WeightZero(p: Poly, x: byte)
    requires Weight(p) == 0
    ensures Eval(p, x) == 0
  {
    hide Add, Mul;
    if p != [] {
      WeightZero(p[..|p| - 1], x);
      MulZero(x);
      AddLaws(0, 0, 0);
    }
  }

  lemma {:induction false} WeightOne(p: Poly)
    requires Weight(p) == 1
    ensures Eval(p, 1) != 0
  {
    hide Add, Mul;
    var init, a := p[..|p| - 1], p[|p| - 1];
    MulOne(Eval(init, 1));
    MulCommutes(Eval(init, 1), 1);
    if a != 0 {
      WeightZero(init, 1);
      AddLaws(a, 0, 0);
    } else {
      WeightOne(init);
      AddLaws(Eval(init, 1), 0, 0);
    }
  }

  lemma {:induction false} NonzeroPosition(p: Poly) returns (m: nat)
    requires Weight(p) > 0
    ensures m < |p| && p[m] != 0
  {
    var n := |p| - 1;
    if p[n] != 0 {
      m := n;
    } else {
      m := NonzeroPosition(p[..n]);
    }
  }

  // ---------- Elimination of one position

  /** The power of 2 that position i of a word of length n stands for. */
  function Locator(n: nat, i: nat): byte
    requires i < n
  {
    Pow2(n - 1 - i)
  }

  /** Every coefficient times its locator. */
  function Twisted(p: Poly): (r: Poly)
    ensures |r| == |p|
  {
    seq(|p|, i requires 0 <= i < |p| => Mul(p[i], Locator(|p|, i)))
  }

  lemma {:induction false} EvalTwisted(p: Poly, x: byte)
    ensures Eval(Twisted(p), x) == Eval(p, Mul(x, 2))
  {
    hide Add, Mul;
    if p != [] {
      var n := |p| - 1;
      var init, a := p[..n], p[n];
      EvalTwisted(init, x);
      forall i | 0 <= i < n ensures Twisted(p)[i] == Scaled(Twisted(init), 2)[i] {
        MulAssociates(p[i], Locator(n, i), 2);
      }
      assert Twisted(p)[..n] == Scaled(Twisted(init), 2);
      EvalScaled(Twisted(init), 2, x);
      MulOne(a);
      MulCommutes(a, 1);
      MulSwap(Eval(Twisted(init), x), 2, x);
      MulAssociates(Eval(Twisted(init), x), x, 2);
    }
  }

  /** Every coefficient times the sum of its locator and position m's: position m vanishes, the others do not. */
  function Eliminated(p: Poly, m: nat): (r: Poly)
    requires m < |p|
    ensures |r| == |p|
  {
    Sum(Twisted(p), Scaled(p, Locator(|p|, m)))
  }

  lemma EliminatedZeros(p: Poly, m: nat)
    requires m < |p| <= 255
    ensures forall i :: 0 <= i < |p| ==> (Eliminated(p, m)[i] == 0 <==> p[i] == 0 || i == m)
  {
    hide Add, Mul;
    forall i | 0 <= i < |p| ensures Eliminated(p, m)[i] == 0 <==> p[i] == 0 || i == m {
      var xi, xm := Locator(|p|, i), Locator(|p|, m);
      MulDistributes(p[i], xi, xm);
      Cancel(xi, xm);
      if i < m {
        PowersDistinct(|p| - 1 - m, |p| - 1 - i);
      } else if m < i {
        PowersDistinct(|p| - 1 - i, |p| - 1 - m);
      }
      if Mul(p[i], Add(xi, xm)) == 0 {
        NoZeroDivisors(p[i], Add(xi, xm));
      }
      MulZero(p[i]);
      MulZero(Add(xi, xm));
    }
  }

  lemma EvalEliminated(p: Poly, m: nat, x: byte)
    requires m < |p|
    requires Eval(p, x) == 0 && Eval(p, Mul(x, 2)) == 0
    ensures Eval(Eliminated(p, m), x) == 0
  {
    hide Add, Mul;
    EvalSum(Twisted(p), Scaled(p, Locator(|p|, m)), x);
    EvalTwisted(p, x);
    EvalScaled(p, Locator(|p|, m), x);
    MulZero(Locator(|p|, m));
    AddLaws(0, 0, 0);
  }

  lemma {:induction false} WeightDrops(p: Poly, q: Poly, m: nat)
    requires |p| == |q|
    requires forall i :: 0 <= i < |p| ==> (q[i] == 0 <==> p[i] == 0 || i == m)
    ensures Weight(q) + (if m < |p| && p[m] != 0 then 1 else 0) == Weight(p)
  {
    if p != [] {
      var n := |p| - 1;
      WeightDrops(p[..n], q[..n], m);
    }
  }

  /** A word that is zero at w consecutive powers of 2 and has at most w nonzero positions has none. */
  lemma {:induction false} FewNonzeros(p: Poly, w: nat)
    requires |p| <= 255 && Weight(p) <= w
    requires forall i :: 0 <= i < w ==> Eval(p, Pow2(i)) == 0
    ensures Weight(p) == 0
    decreases w
  {
    hide Add, Mul;
    if Weight(p) > 0 {
      assert Pow2(0) == 1;
      var m := NonzeroPosition(p);
      var q := Eliminated(p, m);
      EliminatedZeros(p, m);
      WeightDrops(p, q, m);
      forall i | 0 <= i < w - 1 ensures Eval(q, Pow2(i)) == 0 {
        assert Eval(p, Pow2(i)) == 0 && Eval(p, Pow2(i + 1)) == 0;
        EvalEliminated(p, m, Pow2(i));
      }
      FewNonzeros(q, w - 1);
      WeightOne(p);
      assert false;
    }
  }

  // ---------- The distance of the code, and the uniqueness of the remainder

  /** p is zero at 2^0 .. 2^(n-1). */
  ghost predicate HasRoots(p: Poly, n: nat) {
    forall i :: 0 <= i < n ==> Eval(p, Pow2(i)) == 0
  }

  lemma CodewordHasRoots(data: Poly, n: nat)
    requires n > 0
    ensures HasRoots(Codeword(data, n), n)
  {
    hide Eval, Codeword;
    forall i | 0 <= i < n ensures Eval(Codeword(data, n), Pow2(i)) == 0 {
      CodewordRoots(data, n, i);
    }
  }

  /** Two different words of one length with the same n roots differ in more than n positions. */
  lemma RootsFarApart(c: Poly, d: Poly, n: nat)
    requires |c| == |d| <= 255 && c != d
    requires HasRoots(c, n) && HasRoots(d, n)
    ensures Distance(c, d) > n
  {
    hide Add, Mul;
    if Distance(c, d) <= n {
      DistanceIsWeight(c, d);
      forall i | 0 <= i < n ensures Eval(Sum(c, d), Pow2(i)) == 0 {
        EvalSum(c, d, Pow2(i));
        AddLaws(0, 0, 0);
      }
      FewNonzeros(Sum(c, d), n);
      DistanceZero(c, d);
      assert false;
    }
  }

  /** Two different blocks of one length give codewords that differ in more than n positions. */
  lemma CodewordsFarApart(a: Poly, b: Poly, n: nat)
    requires n > 0 && |a| == |b| && |a| + n <= 255 && a != b
    ensures Distance(Codeword(a, n), Codeword(b, n)) > n
  {
    hide HasRoots;
    CodewordHasRoots(a, n);
    CodewordHasRoots(b, n);
    assert Codeword(a, n)[..|a|] == a && Codeword(b, n)[..|b|] == b;
    RootsFarApart(Codeword(a, n), Codeword(b, n), n);
  }

  /** The remainder is the one tail of n codewords after which the block is zero at 2^0 .. 2^(n-1). */
  lemma RemainderUnique(data: Poly, tail: Poly, n: nat)
    requires n > 0 && |tail| == n && |data| + n <= 255
    ensures HasRoots(data + tail, n) <==> tail == Remainder(data, Divisor(n))
  {
    hide HasRoots, Remainder, Divisor;
    CodewordHasRoots(data, n);
    var rem := Remainder(data, Divisor(n));
    if tail != rem && HasRoots(data + tail, n) {
      assert (data + tail)[|data|..] == tail && (data + rem)[|data|..] == rem;
      RootsFarApart(data + tail, data + rem, n);
      DistanceConcat(data, data, tail, rem);
      DistanceZero(data, data);
      DistanceAtMost(tail, rem);
      assert false;
    }
  }

  lemma {:induction false} DistanceAtMost(p: Poly, q: Poly)
    requires |p| == |q|
    ensures Distance(p, q) <= |p|
  {
    if p != [] {
      DistanceAtMost(p[..|p| - 1], q[..|q| - 1]);
    }
  }
}
