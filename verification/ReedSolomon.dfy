/** The QR code's Reed-Solomon generator, remainder and distance (ISO/IEC 18004:2015, section 7.5.2). */
module ReedSolomon {
  import opened Gf256
  import opened Gf256Field

  /** A polynomial over GF(256), highest power first. */
  type Poly = seq<byte>

  function Eval(p: Poly, x: byte): byte {
    if p == [] then 0 else Add(Mul(Eval(p[..|p| - 1], x), x), p[|p| - 1])
  }

  function Pow(x: byte, n: nat): byte {
    if n == 0 then 1 else Mul(Pow(x, n - 1), x)
  }

  function Zeros(n: nat): (p: Poly)
    ensures |p| == n
  {
    seq(n, _ => 0)
  }

  function Sum(p: Poly, q: Poly): (r: Poly)
    requires |p| == |q|
    ensures |r| == |p|
  {
    seq(|p|, i requires 0 <= i < |p| => Add(p[i], q[i]))
  }

  function Scaled(p: Poly, c: byte): (r: Poly)
    ensures |r| == |p|
  {
    seq(|p|, i requires 0 <= i < |p| => Mul(p[i], c))
  }

  // ---------- Evaluation is linear

  lemma EvalAppend(p: Poly, a: byte, x: byte)
    ensures Eval(p + [a], x) == Add(Mul(Eval(p, x), x), a)
  {
    hide Add, Mul;
    assert (p + [a])[..|p|] == p;
  }

  lemma {:induction false} EvalZeros(n: nat, x: byte)
    ensures Eval(Zeros(n), x) == 0
  {
    hide Add, Mul;
    if n > 0 {
      EvalZeros(n - 1, x);
      assert Zeros(n)[..n - 1] == Zeros(n - 1);
      MulZero(x);
      AddLaws(0, 0, 0);
    }
  }

  lemma {:induction false} EvalSum(p: Poly, q: Poly, x: byte)
    requires |p| == |q|
    ensures Eval(Sum(p, q), x) == Add(Eval(p, x), Eval(q, x))
  {
    hide Add, Mul;
    if p == [] {
      AddLaws(0, 0, 0);
    } else {
      var n := |p| - 1;
      EvalSum(p[..n], q[..n], x);
      assert Sum(p, q)[..n] == Sum(p[..n], q[..n]);
      var a, b := Eval(p[..n], x), Eval(q[..n], x);
      MulDistributes(a, b, x);
      Shuffle(Mul(a, x), Mul(b, x), p[n], q[n]);
    }
  }

  lemma {:induction false} EvalScaled(p: Poly, c: byte, x: byte)
    ensures Eval(Scaled(p, c), x) == Mul(Eval(p, x), c)
  {
    hide Add, Mul;
    if p == [] {
      MulZero(c);
    } else {
      var n := |p| - 1;
      EvalScaled(p[..n], c, x);
      assert Scaled(p, c)[..n] == Scaled(p[..n], c);
      var a := Eval(p[..n], x);
      MulSwap(a, c, x);
      MulDistributes(Mul(a, x), p[n], c);
    }
  }

  lemma MulSwap(a: byte, b: byte, c: byte)
    ensures Mul(Mul(a, b), c) == Mul(Mul(a, c), b)
  {
    hide Mul;
    MulAssociates(a, b, c);
    MulAssociates(a, c, b);
    MulCommutes(b, c);
  }

  lemma {:induction false} EvalLead(a: byte, p: Poly, x: byte)
    ensures Eval([a] + p, x) == Add(Mul(a, Pow(x, |p|)), Eval(p, x))
  {
    hide Add, Mul;
    if p == [] {
      assert [a] + p == [a] && [a][..0] == [];
      MulZero(x);
      MulOne(a);
      MulCommutes(a, 1);
      AddLaws(a, 0, 0);
    } else {
      var n := |p| - 1;
      EvalLead(a, p[..n], x);
      assert ([a] + p)[..n + 1] == [a] + p[..n];
      var h, t := Mul(a, Pow(x, n)), Eval(p[..n], x);
      MulDistributes(h, t, x);
      MulAssociates(a, Pow(x, n), x);
      AddLaws(Mul(h, x), Mul(t, x), p[n]);
    }
  }

  lemma {:induction false} EvalConcat(p: Poly, q: Poly, x: byte)
    ensures Eval(p + q, x) == Add(Mul(Eval(p, x), Pow(x, |q|)), Eval(q, x))
  {
    hide Add, Mul;
    if q == [] {
      assert p + q == p;
      MulOne(Eval(p, x));
      MulCommutes(Eval(p, x), 1);
      AddLaws(Eval(p, x), 0, 0);
    } else {
      var n := |q| - 1;
      EvalConcat(p, q[..n], x);
      assert (p + q)[..|p| + n] == p + q[..n];
      var h, t := Mul(Eval(p, x), Pow(x, n)), Eval(q[..n], x);
      MulDistributes(h, t, x);
      MulAssociates(Eval(p, x), Pow(x, n), x);
      AddLaws(Mul(h, x), Mul(t, x), q[n]);
    }
  }

  // ---------- The generator

  /** p times (x - r). */
  function TimesRoot(p: Poly, r: byte): (q: Poly)
    ensures |q| == |p| + 1
  {
    Sum(p + [0], Scaled([0] + p, r))
  }

  /** The product of (x - 2^i) for i below n. */
  function Generator(n: nat): (g: Poly)
    ensures |g| == n + 1
  {
    if n == 0 then [1] else TimesRoot(Generator(n - 1), Pow2(n - 1))
  }

  lemma EvalTimesRoot(p: Poly, r: byte, x: byte)
    ensures Eval(TimesRoot(p, r), x) == Mul(Eval(p, x), Add(x, r))
  {
    hide Add, Mul;
    EvalSum(p + [0], Scaled([0] + p, r), x);
    EvalAppend(p, 0, x);
    EvalScaled([0] + p, r, x);
    EvalLead(0, p, x);
    MulZero(Pow(x, |p|));
    AddLaws(Mul(Eval(p, x), x), 0, 0);
    AddLaws(Eval(p, x), 0, 0);
    MulDistributes(Eval(p, x), x, r);
  }

  /** The generator vanishes at 2^0 .. 2^(n-1). */
  lemma {:induction false} GeneratorRoots(n: nat, i: nat)
    requires i < n
    ensures Eval(Generator(n), Pow2(i)) == 0
  {
    hide Add, Mul;
    var x := Pow2(i);
    EvalTimesRoot(Generator(n - 1), Pow2(n - 1), x);
    if i < n - 1 {
      GeneratorRoots(n - 1, i);
      MulZero(Add(x, Pow2(n - 1)));
    } else {
      Cancel(x, x);
      MulZero(Eval(Generator(n - 1), x));
    }
  }

  lemma {:induction false} GeneratorMonic(n: nat)
    ensures Generator(n)[0] == 1
  {
    hide Add, Mul;
    if n > 0 {
      GeneratorMonic(n - 1);
      var p, r := Generator(n - 1), Pow2(n - 1);
      assert (p + [0])[0] == 1 && ([0] + p)[0] == 0;
      MulZero(r);
      AddLaws(1, 0, 0);
    }
  }

  /** The generator of degree n without its leading 1. */
  function Divisor(n: nat): (d: Poly)
    ensures |d| == n
  {
    Generator(n)[1..]
  }

  /** The coefficient of x^(n-1-j) in p, where p's lowest stands at n-1. */
  function At(p: Poly, n: nat, j: nat): byte
    requires j < n
  {
    if j + |p| < n then 0 else p[j + |p| - n]
  }

  lemma AtTimesRoot(p: Poly, r: byte, n: nat, j: nat)
    requires j < n
    ensures At(TimesRoot(p, r), n, j) == if j + 1 < n then Add(Mul(At(p, n, j), r), At(p, n, j + 1))
            else Mul(At(p, n, j), r)
  {
    hide Add, Mul;
    MulZero(r);
    AddLaws(0, 0, 0);
    if j + |p| + 1 >= n {
      var at := j + |p| + 1 - n;
      AddLaws((p + [0])[at], Mul(([0] + p)[at], r), 0);
      AddLaws(Mul(([0] + p)[at], r), 0, 0);
    }
  }

  /** The generator's coefficients, multiplied by one root at a time in place. */
  method QrDivisor(n: nat) returns (out: array<byte>)
    requires n > 0
    ensures fresh(out) && out[..] == Divisor(n)
  {
    hide Add, Mul, Generator, TimesRoot;
    out := new byte[n](_ => 0);
    out[n - 1] := 1;
    assert Generator(0) == [1] by { GeneratorStep(0); }
    var root: byte := 1;
    var i := 0;
    while i < n
      invariant 0 <= i <= n
      invariant root == Pow2(i)
      invariant forall k :: 0 <= k < n ==> out[k] == At(Generator(i), n, k)
    {
      ghost var p := Generator(i);
      GeneratorStep(i + 1);
      var j := 0;
      while j < n
        invariant 0 <= j <= n
        invariant forall k :: 0 <= k < j ==> out[k] == At(TimesRoot(p, root), n, k)
        invariant forall k :: j <= k < n ==> out[k] == At(p, n, k)
      {
        AtTimesRoot(p, root, n, j);
        var m := QrMul(out[j], root);
        out[j] := m;
        if j + 1 < n {
          out[j] := Add(out[j], out[j + 1]);
        }
        j := j + 1;
      }
      root := QrMul(root, 2);
      i := i + 1;
    }
    assert out[..] == Divisor(n);
  }

  lemma GeneratorStep(n: nat)
    ensures Generator(n) == if n == 0 then [1] else TimesRoot(Generator(n - 1), Pow2(n - 1))
  {
    hide Add, Mul;
  }

  // ---------- The remainder

  function RemainderStep(r: Poly, divisor: Poly, b: byte): (s: Poly)
    requires |r| == |divisor| > 0
    ensures |s| == |r|
  {
    Sum(r[1..] + [0], Scaled(divisor, Add(b, r[0])))
  }

  /** What is left of data times x^n after division by the monic polynomial ending in divisor. */
  function Remainder(data: Poly, divisor: Poly): (r: Poly)
    requires |divisor| > 0
    ensures |r| == |divisor|
  {
    if data == [] then Zeros(|divisor|)
    else RemainderStep(Remainder(data[..|data| - 1], divisor), divisor, data[|data| - 1])
  }

  lemma RemainderAppend(data: Poly, divisor: Poly, t: nat)
    requires |divisor| > 0 && t < |data|
    ensures Remainder(data[..t + 1], divisor) == RemainderStep(Remainder(data[..t], divisor), divisor, data[t])
  {
    hide Add, Mul, RemainderStep;
    assert data[..t + 1][..t] == data[..t];
  }

  /** One codeword in: the register is shifted, and the divisor times the codeword that fell out is added. */
  method Divide(out: array<byte>, divisor: array<byte>, b: byte)
    requires out.Length == divisor.Length > 0 && out != divisor
    modifies out
    ensures out[..] == RemainderStep(old(out[..]), divisor[..], b)
  {
    hide Add, Mul;
    var n := out.Length;
    var factor := Add(b, out[0]);
    forall i | 0 <= i < n - 1 {
      out[i] := out[i + 1];
    }
    out[n - 1] := 0;
    ghost var shifted := old(out[..])[1..] + [0];
    var i := 0;
    while i < n
      invariant 0 <= i <= n
      invariant forall k :: 0 <= k < i ==> out[k] == Add(shifted[k], Mul(divisor[k], factor))
      invariant forall k :: i <= k < n ==> out[k] == shifted[k]
    {
      var m := QrMul(divisor[i], factor);
      out[i] := Add(out[i], m);
      i := i + 1;
    }
    assert out[..] == RemainderStep(old(out[..]), divisor[..], b);
  }

  /** The division loop over a block. */
  method QrRemainder(data: seq<byte>, divisor: array<byte>) returns (out: array<byte>)
    requires divisor.Length > 0
    ensures fresh(out) && out[..] == Remainder(data, divisor[..])
  {
    hide Add, Mul, RemainderStep;
    var n := divisor.Length;
    out := new byte[n](_ => 0);
    assert out[..] == Zeros(n);
    var t := 0;
    while t < |data|
      invariant 0 <= t <= |data|
      invariant fresh(out) && out.Length == n
      invariant out[..] == Remainder(data[..t], divisor[..])
    {
      Divide(out, divisor, data[t]);
      RemainderAppend(data, divisor[..], t);
      t := t + 1;
    }
    assert data[..|data|] == data;
  }

  /** Where the monic divisor is zero, its lower part is the leading power. */
  lemma DivisorAtRoot(divisor: Poly, x: byte)
    requires Eval([1] + divisor, x) == 0
    ensures Eval(divisor, x) == Pow(x, |divisor|)
  {
    hide Add, Mul, Eval, Pow;
    EvalLead(1, divisor, x);
    MulOne(Pow(x, |divisor|));
    Cancel(Pow(x, |divisor|), Eval(divisor, x));
  }

  lemma StepAtRoot(r: Poly, divisor: Poly, b: byte, x: byte)
    requires |r| == |divisor| > 0
    requires Eval([1] + divisor, x) == 0
    ensures Eval(RemainderStep(r, divisor, b), x) == Add(Mul(Eval(r[1..], x), x), Mul(Add(b, r[0]), Pow(x, |r|)))
  {
    hide Add, Mul, Eval, Pow, Sum, Scaled;
    var f, tail := Add(b, r[0]), r[1..];
    EvalSum(tail + [0], Scaled(divisor, f), x);
    EvalScaled(divisor, f, x);
    EvalAppend(tail, 0, x);
    AddLaws(Mul(Eval(tail, x), x), 0, 0);
    DivisorAtRoot(divisor, x);
    MulCommutes(Pow(x, |r|), f);
  }

  /** One place further: the polynomial times x. */
  lemma TimesX(r: Poly, x: byte)
    requires |r| > 0
    ensures Mul(Eval(r, x), x) == Add(Mul(r[0], Pow(x, |r|)), Mul(Eval(r[1..], x), x))
  {
    hide Add, Mul, Eval;
    var lead := Pow(x, |r| - 1);
    EvalLead(r[0], r[1..], x);
    assert [r[0]] + r[1..] == r;
    MulDistributes(Mul(r[0], lead), Eval(r[1..], x), x);
    MulAssociates(r[0], lead, x);
    MulCommutes(lead, x);
  }

  lemma StepRoot(r: Poly, divisor: Poly, b: byte, x: byte)
    requires |r| == |divisor| > 0
    requires Eval([1] + divisor, x) == 0
    ensures Eval(RemainderStep(r, divisor, b), x) == Add(Mul(Eval(r, x), x), Mul(b, Pow(x, |r|)))
  {
    hide Add, Mul, Eval, Pow, RemainderStep;
    StepAtRoot(r, divisor, b, x);
    TimesX(r, x);
    var xn, t := Pow(x, |r|), Mul(Eval(r[1..], x), x);
    MulDistributes(b, r[0], xn);
    var u, v := Mul(r[0], xn), Mul(b, xn);
    AddLaws(t, v, u);
    AddLaws(v, u, 0);
    AddLaws(t, u, v);
    AddLaws(t, u, 0);
  }

  lemma {:induction false} RemainderRoot(data: Poly, divisor: Poly, x: byte)
    requires |divisor| > 0
    requires Eval([1] + divisor, x) == 0
    ensures Eval(Remainder(data, divisor), x) == Mul(Eval(data, x), Pow(x, |divisor|))
  {
    hide Add, Mul;
    var n := |divisor|;
    if data == [] {
      EvalZeros(n, x);
      MulZero(Pow(x, n));
    } else {
      var init, b := data[..|data| - 1], data[|data| - 1];
      RemainderRoot(init, divisor, x);
      StepRoot(Remainder(init, divisor), divisor, b, x);
      MulDistributes(Mul(Eval(init, x), x), b, Pow(x, n));
      MulSwap(Eval(init, x), Pow(x, n), x);
    }
  }

  /** A block followed by its error correction codewords. */
  function Codeword(data: Poly, n: nat): (c: Poly)
    requires n > 0
    ensures |c| == |data| + n
  {
    data + Remainder(data, Divisor(n))
  }

  /** A block with its remainder is zero at 2^0 .. 2^(n-1). */
  lemma CodewordRoots(data: Poly, n: nat, i: nat)
    requires i < n
    ensures Eval(Codeword(data, n), Pow2(i)) == 0
  {
    hide Add, Mul;
    var x, d := Pow2(i), Divisor(n);
    GeneratorRoots(n, i);
    GeneratorMonic(n);
    assert [1] + d == Generator(n);
    RemainderRoot(data, d, x);
    EvalConcat(data, Remainder(data, d), x);
    Cancel(Eval(Remainder(data, d), x), Eval(Remainder(data, d), x));
  }
}
