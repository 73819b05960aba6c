/** The modulus 10 check digit (Bankgirot's "10-modul", the Luhn algorithm), and what it catches. */
module Luhn {

  predicate IsDigit(c: char) {
    '0' <= c <= '9'
  }

  predicate IsDigits(s: string) {
    forall i :: 0 <= i < |s| ==> IsDigit(s[i])
  }

  function Digit(c: char): (d: int)
    requires IsDigit(c)
    ensures 0 <= d <= 9
  {
    c as int - '0' as int
  }

  function DigitChar(d: int): (c: char)
    requires 0 <= d <= 9
    ensures IsDigit(c) && Digit(c) == d
  {
    (d + '0' as int) as char
  }

  /** What a digit counts for at a place from the right: every other one twice, a two-digit product's digits added. */
  function Weighed(d: int, place: nat): (w: int)
    requires 0 <= d <= 9
    ensures 0 <= w <= 9
  {
    if place % 2 == 0 then (if 2 * d > 9 then 2 * d - 9 else 2 * d) else d
  }

  /** The weighed sum of s, whose last digit stands at the given place. */
  function WeighedSum(s: string, place: nat): nat
    requires IsDigits(s)
  {
    if s == [] then 0 else Weighed(Digit(s[0]), |s| - 1 + place) + WeighedSum(s[1..], place)
  }

  /** The check digit takes the weighed sum up to the next ten. */
  function CheckDigitOf(s: string): (c: char)
    requires IsDigits(s)
    ensures IsDigit(c)
  {
    DigitChar((10 - WeighedSum(s, 0) % 10) % 10)
  }

  method CheckDigit(digits: string) returns (c: char)
    requires IsDigits(digits)
    ensures c == CheckDigitOf(digits)
  {
    var n, sum, i := |digits|, 0, 0;
    while i < n
      invariant 0 <= i <= n
      invariant sum == WeighedSum(digits[n - i..], 0)
    {
      var d := Digit(digits[n - 1 - i]);
      if i % 2 == 0 {
        d := d * 2;
        if d > 9 {
          d := d - 9;
        }
      }
      assert digits[n - 1 - i..][1..] == digits[n - i..];
      sum := sum + d;
      i := i + 1;
    }
    assert digits[0..] == digits;
    c := DigitChar((10 - sum % 10) % 10);
  }

  /** A string whose last digit is the check digit of those before it. */
  predicate Passes(s: string)
    requires IsDigits(s)
  {
    s != [] && CheckDigitOf(s[..|s| - 1]) == s[|s| - 1]
  }

  lemma {:induction false} WeighedSumLast(s: string, place: nat)
    requires IsDigits(s) && s != []
    ensures WeighedSum(s, place) == WeighedSum(s[..|s| - 1], place + 1) + Weighed(Digit(s[|s| - 1]), place)
  {
    if |s| == 1 {
      assert s[1..] == [] && s[..0] == [];
    } else {
      WeighedSumLast(s[1..], place);
      assert s[1..][..|s| - 2] == s[..|s| - 1][1..];
    }
  }

  lemma {:induction false} WeighedSumParity(s: string, place: nat)
    requires IsDigits(s)
    ensures WeighedSum(s, place + 2) == WeighedSum(s, place)
  {
    if s != [] {
      WeighedSumParity(s[1..], place);
    }
  }

  lemma SameDigit(a: char, b: char)
    requires IsDigit(a) && IsDigit(b)
    ensures Digit(a) == Digit(b) <==> a == b
  {}

  lemma Completes(sum: nat, d: int)
    requires 0 <= d <= 9
    ensures (10 - sum % 10) % 10 == d <==> (sum + d) % 10 == 0
  {}

  lemma MultipleChanged(sum: int, change: int)
    requires sum % 10 == 0
    ensures (sum + change) % 10 == 0 <==> change % 10 == 0
  {}

  /** A string passes when its whole weighed sum, the check digit counted once, is a multiple of ten. */
  lemma PassesIsMultipleOfTen(s: string)
    requires IsDigits(s) && s != []
    ensures Passes(s) <==> WeighedSum(s, 1) % 10 == 0
  {
    hide WeighedSum, Weighed, Digit, IsDigit, DigitChar;
    var body, last := s[..|s| - 1], s[|s| - 1];
    WeighedSumLast(s, 1);
    WeighedSumParity(body, 0);
    CountedOnce(Digit(last));
    Completes(WeighedSum(body, 0), Digit(last));
    SameDigit(CheckDigitOf(body), last);
  }

  lemma CountedOnce(d: int)
    requires 0 <= d <= 9
    ensures Weighed(d, 1) == d
  {}

  lemma {:induction false} WeighedSumUpdate(s: string, k: nat, c: char, place: nat)
    requires IsDigits(s) && k < |s| && IsDigit(c)
    ensures IsDigits(s[k := c])
    ensures WeighedSum(s[k := c], place) ==
            WeighedSum(s, place) - Weighed(Digit(s[k]), |s| - 1 - k + place) + Weighed(Digit(c), |s| - 1 - k + place)
  {
    if k == 0 {
      assert s[k := c][1..] == s[1..];
    } else {
      WeighedSumUpdate(s[1..], k - 1, c, place);
      assert s[k := c][1..] == s[1..][k - 1 := c];
    }
  }

  /** Two different digits count differently at any place. */
  lemma WeighedApart(d: int, e: int, place: nat)
    requires 0 <= d <= 9 && 0 <= e <= 9 && d != e
    ensures (Weighed(e, place) - Weighed(d, place)) % 10 != 0
  {}

  /** Changing any one digit makes a string that passes fail. */
  lemma OneDigitChanged(s: string, k: nat, c: char)
    requires IsDigits(s) && k < |s| && IsDigit(c) && c != s[k]
    requires Passes(s)
    ensures IsDigits(s[k := c]) && !Passes(s[k := c])
  {
    hide WeighedSum, Weighed, Digit, Passes;
    var place := |s| - k;
    WeighedSumUpdate(s, k, c, 1);
    PassesIsMultipleOfTen(s);
    PassesIsMultipleOfTen(s[k := c]);
    SameDigit(s[k], c);
    WeighedApart(Digit(s[k]), Digit(c), place);
    MultipleChanged(WeighedSum(s, 1), Weighed(Digit(c), place) - Weighed(Digit(s[k]), place));
  }

  function Swapped(s: string, k: nat): (t: string)
    requires k + 1 < |s|
    ensures |t| == |s|
  {
    s[k := s[k + 1]][k + 1 := s[k]]
  }

  lemma UpdatedAt(s: string, k: nat, c: char, place: nat)
    requires IsDigits(s) && k < |s| && IsDigit(c) && place == |s| - k
    ensures IsDigits(s[k := c])
    ensures WeighedSum(s[k := c], 1) == WeighedSum(s, 1) - Weighed(Digit(s[k]), place) + Weighed(Digit(c), place)
  {
    hide WeighedSum, Weighed, Digit, IsDigit;
    WeighedSumUpdate(s, k, c, 1);
  }

  lemma UpdatedTwice(s: string, k: nat, place: nat)
    requires IsDigits(s) && k + 1 < |s| && place == |s| - 1 - k
    ensures IsDigits(s[k := s[k + 1]][k + 1 := s[k]])
    ensures WeighedSum(s[k := s[k + 1]][k + 1 := s[k]], 1) ==
            WeighedSum(s, 1) + Weighed(Digit(s[k + 1]), place + 1) + Weighed(Digit(s[k]), place)
            - Weighed(Digit(s[k]), place + 1) - Weighed(Digit(s[k + 1]), place)
  {
    DigitsAt(s, k);
    DigitsAt(s, k + 1);
    hide WeighedSum, Weighed, Digit, IsDigit, IsDigits;
    var a, b := s[k], s[k + 1];
    var t := s[k := b];
    UpdatedAt(s, k, b, place + 1);
    var u := t[k + 1 := a];
    assert t[k + 1] == b && |t| == |s|;
    UpdatedAt(t, k + 1, a, place);
    assert WeighedSum(u, 1) == WeighedSum(t, 1) - Weighed(Digit(b), place) + Weighed(Digit(a), place);
    assert WeighedSum(t, 1) == WeighedSum(s, 1) - Weighed(Digit(a), place + 1) + Weighed(Digit(b), place + 1);
  }

  lemma SwappedSum(s: string, k: nat)
    requires IsDigits(s) && k + 1 < |s|
    ensures IsDigits(Swapped(s, k))
    ensures WeighedSum(Swapped(s, k), 1) == WeighedSum(s, 1) + SwapChange(Digit(s[k]), Digit(s[k + 1]), |s| - 1 - k)
  {
    hide WeighedSum, Weighed, Digit, IsDigit, IsDigits;
    UpdatedTwice(s, k, |s| - 1 - k);
  }

  lemma DigitsAt(s: string, k: nat)
    requires IsDigits(s) && k < |s|
    ensures IsDigit(s[k])
  {}

  /** Swapping two different neighbours makes a string that passes fail, unless they are 0 and 9. */
  lemma NeighboursSwapped(s: string, k: nat)
    requires IsDigits(s) && k + 1 < |s| && Passes(s)
    ensures IsDigits(Swapped(s, k))
    ensures Passes(Swapped(s, k)) <==> s[k] == s[k + 1] || {s[k], s[k + 1]} == {'0', '9'}
  {
    hide WeighedSum, Weighed, Swapped, SwapChange, Passes;
    var a, b := s[k], s[k + 1];
    SwappedSum(s, k);
    PassesIsMultipleOfTen(s);
    PassesIsMultipleOfTen(Swapped(s, k));
    SwapUnseen(Digit(a), Digit(b), |s| - 1 - k);
    MultipleChanged(WeighedSum(s, 1), SwapChange(Digit(a), Digit(b), |s| - 1 - k));
    NoughtAndNine(a, b);
  }

  lemma NoughtAndNine(a: char, b: char)
    requires IsDigit(a) && IsDigit(b)
    ensures a == b || {a, b} == {'0', '9'} <==>
            Digit(a) == Digit(b) || (Digit(a) == 0 && Digit(b) == 9) || (Digit(a) == 9 && Digit(b) == 0)
  {
    assert a in {a, b} && b in {a, b};
    assert {a, b} == {'0', '9'} ==> a in {'0', '9'} && b in {'0', '9'} && '0' in {a, b} && '9' in {a, b};
  }

  /** How the sum changes when a at a place and b at the place to its right change places. */
  function SwapChange(a: int, b: int, place: nat): int
    requires 0 <= a <= 9 && 0 <= b <= 9 && place > 0
  {
    Weighed(b, place + 1) + Weighed(a, place) - Weighed(a, place + 1) - Weighed(b, place)
  }

  lemma SwapUnseen(a: int, b: int, place: nat)
    requires 0 <= a <= 9 && 0 <= b <= 9 && place > 0
    ensures SwapChange(a, b, place) % 10 == 0 <==> a == b || (a == 0 && b == 9) || (a == 9 && b == 0)
  {
    SwapSizes(a, b, place);
  }

  /** The change is smaller than ten either way, so it is a multiple of ten only when it is nothing. */
  lemma SwapSizes(a: int, b: int, place: nat)
    requires 0 <= a <= 9 && 0 <= b <= 9 && place > 0
    ensures -9 <= SwapChange(a, b, place) <= 9
    ensures SwapChange(a, b, place) == 0 <==> a == b || (a == 0 && b == 9) || (a == 9 && b == 0)
  {}

  function Zeros(n: nat): (s: string)
    ensures |s| == n && IsDigits(s)
  {
    seq(n, _ => '0')
  }

  lemma {:induction false} LeadingZerosWeighNothing(s: string, n: nat, place: nat)
    requires IsDigits(s)
    ensures WeighedSum(Zeros(n) + s, place) == WeighedSum(s, place)
  {
    if n == 0 {
      assert Zeros(0) + s == s;
    } else {
      LeadingZerosWeighNothing(s, n - 1, place);
      assert (Zeros(n) + s)[1..] == Zeros(n - 1) + s;
    }
  }

  /** Leading zeros never change the verdict. */
  lemma LeadingZerosIgnored(s: string, n: nat)
    requires IsDigits(s) && s != []
    ensures Passes(Zeros(n) + s) <==> Passes(s)
  {
    LeadingZerosWeighNothing(s, n, 1);
    PassesIsMultipleOfTen(s);
    PassesIsMultipleOfTen(Zeros(n) + s);
  }

  // ---------- What the weights are

  /** Every other digit from the right counts twice, as the digits of its double; the others count once. */
  lemma WeighedIsDigitSum(d: int, place: nat)
    requires 0 <= d <= 9
    ensures place % 2 == 0 ==> Weighed(d, place) == 2 * d / 10 + 2 * d % 10
    ensures place % 2 == 1 ==> Weighed(d, place) == d
  {}

  /** One more digit in front: its weight depends on how many follow. */
  lemma OneInFront(c: char, s: string, place: nat)
    requires IsDigit(c) && IsDigits(s)
    ensures IsDigits([c] + s)
    ensures WeighedSum([c] + s, place) == Weighed(Digit(c), |s| + place) + WeighedSum(s, place)
  {
    assert ([c] + s)[1..] == s;
  }

  lemma LastFour()
    ensures WeighedSum("4568", 0) == 18
  {
    hide WeighedSum;
    NothingWeighed();
    OneInFront('8', [], 0);
    OneInFront('6', "8", 0);
    OneInFront('5', "68", 0);
    OneInFront('4', "568", 0);
    assert ['8'] + [] == "8" && ['6'] + "8" == "68" && ['5'] + "68" == "568" && ['4'] + "568" == "4568";
  }

  /** Bankgirot's own example: 1234568 has the check digit 2. */
  lemma PublishedExample()
    ensures CheckDigitOf("1234568") == '2'
  {
    hide WeighedSum;
    LastFour();
    OneInFront('3', "4568", 0);
    OneInFront('2', "34568", 0);
    OneInFront('1', "234568", 0);
    assert ['3'] + "4568" == "34568" && ['2'] + "34568" == "234568" && ['1'] + "234568" == "1234568";
  }

  lemma NothingWeighed()
    ensures WeighedSum([], 0) == 0
  {}
}
