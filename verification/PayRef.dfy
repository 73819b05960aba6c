/**
 * Payment references: an invoice's series and number as an OCR reference, and reading one back (Bankgiro
 * Inbetalningar, sections 5.2.1 to 5.2.3).
 */
module PayRef {
  import opened Luhn

  const MAX_REFERENCE: nat := 25

  const DEFAULT_SERIES: string := "A"

  datatype Result =
    | Ok(ref: string)
    | NotANumber
    | NoSeries
    | BadSeries
    | NotAReference
    | WrongCheckDigit
    | WrongLengthDigit

  // ---------- Decimal numbers

  /** A positive number's decimal digits. */
  function Decimal(n: nat): (s: string)
    requires n > 0
    ensures |s| > 0 && IsDigits(s) && s[0] != '0'
  {
    if n < 10 then [DigitChar(n)] else Decimal(n / 10) + [DigitChar(n % 10)]
  }

  function Number(s: string): nat
    requires IsDigits(s)
  {
    if s == [] then 0 else 10 * Number(s[..|s| - 1]) + Digit(s[|s| - 1])
  }

  lemma {:induction false} NumberOfDecimal(n: nat)
    requires n > 0
    ensures Number(Decimal(n)) == n
  {
    if n < 10 {
      assert Decimal(n)[..0] == [];
    } else {
      NumberOfDecimal(n / 10);
      assert Decimal(n)[..|Decimal(n)| - 1] == Decimal(n / 10);
    }
  }

  // ---------- The reference of an invoice

  /** body, its length digit and its check digit. */
  function Closed(body: string): (ref: string)
    requires IsDigits(body)
    ensures |ref| == |body| + 2 && IsDigits(ref)
  {
    var counted := body + [DigitChar((|body| + 2) % 10)];
    counted + [CheckDigitOf(counted)]
  }

  predicate IsSeriesChar(c: char) {
    'A' <= c <= 'Z' || '0' <= c <= '9'
  }

  predicate IsSeries(s: string) {
    forall i :: 0 <= i < |s| ==> IsSeriesChar(s[i])
  }

  /** A to Z are 10 to 35 and 0 to 9 are 36 to 45. */
  function SeriesCode(c: char): (n: int)
    requires IsSeriesChar(c)
    ensures 10 <= n <= 45
  {
    if 'A' <= c <= 'Z' then c as int - 'A' as int + 10 else c as int - '0' as int + 36
  }

  function TwoDigits(n: int): (s: string)
    requires 10 <= n <= 99
    ensures |s| == 2 && IsDigits(s) && s[0] != '0'
  {
    [DigitChar(n / 10), DigitChar(n % 10)]
  }

  function SeriesDigits(series: string): (s: string)
    requires IsSeries(series)
    ensures |s| == 2 * |series| && IsDigits(s)
  {
    if series == [] then [] else SeriesDigits(series[..|series| - 1]) + TwoDigits(SeriesCode(series[|series| - 1]))
  }

  /**
   * The digits before the length digit: the number alone in the default series, and a 0, the series and a 0 before it
   * in another.
   */
  function Body(series: string, number: nat): (s: string)
    requires number > 0 && IsSeries(series)
    ensures IsDigits(s) && |s| > 0
  {
    if series == DEFAULT_SERIES then Decimal(number) else "0" + SeriesDigits(series) + "0" + Decimal(number)
  }

  /** The reference of an invoice, or why it has none. */
  function Reference(series: string, number: int): Result {
    if number <= 0 then NotANumber
    else if series == [] then NoSeries
    else if !IsSeries(series) then BadSeries
    else if |Body(series, number)| + 2 > MAX_REFERENCE then NotAReference
    else Ok(Closed(Body(series, number)))
  }

  method Ocr(number: int) returns (r: Result)
    ensures r == Reference(DEFAULT_SERIES, number)
  {
    if number <= 0 {
      return NotANumber;
    }
    var n := Decimal(number);
    var length := |n| + 2;
    if length > MAX_REFERENCE {
      return NotAReference;
    }
    var body := n + [DigitChar(length % 10)];
    var check := CheckDigit(body);
    r := Ok(body + [check]);
  }

  /** A 0 and a series' digits, unless a character is no series character. */
  method SpellSeries(series: string) returns (body: string, ok: bool)
    ensures ok <==> IsSeries(series)
    ensures ok ==> body == "0" + SeriesDigits(series)
  {
    hide TwoDigits, SeriesCode;
    body, ok := "0", true;
    for i := 0 to |series|
      invariant IsSeries(series[..i]) && body == "0" + SeriesDigits(series[..i])
    {
      var c := series[i];
      if !('A' <= c <= 'Z' || '0' <= c <= '9') {
        assert !IsSeriesChar(series[i]);
        return body, false;
      }
      assert series[..i + 1][..i] == series[..i];
      body := body + TwoDigits(SeriesCode(c));
    }
    assert series[..|series|] == series;
  }

  method OcrFor(series: string, number: int) returns (r: Result)
    ensures r == Reference(series, number)
  {
    hide SeriesDigits, IsSeries, Decimal, Luhn.CheckDigitOf;
    if series == DEFAULT_SERIES {
      r := Ocr(number);
      return;
    }
    if number <= 0 {
      return NotANumber;
    }
    if series == "" {
      return NoSeries;
    }
    var body, ok := SpellSeries(series);
    if !ok {
      return BadSeries;
    }
    body := body + "0" + Decimal(number);
    var length := |body| + 2;
    if length > MAX_REFERENCE {
      return NotAReference;
    }
    body := body + [DigitChar(length % 10)];
    var check := CheckDigit(body);
    r := Ok(body + [check]);
  }

  // ---------- No two invoices share a reference

  datatype Invoice = Invoice(series: string, number: nat)

  function SeriesChar(n: int): char
    requires 0 <= n <= 99
  {
    if 10 <= n <= 35 then (n - 10 + 'A' as int) as char else if n >= 36 then (n - 36 + '0' as int) as char else ' '
  }

  /** The series and number in the digits after the leading 0, the digits in front of the ending 0 taken two by two. */
  function Unseries(s: string, series: string): Invoice
    requires IsDigits(s)
  {
    if s == [] || s[0] == '0' then Invoice(series, if s == [] then 0 else Number(s[1..]))
    else if |s| == 1 then Invoice(series, 0)
    else Unseries(s[2..], series + [SeriesChar(10 * Digit(s[0]) + Digit(s[1]))])
  }

  /** Which invoice a reference is of. */
  function InvoiceOf(ref: string): Invoice
    requires IsDigits(ref) && |ref| >= 3
  {
    var body := ref[..|ref| - 2];
    if body[0] == '0' then Unseries(body[1..], "") else Invoice(DEFAULT_SERIES, Number(body))
  }

  lemma SeriesCharOfCode(c: char)
    requires IsSeriesChar(c)
    ensures var t := TwoDigits(SeriesCode(c)); SeriesChar(10 * Digit(t[0]) + Digit(t[1])) == c
  {}

  lemma {:induction false} SeriesDigitsFront(series: string)
    requires IsSeries(series) && series != []
    ensures SeriesDigits(series) == TwoDigits(SeriesCode(series[0])) + SeriesDigits(series[1..])
  {
    hide SeriesDigits, TwoDigits, SeriesCode, IsSeriesChar;
    SeriesDigitsLast(series);
    if |series| == 1 {
      assert series[..0] == [] && series[1..] == [];
      assert |SeriesDigits([])| == 0;
    } else {
      SeriesDigitsFront(series[..|series| - 1]);
      SeriesDigitsLast(series[1..]);
      assert series[..|series| - 1][1..] == series[1..][..|series| - 2];
    }
  }

  lemma SeriesDigitsLast(series: string)
    requires IsSeries(series) && series != []
    ensures SeriesDigits(series) == SeriesDigits(series[..|series| - 1]) + TwoDigits(SeriesCode(series[|series| - 1]))
  {}

  lemma {:induction false} UnseriesOfDigits(series: string, before: string, number: nat)
    requires IsSeries(series) && number > 0
    ensures Unseries(SeriesDigits(series) + "0" + Decimal(number), before) == Invoice(before + series, number)
  {
    hide SeriesDigits, SeriesCode, Decimal, SeriesChar, Number;
    if series == [] {
      var s := "0" + Decimal(number);
      assert SeriesDigits(series) + "0" + Decimal(number) == s && s[1..] == Decimal(number);
      NumberOfDecimal(number);
      assert before + series == before;
    } else {
      var c := series[0];
      SeriesDigitsFront(series);
      SeriesCharOfCode(c);
      var t := TwoDigits(SeriesCode(c));
      var rest := SeriesDigits(series[1..]) + "0" + Decimal(number);
      var s := t + rest;
      assert SeriesDigits(series) + "0" + Decimal(number) == s;
      assert s[0] == t[0] && s[1] == t[1] && s[2..] == rest;
      UnseriesOfDigits(series[1..], before + [c], number);
      assert before + [c] + series[1..] == before + series;
    }
  }

  /** An issued reference says which invoice it is of. */
  lemma ReferenceNamesInvoice(series: string, number: int)
    requires Reference(series, number).Ok?
    ensures InvoiceOf(Reference(series, number).ref) == Invoice(series, number)
  {
    hide SeriesDigits, Decimal, Number, Unseries, Body, IsSeriesChar, Luhn.CheckDigitOf;
    var body := Body(series, number);
    ClosedFront(body);
    if series == DEFAULT_SERIES {
      BodyOfNumber(number);
      NumberOfDecimal(number);
    } else {
      BodyOfSeries(series, number);
      UnseriesOfDigits(series, "", number);
      assert "" + series == series;
    }
  }

  lemma ClosedFront(body: string)
    requires IsDigits(body)
    ensures |Closed(body)| == |body| + 2 && Closed(body)[..|body|] == body
  {}

  lemma BodyOfNumber(number: nat)
    requires number > 0
    ensures Body(DEFAULT_SERIES, number) == Decimal(number) && Decimal(number)[0] != '0'
  {}

  lemma BodyOfSeries(series: string, number: nat)
    requires number > 0 && IsSeries(series) && series != DEFAULT_SERIES
    ensures Body(series, number)[0] == '0' && Body(series, number)[1..] == SeriesDigits(series) + "0" + Decimal(number)
  {}

  /** Two invoices never share a reference. */
  lemma ReferencesDiffer(series: string, number: int, series': string, number': int)
    requires Reference(series, number).Ok? && Reference(series, number) == Reference(series', number')
    ensures series == series' && number == number'
  {
    ReferenceNamesInvoice(series, number);
    ReferenceNamesInvoice(series', number');
  }

  // ---------- Reading a reference somebody typed

  /** White space as Unicode has it. */
  predicate IsSpace(c: char) {
    var n := c as int;
    0x09 <= n <= 0x0D || n == 0x20 || n == 0x85 || n == 0xA0 || n == 0x1680 || 0x2000 <= n <= 0x200A ||
    n == 0x2028 || n == 0x2029 || n == 0x202F || n == 0x205F || n == 0x3000
  }

  function TrimLeft(s: string): string {
    if s != [] && IsSpace(s[0]) then TrimLeft(s[1..]) else s
  }

  function TrimSpace(s: string): string {
    var t := TrimLeft(s);
    TrimRight(t)
  }

  function TrimRight(s: string): string {
    if s != [] && IsSpace(s[|s| - 1]) then TrimRight(s[..|s| - 1]) else s
  }

  /** s without its spaces and hyphens. */
  function Squeezed(s: string): string {
    if s == [] then [] else Kept(s[0]) + Squeezed(s[1..])
  }

  function Kept(c: char): string {
    if c == ' ' || c == '-' then [] else [c]
  }

  /** s without its leading zeros. */
  function Bare(s: string): (t: string)
    ensures t == [] || t[0] != '0'
  {
    if s != [] && s[0] == '0' then Bare(s[1..]) else s
  }

  /** A reference of a possible length whose length digit gives that length. */
  predicate LengthFits(ref: string)
    requires IsDigits(ref)
  {
    3 <= |ref| <= MAX_REFERENCE && Digit(ref[|ref| - 2]) == |ref| % 10
  }

  function Read(typed: string): Result {
    var s := Squeezed(TrimSpace(typed));
    if |s| < 2 || |s| > MAX_REFERENCE || !IsDigits(s) then NotAReference
    else if !Passes(s) then WrongCheckDigit
    else
      var bare := Bare(s);
      BareDigits(s);
      if LengthFits(bare) then Ok(bare)
      else if LengthFits("0" + bare) then Ok("0" + bare)
      else WrongLengthDigit
  }

  lemma {:induction false} BareDigits(s: string)
    requires IsDigits(s)
    ensures IsDigits(Bare(s)) && |Bare(s)| <= |s|
    ensures s == Zeros(|s| - |Bare(s)|) + Bare(s)
  {
    if s != [] && s[0] == '0' {
      BareDigits(s[1..]);
      assert s == ['0'] + s[1..];
    }
  }

  method OnlyDigits(s: string) returns (ok: bool)
    ensures ok <==> IsDigits(s)
  {
    hide IsDigit;
    for i := 0 to |s|
      invariant IsDigits(s[..i])
    {
      NotADigit(s[i]);
      if s[i] < '0' || s[i] > '9' {
        return false;
      }
    }
    assert s[..|s|] == s;
    return true;
  }

  lemma NotADigit(c: char)
    ensures IsDigit(c) <==> !(c < '0' || c > '9')
  {}

  method CheckOcr(typed: string) returns (r: Result)
    ensures r == Read(typed)
  {
    hide Squeezed, TrimSpace, CheckDigitOf, Bare, LengthFits, IsDigit;
    var s := Squeezed(TrimSpace(typed));
    if |s| < 2 || |s| > MAX_REFERENCE {
      return NotAReference;
    }
    var digits := OnlyDigits(s);
    if !digits {
      return NotAReference;
    }
    var check := CheckDigit(s[..|s| - 1]);
    if check != s[|s| - 1] {
      return WrongCheckDigit;
    }
    BareDigits(s);
    r := FittingLength(Bare(s));
  }

  /** The reference as typed without its zeros, or with the one a series puts in front. */
  method FittingLength(bare: string) returns (r: Result)
    requires IsDigits(bare)
    ensures r == if LengthFits(bare) then Ok(bare)
                 else if LengthFits("0" + bare) then Ok("0" + bare)
                 else WrongLengthDigit
  {
    var refs := [bare, "0" + bare];
    for i := 0 to 2
      invariant i > 0 ==> !LengthFits(bare)
      invariant i > 1 ==> !LengthFits("0" + bare)
    {
      var ref := refs[i];
      if |ref| >= 3 && |ref| <= MAX_REFERENCE && Digit(ref[|ref| - 2]) == |ref| % 10 {
        return Ok(ref);
      }
    }
    return WrongLengthDigit;
  }

  lemma {:induction false} BareOfZeros(k: nat, s: string)
    requires s == [] || s[0] != '0'
    ensures Bare(Zeros(k) + s) == s
  {
    if k == 0 {
      assert Zeros(0) + s == s;
    } else {
      BareOfZeros(k - 1, s);
      assert (Zeros(k) + s)[1..] == Zeros(k - 1) + s;
    }
  }

  /** A reference as issued: it passes, its length digit fits, and it starts with at most one 0. */
  predicate IsCanonical(ref: string) {
    IsDigits(ref) && LengthFits(ref) && Passes(ref) && (ref == Bare(ref) || ref == "0" + Bare(ref))
  }

  /** The length digit cannot fit both with and without a leading 0. */
  lemma OneLengthFits(bare: string)
    requires IsDigits(bare)
    ensures IsDigits("0" + bare) && !(LengthFits(bare) && LengthFits("0" + bare))
  {
    if |bare| >= 2 {
      assert ("0" + bare)[|bare| - 1] == bare[|bare| - 2];
    }
  }

  /**
   * Whatever number of leading zeros a canonical reference has lost or gained, it is read as itself, and nothing else
   * is.
   */
  lemma ReadExactly(typed: string, ref: string)
    requires IsCanonical(ref)
    ensures Read(typed) == Ok(ref) <==>
            var s := Squeezed(TrimSpace(typed));
            |s| <= MAX_REFERENCE && exists k :: s == Zeros(k) + Bare(ref)
  {
    var s := Squeezed(TrimSpace(typed));
    var bare := Bare(ref);
    hide Squeezed, TrimSpace, Passes, Bare, LengthFits;
    BareDigits(ref);
    CanonicalBare(ref);
    OneLengthFits(bare);
    if k :| s == Zeros(k) + bare {
      BareOfZeros(k, bare);
      LeadingZerosIgnored(bare, k);
    }
    if Read(typed) == Ok(ref) {
      BareDigits(s);
      SameBare(Bare(s), ref);
    }
  }

  lemma CanonicalBare(ref: string)
    requires IsCanonical(ref)
    ensures Bare(ref) == [] || Bare(ref)[0] != '0'
    ensures IsDigits(Bare(ref)) && |Bare(ref)| >= 2 && Passes(Bare(ref))
    ensures LengthFits(Bare(ref)) ==> ref == Bare(ref)
    ensures !LengthFits(Bare(ref)) ==> ref == "0" + Bare(ref)
  {
    BareDigits(ref);
    var bare := Bare(ref);
    OneLengthFits(bare);
    if ref != bare {
      assert Zeros(1) + bare == "0" + bare;
      LeadingZerosIgnored(bare, 1);
    }
  }

  lemma SameBare(bare: string, ref: string)
    requires (bare == [] || bare[0] != '0') && (ref == bare || ref == "0" + bare)
    ensures Bare(ref) == bare
  {
    BareOfZeros(0, bare);
    BareOfZeros(1, bare);
    assert Zeros(0) + bare == bare && Zeros(1) + bare == "0" + bare;
  }

  /** Every issued reference is canonical. */
  lemma IssuedIsCanonical(series: string, number: int)
    requires Reference(series, number).Ok?
    ensures IsCanonical(Reference(series, number).ref)
  {
    var body := Body(series, number);
    var ref := Closed(body);
    assert ref[|ref| - 2] == DigitChar(|ref| % 10);
    var counted := body + [DigitChar(|ref| % 10)];
    assert ref[..|ref| - 1] == counted;
    if series == DEFAULT_SERIES {
      assert ref[0] != '0';
    } else {
      SecondDigit(series, number);
      assert ref[0] == '0' && ref[1] != '0';
      assert ref == "0" + ref[1..] && Bare(ref) == Bare(ref[1..]) == ref[1..];
    }
  }

  lemma SecondDigit(series: string, number: nat)
    requires number > 0 && IsSeries(series) && series != [] && series != DEFAULT_SERIES
    ensures |Body(series, number)| > 1 && Body(series, number)[0] == '0' && Body(series, number)[1] != '0'
  {
    SeriesDigitsFront(series);
    var t := TwoDigits(SeriesCode(series[0]));
    assert Body(series, number)[1] == t[0];
  }

  /** What somebody types: digits, with spaces and hyphens anywhere among them. */
  predicate IsTyped(typed: string) {
    forall i :: 0 <= i < |typed| ==> IsDigit(typed[i]) || typed[i] == ' ' || typed[i] == '-'
  }

  lemma {:induction false} TrimmedLeft(typed: string)
    requires IsTyped(typed)
    ensures IsTyped(TrimLeft(typed)) && Squeezed(TrimLeft(typed)) == Squeezed(typed)
  {
    if typed != [] && IsSpace(typed[0]) {
      TrimmedLeft(typed[1..]);
    }
  }

  lemma {:induction false} SqueezedLast(s: string)
    requires s != []
    ensures Squeezed(s) == Squeezed(s[..|s| - 1]) + Kept(s[|s| - 1])
  {
    hide Squeezed, Kept;
    SqueezedFirst(s);
    if |s| == 1 {
      NothingSqueezed();
      assert s[1..] == [] && s[..0] == [];
    } else {
      SqueezedLast(s[1..]);
      SqueezedFirst(s[..|s| - 1]);
      assert s[1..][..|s| - 2] == s[..|s| - 1][1..];
    }
  }

  lemma SqueezedFirst(s: string)
    requires s != []
    ensures Squeezed(s) == Kept(s[0]) + Squeezed(s[1..])
  {}

  lemma NothingSqueezed()
    ensures Squeezed([]) == []
  {}

  lemma {:induction false} TrimmedRight(typed: string)
    requires IsTyped(typed)
    ensures Squeezed(TrimRight(typed)) == Squeezed(typed)
  {
    if typed != [] && IsSpace(typed[|typed| - 1]) {
      TrimmedRight(typed[..|typed| - 1]);
      SqueezedLast(typed);
    }
  }

  /** An issued reference is read back from however it was spaced, with its leading 0 dropped or zeros put in front. */
  lemma IssuedReferenceRead(series: string, number: int, typed: string, k: nat)
    requires Reference(series, number).Ok? && IsTyped(typed)
    requires Squeezed(typed) == Zeros(k) + Bare(Reference(series, number).ref) && |Squeezed(typed)| <= MAX_REFERENCE
    ensures Read(typed) == Reference(series, number)
  {
    hide Squeezed, TrimLeft, TrimRight, Bare, IsCanonical, Reference;
    TrimmedLeft(typed);
    TrimmedRight(TrimLeft(typed));
    IssuedIsCanonical(series, number);
    ReadExactly(typed, Reference(series, number).ref);
  }

  // ---------- What is refused

  /** What is read is a reference as issued. */
  lemma ReadIsCanonical(typed: string)
    requires Read(typed).Ok?
    ensures IsCanonical(Read(typed).ref)
  {
    var s := Squeezed(TrimSpace(typed));
    hide Squeezed, TrimSpace, Passes, Bare;
    BareDigits(s);
    var bare, ref := Bare(s), Read(typed).ref;
    LeadingZerosBare(s);
    SameBare(bare, ref);
    assert bare != [];
    if ref != bare {
      assert Zeros(1) + bare == "0" + bare;
      LeadingZerosIgnored(bare, 1);
    }
  }

  /** The verdict is that of the digits without their leading zeros. */
  lemma LeadingZerosBare(s: string)
    requires IsDigits(s) && s != [] && Passes(s)
    ensures IsDigits(Bare(s)) && (Bare(s) != [] ==> Passes(Bare(s)))
  {
    BareDigits(s);
    if Bare(s) != [] {
      LeadingZerosIgnored(Bare(s), |s| - |Bare(s)|);
    }
  }

  /** A reference as issued, with leading zeros lost or added. */
  ghost predicate IsReferenceWithZeros(s: string) {
    exists ref, k :: IsCanonical(ref) && s == Zeros(k) + Bare(ref)
  }

  lemma LengthFitsOrNot(typed: string)
    requires var s := Squeezed(TrimSpace(typed)); 2 <= |s| <= MAX_REFERENCE && IsDigits(s) && Passes(s)
    ensures Read(typed).Ok? <==> IsReferenceWithZeros(Squeezed(TrimSpace(typed)))
  {
    var s := Squeezed(TrimSpace(typed));
    hide Squeezed, TrimSpace, Passes, Bare, LengthFits, IsCanonical;
    if Read(typed).Ok? {
      var ref := Read(typed).ref;
      ReadIsCanonical(typed);
      ReadExactly(typed, ref);
    }
    if ref, k :| IsCanonical(ref) && s == Zeros(k) + Bare(ref) {
      ReadExactly(typed, ref);
    }
  }

  /**
   * What is typed, squeezed, is refused as no reference exactly when it is not 2 to 25 digits; for its check digit
   * exactly when it is and its weighed sum is no multiple of ten; for its length digit exactly when that is one but no
   * reference as issued is it up to leading zeros; and for nothing else.
   */
  lemma ReadRefuses(typed: string)
    ensures var s := Squeezed(TrimSpace(typed));
            (Read(typed).NotAReference? <==> !(2 <= |s| <= 25 && IsDigits(s))) &&
            (Read(typed).WrongCheckDigit? <==> 2 <= |s| <= 25 && IsDigits(s) && WeighedSum(s, 1) % 10 != 0) &&
            (Read(typed).WrongLengthDigit? <==>
             2 <= |s| <= 25 && IsDigits(s) && WeighedSum(s, 1) % 10 == 0 && !IsReferenceWithZeros(s)) &&
            (Read(typed).Ok? <==>
             2 <= |s| <= 25 && IsDigits(s) && WeighedSum(s, 1) % 10 == 0 && IsReferenceWithZeros(s))
  {
    var s := Squeezed(TrimSpace(typed));
    hide Squeezed, TrimSpace, Passes, Bare, LengthFits, IsReferenceWithZeros, WeighedSum;
    if 2 <= |s| <= 25 && IsDigits(s) {
      PassesIsMultipleOfTen(s);
      if Passes(s) {
        LengthFitsOrNot(typed);
      }
    }
  }

  /** When an invoice has no reference, and how long it is when it has one. */
  lemma ReferenceRefuses(series: string, number: int)
    ensures Reference(series, number).NotANumber? <==> number <= 0
    ensures Reference(series, number).NoSeries? <==> number > 0 && series == ""
    ensures Reference(series, number).BadSeries? <==>
            number > 0 && exists i :: 0 <= i < |series| && !('A' <= series[i] <= 'Z' || '0' <= series[i] <= '9')
    ensures number > 0 && series != "" && IsSeries(series) ==>
              var length := |Decimal(number)| + (if series == "A" then 2 else 2 * |series| + 4);
              if length > 25 then Reference(series, number).NotAReference?
              else Reference(series, number).Ok? && |Reference(series, number).ref| == length
  {
    hide SeriesDigits, Decimal, Luhn.CheckDigitOf;
    if exists i :: 0 <= i < |series| && !('A' <= series[i] <= 'Z' || '0' <= series[i] <= '9') {
      var i :| 0 <= i < |series| && !('A' <= series[i] <= 'Z' || '0' <= series[i] <= '9');
      assert !IsSeriesChar(series[i]);
    }
    assert IsSeries(series) <==>
           forall i :: 0 <= i < |series| ==> 'A' <= series[i] <= 'Z' || '0' <= series[i] <= '9' by {
      assert forall i :: 0 <= i < |series| ==>
        (IsSeriesChar(series[i]) <==> 'A' <= series[i] <= 'Z' || '0' <= series[i] <= '9');
    }
  }

  // ---------- What squeezing and trimming keep

  lemma {:induction false} SqueezedConcat(a: string, b: string)
    ensures Squeezed(a + b) == Squeezed(a) + Squeezed(b)
  {
    if a == [] {
      assert a + b == b;
    } else {
      SqueezedConcat(a[1..], b);
      assert (a + b)[1..] == a[1..] + b;
    }
  }

  /** Spaces and hyphens go, every other character stays. */
  lemma SqueezedOne(c: char)
    ensures Squeezed([c]) == if c == ' ' || c == '-' then "" else [c]
  {}

  predicate AllSpace(s: string) {
    forall i :: 0 <= i < |s| ==> IsSpace(s[i])
  }

  lemma {:induction false} TrimLeftIs(a: string, s: string)
    requires AllSpace(a) && (s == [] || !IsSpace(s[0]))
    ensures TrimLeft(a + s) == s
  {
    hide IsSpace;
    if a == [] {
      assert a + s == s;
    } else {
      TrimLeftIs(a[1..], s);
      assert (a + s)[1..] == a[1..] + s;
    }
  }

  lemma {:induction false} TrimRightIs(s: string, b: string)
    requires AllSpace(b) && (s == [] || !IsSpace(s[|s| - 1]))
    ensures TrimRight(s + b) == s
  {
    hide IsSpace;
    if b == [] {
      assert s + b == s;
    } else {
      TrimRightIs(s, b[..|b| - 1]);
      assert (s + b)[..|s + b| - 1] == s + b[..|b| - 1];
    }
  }

  /** White space around a text that neither starts nor ends with any is what is trimmed. */
  lemma TrimSpaceIs(a: string, s: string, b: string)
    requires AllSpace(a) && AllSpace(b) && s != [] && !IsSpace(s[0]) && !IsSpace(s[|s| - 1])
    ensures TrimSpace(a + s + b) == s
  {
    hide IsSpace;
    assert a + s + b == a + (s + b);
    TrimLeftIs(a, s + b);
    TrimRightIs(s, b);
  }

  /** White space: the ASCII controls from tab to return, and Unicode's spaces and separators. */
  lemma WhiteSpace(c: char)
    ensures IsSpace(c) <==>
            c in "\t\n\r \U{000B}\U{000C}\U{0085}\U{00A0}\U{1680}\U{2000}\U{2001}\U{2002}\U{2003}\U{2004}" ||
            c in "\U{2005}\U{2006}\U{2007}\U{2008}\U{2009}\U{200A}\U{2028}\U{2029}\U{202F}\U{205F}\U{3000}"
  {}
}
