/** Decimal numerals as strings. */
module Decimals {
  import opened Arithmetic
  import opened Prelude

  predicate IsDigit(c: char) {
    '0' <= c <= '9'
  }

  predicate AllDigits(s: string) {
    forall i :: 0 <= i < |s| ==> IsDigit(s[i])
  }

  function DigitOf(c: char): nat
    requires IsDigit(c)
  {
    c as int - '0' as int
  }

  function DigitChar(d: nat): (c: char)
    requires d < 10
    ensures IsDigit(c) && DigitOf(c) == d
  {
    ('0' as int + d) as char
  }

  function Pow10(k: nat): (p: nat)
    ensures p >= 1
  {
    if k == 0 then 1 else 10 * Pow10(k - 1)
  }

  /** The value of a run of digits; the empty run is 0, as for BigInt(""). */
  function ParseNat(s: string): nat
    requires AllDigits(s)
  {
    if s == "" then 0 else 10 * ParseNat(s[..|s| - 1]) + DigitOf(s[|s| - 1])
  }

  function ShowNat(n: nat): (s: string)
    ensures s != "" && AllDigits(s)
  {
    if n < 10 then [DigitChar(n)] else ShowNat(n / 10) + [DigitChar(n % 10)]
  }

  function Zeros(k: nat): (s: string)
    ensures |s| == k && AllDigits(s)
    ensures forall i :: 0 <= i < k ==> s[i] == '0'
  {
    seq(k, _ => '0')
  }

  function PadStart(s: string, width: nat): string {
    if |s| < width then Zeros(width - |s|) + s else s
  }

  function PadEnd(s: string, width: nat): string {
    if |s| < width then s + Zeros(width - |s|) else s
  }

  function StripZeros(s: string): (r: string)
    ensures r <= s
    ensures r == "" || r[|r| - 1] != '0'
    ensures forall i :: |r| <= i < |s| ==> s[i] == '0'
  {
    if s != "" && s[|s| - 1] == '0' then StripZeros(s[..|s| - 1]) else s
  }

  lemma {:induction false} ParseShow(n: nat)
    ensures ParseNat(ShowNat(n)) == n
    ensures n > 0 ==> ShowNat(n)[0] != '0'
    ensures n == 0 ==> ShowNat(n) == "0"
  {
    if n >= 10 {
      ParseShow(n / 10);
      assert ShowNat(n)[..|ShowNat(n)| - 1] == ShowNat(n / 10);
    }
  }

  /** Numerals without a superfluous leading zero are exactly the ones printed. */
  lemma ShowParse(s: string)
    requires AllDigits(s) && s != ""
    ensures ShowNat(ParseNat(s)) == s <==> |s| == 1 || s[0] != '0'
  {
    if |s| > 1 && s[0] == '0' {
      ParseShow(ParseNat(s));
    } else {
      ShowParseCanonical(s);
    }
  }

  lemma {:induction false} ShowParseCanonical(s: string)
    requires AllDigits(s) && (|s| == 1 || (s != "" && s[0] != '0'))
    ensures ShowNat(ParseNat(s)) == s
  {
    var t, c := s[..|s| - 1], s[|s| - 1];
    assert s == t + [c];
    if |s| > 1 {
      ShowParseCanonical(t);
      ParsePositive(t);
      assert ParseNat(s) == 10 * ParseNat(t) + DigitOf(c);
    } else {
      assert ParseNat(s) == DigitOf(c);
    }
  }

  lemma {:induction false} ParsePositive(s: string)
    requires AllDigits(s) && s != "" && s[0] != '0'
    ensures ParseNat(s) > 0
  {
    if |s| > 1 {
      ParsePositive(s[..|s| - 1]);
    }
  }

  lemma TenTimes(x: nat, p: nat)
    ensures x * (10 * p) == 10 * (x * p)
  {
  }

  lemma {:induction false} ParseAppend(a: string, b: string)
    requires AllDigits(a) && AllDigits(b)
    ensures AllDigits(a + b) && ParseNat(a + b) == ParseNat(a) * Pow10(|b|) + ParseNat(b)
    decreases |b|
  {
    if b == "" {
      assert a + b == a;
    } else {
      var b', d := b[..|b| - 1], DigitOf(b[|b| - 1]);
      ParseAppend(a, b');
      assert (a + b)[..|a + b| - 1] == a + b';
      TenTimes(ParseNat(a), Pow10(|b'|));
      assert ParseNat(a + b) == 10 * ParseNat(a + b') + d;
      assert ParseNat(b) == 10 * ParseNat(b') + d;
    }
  }

  lemma {:induction false} ParseZeros(k: nat)
    ensures ParseNat(Zeros(k)) == 0
  {
    if k > 0 {
      ParseZeros(k - 1);
      assert Zeros(k)[..k - 1] == Zeros(k - 1);
    }
  }

  lemma {:induction false} ShowIsShort(n: nat, k: nat)
    requires k > 0 && n < Pow10(k)
    ensures |ShowNat(n)| <= k
  {
    if n >= 10 {
      assert Pow10(k) == 10 * Pow10(k - 1);
      if k > 1 {
        ShowIsShort(n / 10, k - 1);
      }
    }
  }

  lemma ParsePadStart(s: string, width: nat)
    requires AllDigits(s)
    ensures AllDigits(PadStart(s, width)) && ParseNat(PadStart(s, width)) == ParseNat(s)
  {
    if |s| < width {
      ParseAppend(Zeros(width - |s|), s);
      ParseZeros(width - |s|);
    }
  }

  lemma {:induction false} Pow10Add(a: nat, b: nat)
    ensures Pow10(a + b) == Pow10(a) * Pow10(b)
  {
    if a > 0 {
      Pow10Add(a - 1, b);
    }
  }

  lemma PadEndDigits(s: string, width: nat)
    requires AllDigits(s) && |s| <= width
    ensures AllDigits(PadEnd(s, width)) && |PadEnd(s, width)| == width
  {
  }

  lemma ParsePadEnd(s: string, width: nat)
    requires AllDigits(s) && |s| <= width
    ensures AllDigits(PadEnd(s, width)) && ParseNat(PadEnd(s, width)) == ParseNat(s) * Pow10(width - |s|)
  {
    ParseAppend(s, Zeros(width - |s|));
    ParseZeros(width - |s|);
    if |s| == width {
      assert s + Zeros(0) == s;
    }
  }

  /** Stripping trailing zeros and padding back restores the digits. */
  lemma StripThenPad(s: string)
    requires AllDigits(s)
    ensures AllDigits(StripZeros(s)) && PadEnd(StripZeros(s), |s|) == s
  {
  }
}

/** Token amounts as strings: parsing what a person types, printing what is stored. */
module TokenAmount {
  import opened Arithmetic
  import opened Prelude
  import opened Decimals

  datatype AmountError = BadFormat | TooLarge

  predicate IsSpace(c: char) {
    || c == ' ' || '\U{0009}' <= c <= '\U{000D}' || c == '\U{00A0}' || c == '\U{1680}'
    || '\U{2000}' <= c <= '\U{200A}' || c == '\U{2028}' || c == '\U{2029}' || c == '\U{202F}'
    || c == '\U{205F}' || c == '\U{3000}' || c == '\U{FEFF}'
  }

  function Trim(s: string): string {
    if s != "" && IsSpace(s[0]) then Trim(s[1..])
    else if s != "" && IsSpace(s[|s| - 1]) then Trim(s[..|s| - 1])
    else s
  }

  /** The position of the first dot, or the length when there is none. */
  function DotIn(s: string): (i: nat)
    ensures i <= |s|
    ensures forall j :: 0 <= j < i ==> s[j] != '.'
    ensures i < |s| ==> s[i] == '.'
  {
    if s == "" || s[0] == '.' then 0 else 1 + DotIn(s[1..])
  }

  /** The first two parts of splitting at dots; the second defaults to the empty string. */
  function SplitAtDots(s: string): (string, string) {
    var i := DotIn(s);
    if i == |s| then (s, "")
    else
      var rest := s[i + 1..];
      (s[..i], rest[..DotIn(rest)])
  }

  /** Digits, then optionally a dot and at most `decimals` more digits. */
  predicate DisplayPattern(s: string, decimals: nat) {
    var i := DotIn(s);
    && 0 < i && AllDigits(s[..i])
    && (i < |s| ==> AllDigits(s[i + 1..]) && 1 <= |s[i + 1..]| <= decimals)
  }

  function ToStroops(display: string, decimals: nat): Result<string, AmountError> {
    var trimmed := Trim(display);
    if !DisplayPattern(trimmed, decimals) then Err(BadFormat)
    else
      PatternParts(trimmed, decimals);
      var (whole, fraction) := SplitAtDots(trimmed);
      var value := Scaled(whole, fraction, decimals);
      if value > I128_MAX then Err(TooLarge) else Ok(ShowNat(value))
  }

  function Scaled(whole: string, fraction: string, decimals: nat): nat
    requires AllDigits(whole) && AllDigits(fraction) && |fraction| <= decimals
  {
    PadEndDigits(fraction, decimals);
    ParseNat(whole) * Pow10(decimals) + ParseNat(PadEnd(fraction, decimals))
  }

  function ToBigInt(stroops: string): Result<int, AmountError> {
    var negative := stroops != "" && stroops[0] == '-';
    var digits := if negative then stroops[1..] else stroops;
    if digits == "" || !AllDigits(digits) then Err(BadFormat)
    else
      var value: int := if negative then 0 - ParseNat(digits) else ParseNat(digits);
      if InI128(value) then Ok(value) else Err(TooLarge)
  }

  function ShowInt(v: int): string {
    if v < 0 then "-" + ShowNat(-v) else ShowNat(v)
  }

  function FromStroops(stroops: string, decimals: nat): Result<string, AmountError> {
    match ToBigInt(stroops)
    case Err(e) => Err(e)
    case Ok(value) => Ok(if value < 0 then "-" + Printed(-value, decimals) else Printed(value, decimals))
  }

  function Printed(magnitude: nat, decimals: nat): string {
    Divided(magnitude, Pow10(decimals), decimals)
  }

  function Divided(magnitude: nat, base: nat, decimals: nat): string
    requires base > 0
  {
    ShowNat(magnitude / base) + "." + ShownFraction(magnitude % base, decimals)
  }

  function ShownFraction(remainder: nat, decimals: nat): string {
    NormalFraction(PadStart(ShowNat(remainder), decimals))
  }

  /** Trailing zeros dropped, but at least one decimal kept. */
  function NormalFraction(fraction: string): string {
    if StripZeros(fraction) == "" then "0" else StripZeros(fraction)
  }

  /** The session form's own parser; the form has already checked the pattern with 7 decimals. */
  function ParseStakeToScaled(value: string): nat
    requires DisplayPattern(value, 7)
  {
    PatternParts(value, 7);
    var (whole, fraction) := SplitAtDots(value);
    PadEndDigits(fraction, 7);
    assert (fraction + "0000000")[..7] == PadEnd(fraction, 7) by {
      assert "0000000" == Zeros(7);
    }
    ParseNat(whole) * 10000000 + ParseNat((fraction + "0000000")[..7])
  }

  function AddStroops(a: string, b: string): Result<string, AmountError> {
    match (ToBigInt(a), ToBigInt(b))
    case (Ok(x), Ok(y)) => Ok(ShowInt(x + y))
    case (Err(e), _) => Err(e)
    case (_, Err(e)) => Err(e)
  }

  // ----- Strings and integers are interchangeable -----

  lemma DigitsHaveNoDot(s: string)
    requires AllDigits(s)
    ensures DotIn(s) == |s|
  {
  }

  lemma PatternParts(s: string, decimals: nat)
    requires DisplayPattern(s, decimals)
    ensures var (whole, fraction) := SplitAtDots(s);
            && whole != "" && AllDigits(whole) && AllDigits(fraction) && |fraction| <= decimals
            && s == (if DotIn(s) == |s| then whole else whole + "." + fraction)
            && (DotIn(s) < |s| ==> fraction != "")
  {
    var i := DotIn(s);
    if i < |s| {
      SplitOnce(s);
    } else {
      assert s[..i] == s;
    }
  }

  lemma SplitOnce(s: string)
    requires DotIn(s) < |s| && AllDigits(s[DotIn(s) + 1..])
    ensures SplitAtDots(s) == (s[..DotIn(s)], s[DotIn(s) + 1..])
    ensures s == s[..DotIn(s)] + "." + s[DotIn(s) + 1..]
  {
    var i := DotIn(s);
    Rejoin(s, i);
    DigitsHaveNoDot(s[i + 1..]);
    WholePrefix(s[i + 1..]);
  }

  lemma Rejoin(s: string, i: nat)
    requires i < |s| && s[i] == '.'
    ensures s == s[..i] + "." + s[i + 1..]
  {
  }

  lemma WholePrefix(s: string)
    ensures s[..|s|] == s
  {
  }

  /** Every integer is read back from its string, and refused exactly outside 128 signed bits. */
  lemma StringsCarryIntegers(v: int)
    ensures ToBigInt(ShowInt(v)) == if InI128(v) then Ok(v) else Err(TooLarge)
    ensures InI128(v) <==>
              -170141183460469231731687303715884105728 <= v <= 170141183460469231731687303715884105727
  {
    var n := if v < 0 then -v else v;
    ParseShow(n);
    if v < 0 {
      assert ShowInt(v)[1..] == ShowNat(n);
    } else {
      assert IsDigit(ShowNat(v)[0]);
    }
  }

  /** Adding through strings is adding the integers, whenever both operands fit i128. */
  lemma AdditionIsExact(a: int, b: int)
    ensures AddStroops(ShowInt(a), ShowInt(b)) == Ok(ShowInt(a + b)) <==> InI128(a) && InI128(b)
  {
    StringsCarryIntegers(a);
    StringsCarryIntegers(b);
  }

  // ----- What is accepted -----

  /** s is written as digits alone, or as digits, a dot and a fraction that fits the decimals. */
  ghost predicate Numeral(s: string, whole: string, fraction: string, decimals: nat) {
    && whole != "" && AllDigits(whole) && AllDigits(fraction) && |fraction| <= decimals
    && s == if fraction == "" then whole else whole + "." + fraction
  }

  ghost predicate IsNumeral(s: string, decimals: nat) {
    exists whole: string, fraction: string :: Numeral(s, whole, fraction, decimals)
  }

  lemma NumeralIsMatched(s: string, whole: string, fraction: string, decimals: nat)
    requires Numeral(s, whole, fraction, decimals)
    ensures DisplayPattern(s, decimals) && SplitAtDots(s) == (whole, fraction)
  {
    if fraction == "" {
      DigitsHaveNoDot(s);
      WholePrefix(s);
    } else {
      ParsePrinted(whole, fraction, decimals);
    }
  }

  /**
   * A typed amount has the accepted form exactly when, blanks around it aside, it
   * is a numeral: "10" and "10.5" are, "1.", ".5", "+1" and "1.2.3" are not.
   */
  lemma AcceptedExactlyWhen(display: string, decimals: nat)
    ensures ToStroops(display, decimals) != Err(BadFormat)
       <==> IsNumeral(Trim(display), decimals)
  {
    var s := Trim(display);
    if DisplayPattern(s, decimals) {
      PatternParts(s, decimals);
      var (whole, fraction) := SplitAtDots(s);
      assert DotIn(s) == |s| ==> fraction == "";
      assert Numeral(s, whole, fraction, decimals);
    } else if whole: string, fraction: string :| Numeral(s, whole, fraction, decimals) {
      NumeralIsMatched(s, whole, fraction, decimals);
      assert false;
    }
  }

  /** Trimming takes the blanks at both ends and nothing else. */
  lemma {:induction false} TrimTakesBlanks(s: string) returns (before: string, after: string)
    ensures s == before + Trim(s) + after
    ensures (forall c | c in before :: IsSpace(c)) && (forall c | c in after :: IsSpace(c))
    ensures Trim(s) != "" ==> !IsSpace(Trim(s)[0]) && !IsSpace(Trim(s)[|Trim(s)| - 1])
    decreases |s|
  {
    if s != "" && IsSpace(s[0]) {
      before, after := TrimTakesBlanks(s[1..]);
      before := [s[0]] + before;
    } else if s != "" && IsSpace(s[|s| - 1]) {
      before, after := TrimTakesBlanks(s[..|s| - 1]);
      after := after + [s[|s| - 1]];
    } else {
      before, after := "", "";
    }
  }

  /** A stored amount is read exactly when it is digits with at most a minus in front. */
  lemma StoredFormExactlyWhen(stroops: string)
    ensures ToBigInt(stroops) != Err(BadFormat)
       <==> exists digits: string :: digits != "" && AllDigits(digits) && (stroops == digits || stroops == "-" + digits)
  {
    var negative := stroops != "" && stroops[0] == '-';
    var digits := if negative then stroops[1..] else stroops;
    assert stroops == if negative then "-" + digits else digits;
    forall d: string | d != "" && AllDigits(d) && (stroops == d || stroops == "-" + d)
      ensures digits == d
    {
      assert IsDigit(d[0]);
      assert ("-" + d)[1..] == d;
    }
  }

  // ----- Parsing is exact -----

  /** The digits typed, dot removed, times ten for each decimal not written: nothing is rounded or dropped. */
  lemma {:induction false} ConversionIsExact(display: string, whole: string, fraction: string, decimals: nat)
    requires Numeral(Trim(display), whole, fraction, decimals)
    ensures AllDigits(whole + fraction)
    ensures var value := ParseNat(whole + fraction) * Pow10(decimals - |fraction|);
            ToStroops(display, decimals) == if value > I128_MAX then Err(TooLarge) else Ok(ShowNat(value))
  {
    ScaledIsExact(whole, fraction, decimals);
    NumeralConverts(display, whole, fraction, decimals, ParseNat(whole + fraction) * Pow10(decimals - |fraction|));
  }

  lemma NumeralConverts(display: string, whole: string, fraction: string, decimals: nat, value: nat)
    requires Numeral(Trim(display), whole, fraction, decimals) && Scaled(whole, fraction, decimals) == value
    ensures ToStroops(display, decimals) == if value > I128_MAX then Err(TooLarge) else Ok(ShowNat(value))
  {
    NumeralIsMatched(Trim(display), whole, fraction, decimals);
  }

  lemma ScaledIsExact(whole: string, fraction: string, decimals: nat)
    requires AllDigits(whole) && AllDigits(fraction) && |fraction| <= decimals
    ensures AllDigits(whole + fraction)
    ensures Scaled(whole, fraction, decimals) == ParseNat(whole + fraction) * Pow10(decimals - |fraction|)
  {
    var k := |fraction|;
    ParseAppend(whole, fraction);
    ParsePadEnd(fraction, decimals);
    Pow10Add(k, decimals - k);
    Distribute(ParseNat(whole), Pow10(k), Pow10(decimals - k), ParseNat(fraction));
  }

  lemma Distribute(w: nat, p: nat, q: nat, f: nat)
    ensures (w * p + f) * q == w * (p * q) + f * q
  {
    assert w * p * q == w * (p * q);
  }

  lemma PatternIsPlain(s: string, decimals: nat)
    requires DisplayPattern(s, decimals)
    ensures Trim(s) == s
  {
    var i := DotIn(s);
    assert IsDigit(s[..i][0]);
    if i < |s| {
      assert s[|s| - 1] == s[i + 1..][|s| - i - 2];
    } else {
      assert s[|s| - 1] == s[..i][|s| - 1];
    }
  }

  /** Both parsers read every accepted stake the same way, up to the i128 limit only one of them checks. */
  lemma TwoParsersAgree(value: string)
    requires DisplayPattern(value, 7)
    ensures ToStroops(value, 7) == if ParseStakeToScaled(value) > I128_MAX then Err(TooLarge)
                                   else Ok(ShowNat(ParseStakeToScaled(value)))
  {
    PatternIsPlain(value, 7);
    PatternParts(value, 7);
    var (_, fraction) := SplitAtDots(value);
    assert (fraction + "0000000")[..7] == PadEnd(fraction, 7) by {
      assert "0000000" == Zeros(7);
    }
    assert Pow10(7) == 10000000 by {
      assert Pow10(3) == 1000;
      Pow10Add(3, 4);
      assert Pow10(4) == 10 * Pow10(3);
    }
  }

  // ----- Round trips -----

  /** A printed whole part, a dot and a fraction parse back to their scaled value. */
  lemma ParsePrinted(whole: string, fraction: string, decimals: nat)
    requires AllDigits(whole) && whole != "" && AllDigits(fraction) && fraction != ""
    ensures var s := whole + "." + fraction;
            && Trim(s) == s
            && (DisplayPattern(s, decimals) <==> |fraction| <= decimals)
            && (|fraction| <= decimals ==> SplitAtDots(s) == (whole, fraction))
  {
    var s := whole + "." + fraction;
    DotAfterDigits(whole, fraction);
    assert s[..|whole|] == whole && s[|whole| + 1..] == fraction;
    assert IsDigit(whole[0]) && IsDigit(fraction[|fraction| - 1]);
    assert s[0] == whole[0] && s[|s| - 1] == fraction[|fraction| - 1];
    DigitsHaveNoDot(fraction);
    assert fraction[..|fraction|] == fraction;
  }

  lemma DotAfterDigits(whole: string, fraction: string)
    requires AllDigits(whole)
    ensures DotIn(whole + "." + fraction) == |whole|
  {
    var s := whole + "." + fraction;
    var i := DotIn(s);
    assert s[|whole|] == '.';
    assert s[..|whole|] == whole;
    assert i < |whole| ==> IsDigit(whole[i]);
  }

  lemma NormalPadsBack(padded: string)
    requires AllDigits(padded) && padded != ""
    ensures var shown := NormalFraction(padded);
            AllDigits(shown) && 1 <= |shown| <= |padded| && PadEnd(shown, |padded|) == padded
  {
    StripThenPad(padded);
    if StripZeros(padded) == "" {
      assert PadEnd("0", |padded|) == Zeros(|padded|);
      assert padded == Zeros(|padded|);
    }
  }

  lemma PaddedRemainder(r: nat, decimals: nat)
    requires decimals > 0 && r < Pow10(decimals)
    ensures var padded := PadStart(ShowNat(r), decimals);
            |padded| == decimals && AllDigits(padded) && ParseNat(padded) == r
  {
    ShowIsShort(r, decimals);
    ParseShow(r);
    ParsePadStart(ShowNat(r), decimals);
  }

  /** The fraction printed for a remainder parses back to it. */
  lemma PrintedFraction(r: nat, decimals: nat)
    requires decimals > 0 && r < Pow10(decimals)
    ensures var shown := ShownFraction(r, decimals);
            && AllDigits(shown) && 1 <= |shown| <= decimals
            && AllDigits(PadEnd(shown, decimals)) && ParseNat(PadEnd(shown, decimals)) == r
  {
    PaddedRemainder(r, decimals);
    NormalPadsBack(PadStart(ShowNat(r), decimals));
  }

  /**
   * Printing an amount and parsing it again gives the amount back exactly for
   * non-negative amounts of a token that has decimals: a token with none is
   * printed with a ".0" that its own parser refuses, and a sign is refused too.
   */
  lemma PrintThenParse(v: int, decimals: nat)
    requires InI128(v)
    ensures FromStroops(ShowInt(v), decimals).Ok?
    ensures ToStroops(FromStroops(ShowInt(v), decimals).value, decimals) == Ok(ShowInt(v))
       <==> 0 <= v && 1 <= decimals
  {
    StringsCarryIntegers(v);
    if v < 0 {
      var printed := "-" + Printed(-v, decimals);
      assert printed[0] == '-';
      SignIsRefused(printed, decimals);
    } else {
      PrintedParses(v, decimals);
    }
  }

  lemma PrintedParses(v: nat, decimals: nat)
    requires v <= I128_MAX
    ensures ToStroops(Printed(v, decimals), decimals) == if decimals == 0 then Err(BadFormat) else Ok(ShowNat(v))
  {
    var q, r := DividedParts(v, Pow10(decimals), decimals);
    PartsParse(Printed(v, decimals), v, q, r, decimals);
  }

  lemma DividedParts(v: nat, base: nat, decimals: nat) returns (q: nat, r: nat)
    requires base > 0
    ensures v == q * base + r && r < base
    ensures Divided(v, base, decimals) == ShowNat(q) + "." + ShownFraction(r, decimals)
  {
    q, r := v / base, v % base;
  }

  lemma PartsParse(text: string, v: nat, q: nat, r: nat, decimals: nat)
    requires r < Pow10(decimals) && v == q * Pow10(decimals) + r <= I128_MAX
    requires text == ShowNat(q) + "." + ShownFraction(r, decimals)
    ensures ToStroops(text, decimals) == if decimals == 0 then Err(BadFormat) else Ok(ShowNat(v))
  {
    var whole, shown := ShowNat(q), ShownFraction(r, decimals);
    if decimals == 0 {
      ParsePadStart(ShowNat(r), decimals);
      AllDigitsStrip(PadStart(ShowNat(r), decimals));
      ParsePrinted(whole, shown, decimals);
    } else {
      PrintedFraction(r, decimals);
      ParsePrinted(whole, shown, decimals);
      ParseShow(q);
    }
  }

  lemma SignIsRefused(s: string, decimals: nat)
    requires s != "" && s[0] == '-'
    ensures ToStroops(s, decimals) == Err(BadFormat)
    decreases |s|
  {
    TrimKeepsSign(s);
    var t := Trim(s);
    if DisplayPattern(t, decimals) {
      assert IsDigit(t[..DotIn(t)][0]);
    }
  }

  lemma {:induction false} TrimKeepsSign(s: string)
    requires s != "" && s[0] == '-'
    ensures Trim(s) != "" && Trim(s)[0] == '-'
    decreases |s|
  {
    if IsSpace(s[|s| - 1]) {
      TrimKeepsSign(s[..|s| - 1]);
    }
  }

  /** No leading zero, at least one decimal, and no trailing zero but the one that must be there. */
  predicate Canonical(s: string) {
    var (whole, fraction) := SplitAtDots(s);
    && DotIn(s) < |s|
    && (|whole| == 1 || (whole != "" && whole[0] != '0'))
    && (fraction == "0" || (fraction != "" && fraction[|fraction| - 1] != '0'))
  }

  /** Parsing and printing again returns the text itself exactly when it is in canonical form. */
  lemma ParseThenPrint(s: string, decimals: nat)
    requires 1 <= decimals && DisplayPattern(s, decimals) && ToStroops(s, decimals).Ok?
    ensures FromStroops(ToStroops(s, decimals).value, decimals) == Ok(s) <==> Canonical(s)
  {
    PatternIsPlain(s, decimals);
    PatternParts(s, decimals);
    var (whole, fraction) := SplitAtDots(s);
    StringsCarryIntegers(Scaled(whole, fraction, decimals));
    PrintedScaled(whole, fraction, decimals);
    assert FromStroops(ToStroops(s, decimals).value, decimals) == Ok(Normalised(whole, fraction));
    NormalFormIsCanonical(s, decimals);
  }

  /** Leading zeros of the whole part and trailing zeros of the fraction dropped. */
  function Normalised(whole: string, fraction: string): string
    requires AllDigits(whole)
  {
    ShowNat(ParseNat(whole)) + "." + NormalFraction(fraction)
  }

  lemma NormalFormIsCanonical(s: string, decimals: nat)
    requires DisplayPattern(s, decimals)
    requires AllDigits(SplitAtDots(s).0)
    ensures Normalised(SplitAtDots(s).0, SplitAtDots(s).1) == s <==> Canonical(s)
  {
    PatternParts(s, decimals);
    var (whole, fraction) := SplitAtDots(s);
    ShowParse(whole);
    AllDigitsStrip(fraction);
    var whole', fraction' := ShowNat(ParseNat(whole)), NormalFraction(fraction);
    ParsePrinted(whole', fraction', |fraction'|);
    if whole' + "." + fraction' == s {
      assert (whole, fraction) == (whole', fraction');
      DotAfterDigits(whole', fraction');
    }
  }

  /** Printing a parsed amount normalises its two parts separately. */
  lemma PrintedScaled(whole: string, fraction: string, decimals: nat)
    requires AllDigits(whole) && AllDigits(fraction) && |fraction| <= decimals && 1 <= decimals
    ensures Printed(Scaled(whole, fraction, decimals), decimals) == Normalised(whole, fraction)
  {
    var padded := PadEnd(fraction, decimals);
    PadEndDigits(fraction, decimals);
    ParseBound(padded);
    var q, r := DividedParts(Scaled(whole, fraction, decimals), Pow10(decimals), decimals);
    OneDivision(q, r, ParseNat(whole), ParseNat(padded), Pow10(decimals));
    ShownOfPadded(fraction, decimals);
  }

  lemma ShownOfPadded(fraction: string, decimals: nat)
    requires AllDigits(fraction) && |fraction| <= decimals && 1 <= decimals
    requires AllDigits(PadEnd(fraction, decimals))
    ensures ShownFraction(ParseNat(PadEnd(fraction, decimals)), decimals) == NormalFraction(fraction)
  {
    ShowPadded(PadEnd(fraction, decimals));
    StripPadEnd(fraction, decimals);
  }

  lemma AllDigitsStrip(s: string)
    requires AllDigits(s)
    ensures AllDigits(StripZeros(s))
  {
  }

  lemma {:induction false} ParseBound(s: string)
    requires AllDigits(s)
    ensures ParseNat(s) < Pow10(|s|)
  {
    if s != "" {
      ParseBound(s[..|s| - 1]);
    }
  }

  /** Padding a printed remainder to the full width restores its digits. */
  lemma {:induction false} ShowPadded(s: string)
    requires AllDigits(s) && s != ""
    ensures PadStart(ShowNat(ParseNat(s)), |s|) == s
    decreases |s|
  {
    ShowParse(s);
    if |s| > 1 && s[0] == '0' {
      var t := s[1..];
      assert s == "0" + t;
      ParseAppend("0", t);
      assert ParseNat(s) == ParseNat(t);
      ShowPadded(t);
      ParseBound(t);
      ShowIsShort(ParseNat(t), |t|);
      PadOneMore(ShowNat(ParseNat(t)), |t|);
    }
  }

  lemma PadOneMore(s: string, width: nat)
    requires |s| <= width
    ensures PadStart(s, width + 1) == "0" + PadStart(s, width)
  {
    var z := Zeros(width - |s|);
    assert Zeros(width + 1 - |s|) == "0" + z;
    assert "0" + z + s == "0" + (z + s);
    assert |s| == width ==> z + s == s;
  }

  lemma {:induction false} StripPadEnd(s: string, width: nat)
    requires |s| <= width
    ensures StripZeros(PadEnd(s, width)) == StripZeros(s)
    decreases width
  {
    if |s| < width {
      StripPadEnd(s, width - 1);
      assert PadEnd(s, width)[..width - 1] == PadEnd(s, width - 1);
    }
  }
}
