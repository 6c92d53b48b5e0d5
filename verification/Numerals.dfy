// Writing and reading numbers: the padded conversions and strtou of monitor/string.c over the
// characters of monitor/char.c.

module Numerals {
  import opened RuntimeAbi

  const UINT: nat := 0x1_0000_0000

  /** digit_to_char */
  function DigitToChar(digit: nat): char {
    if digit < 10 then '0' + digit as char
    else if digit <= 15 then 'A' + (digit - 10) as char
    else '\0'
  }

  function ToUpper(c: char): char {
    if 'a' <= c <= 'z' then c - ' ' else c
  }

  /** char_to_digit, 255 for what is no digit. */
  function CharToDigit(c: char): (digit: nat)
    ensures digit < 16 || digit == 255
  {
    var upper := ToUpper(c);
    if '0' <= upper <= '9' then (upper - '0') as nat
    else if 'A' <= upper <= 'F' then (upper - 'A') as nat + 10
    else 255
  }

  lemma DigitRoundTrip(digit: nat)
    requires digit < 16
    ensures CharToDigit(DigitToChar(digit)) == digit && DigitToChar(digit) != '_'
  {
  }

  const UPPER: string := "0123456789ABCDEF"
  const LOWER: string := "0123456789abcdef"

  /** The digits are the characters of the two alphabets at their places, and no others. */
  lemma DigitTable(c: char)
    ensures forall d: nat :: d < 16 ==> (CharToDigit(c) == d <==> c == UPPER[d] || c == LOWER[d])
    ensures CharToDigit(c) == 255 <==> c !in UPPER && c !in LOWER
  {
    forall d: nat | d < 16 ensures CharToDigit(c) == d <==> c == UPPER[d] || c == LOWER[d] {
      AtPlace(c, d);
    }
    if CharToDigit(c) < 16 {
      assert c == UPPER[CharToDigit(c)] || c == LOWER[CharToDigit(c)];
    } else {
      forall d: nat | d < 16 ensures c != UPPER[d] && c != LOWER[d] {
        AtPlace(c, d);
      }
    }
  }

  lemma AtPlace(c: char, d: nat)
    requires d < 16
    ensures CharToDigit(c) == d <==> c == UPPER[d] || c == LOWER[d]
  {
    assert UPPER[d] == if d < 10 then '0' + d as char else 'A' + (d - 10) as char;
    assert LOWER[d] == if d < 10 then '0' + d as char else 'a' + (d - 10) as char;
  }

  /** Digits are written in upper case. */
  lemma DigitWritten(digit: nat)
    requires digit < 16
    ensures DigitToChar(digit) == UPPER[digit]
  {
  }

  predicate ValidBase(base: nat) {
    2 <= base <= 16
  }

  predicate IsDigit(c: char, base: nat) {
    CharToDigit(c) < base
  }

  // ---- Writing

  /** A separator goes in before every fifth place from the right. */
  function Separated(text: string): string {
    if (|text| + 1) % 5 == 0 then "_" + text else text
  }

  function Hold(c: char, text: string): string {
    [c] + Separated(text)
  }

  /** The digits of a number in front of a text, least significant first. */
  function Digits(text: string, number: nat, base: nat): string
    requires ValidBase(base)
    decreases number
  {
    if number == 0 then text
    else Digits(Hold(DigitToChar(Remainder(number, base)), text), Quotient(number, base), base)
  }

  function Written(number: nat, base: nat): string
    requires ValidBase(base)
  {
    if number == 0 then "0" else Digits("", number, base)
  }

  function ZeroFill(text: string, width: nat): string
    decreases width - |text|
  {
    if |text| < width then ZeroFill(Hold('0', text), width) else text
  }

  function SpaceFill(text: string, width: nat): string
    decreases width - |text|
  {
    if |text| < width then SpaceFill([' '] + text, width) else text
  }

  /** utoa_pad_w */
  function Utoa(number: nat, base: nat, minwidth: nat, fillWithZero: bool): string
    requires ValidBase(base)
  {
    var text := Written(number, base);
    if fillWithZero then ZeroFill(text, minwidth + minwidth / 5) else SpaceFill(text, minwidth)
  }

  /** itoa_pad_w */
  function Itoa(number: int, base: nat, minwidth: nat, fillWithZero: bool): string
    requires ValidBase(base)
  {
    if number >= 0 then Utoa(number, base, minwidth, fillWithZero)
    else "-" + Utoa(-number, base, if minwidth > 0 then minwidth - 1 else 0, fillWithZero)
  }

  // ---- Reading

  /** How far strtou reads. */
  function DigitsLength(s: string, base: nat): (n: nat)
    ensures n <= |s|
  {
    if s == "" || !IsDigit(s[0], base) then 0 else 1 + DigitsLength(s[1..], base)
  }

  /** It stops at the first character that is no digit of the base. */
  lemma {:induction false} DigitsStop(s: string, base: nat)
    ensures forall i :: 0 <= i < DigitsLength(s, base) ==> IsDigit(s[i], base)
    ensures DigitsLength(s, base) < |s| ==> !IsDigit(s[DigitsLength(s, base)], base)
  {
    if s != "" && IsDigit(s[0], base) {
      DigitsStop(s[1..], base);
    }
  }

  /** The number that digits stand for. */
  function Value(s: string, base: nat): nat {
    if s == "" then 0 else Value(s[..|s| - 1], base) * base + CharToDigit(s[|s| - 1])
  }

  /** strtou: unsigned arithmetic wraps. */
  method Strtou(s: string, base: nat) returns (result: nat, end: nat)
    requires ValidBase(base)
    ensures end == DigitsLength(s, base)
    ensures (forall i :: 0 <= i < end ==> IsDigit(s[i], base)) && (end < |s| ==> !IsDigit(s[end], base))
    ensures result == Value(s[..end], base) % UINT
  {
    DigitsStop(s, base);
    result, end := 0, 0;
    while end < |s|
      invariant 0 <= end <= |s|
      invariant end + DigitsLength(s[end..], base) == DigitsLength(s, base)
      invariant result == Value(s[..end], base) % UINT
    {
      var digit := CharToDigit(s[end]);
      if digit == 255 || digit >= base {
        break;
      }
      ReadStep(s, end, base);
      result := result * base % UINT;
      result := (result + digit) % UINT;
      end := end + 1;
    }
  }

  lemma ReadStep(s: string, end: nat, base: nat)
    requires end < |s| && IsDigit(s[end], base)
    ensures DigitsLength(s[end..], base) == 1 + DigitsLength(s[end + 1..], base)
    ensures Value(s[..end + 1], base) % UINT ==
      (Value(s[..end], base) % UINT * base % UINT + CharToDigit(s[end])) % UINT
  {
    assert s[end..][1..] == s[end + 1..];
    assert s[..end + 1] == s[..end] + [s[end]];
    OneMoreDigit(s[..end], s[end], base);
    WrappedStep(Value(s[..end], base), base, CharToDigit(s[end]));
  }

  lemma WrappedStep(value: nat, base: nat, digit: nat)
    ensures (value % UINT * base % UINT + digit) % UINT == (value * base + digit) % UINT
  {
    var q, r := value / UINT, value % UINT;
    assert value == q * UINT + r;
    assert value * base == (q * base) * UINT + r * base;
    WrapAdd(r * base, q * base);
    var m := r * base;
    var k := m / UINT;
    assert m == k * UINT + m % UINT;
    WrapAdd(m % UINT + digit, k);
    WrapAdd(m + digit, q * base);
  }

  lemma WrapAdd(x: nat, k: nat)
    ensures (x + k * UINT) % UINT == x % UINT
  {
    if k > 0 {
      WrapAdd(x, k - 1);
      assert x + k * UINT == (x + (k - 1) * UINT) + UINT;
    }
  }

  // ---- What is written reads back

  function Strip(text: string): string {
    if text == "" then ""
    else if text[0] == '_' then Strip(text[1..])
    else [text[0]] + Strip(text[1..])
  }

  lemma StripHold(c: char, text: string)
    requires c != '_'
    ensures Strip(Hold(c, text)) == [c] + Strip(text)
  {
    assert Hold(c, text)[1..] == Separated(text);
    if (|text| + 1) % 5 == 0 {
      assert Separated(text)[1..] == text;
    }
  }

  /** The digits of a number, most significant first. */
  function Plain(number: nat, base: nat): string
    requires ValidBase(base)
  {
    if number == 0 then "" else Plain(Quotient(number, base), base) + [DigitToChar(Remainder(number, base))]
  }

  lemma {:induction false} StripDigits(text: string, number: nat, base: nat)
    requires ValidBase(base)
    ensures Strip(Digits(text, number, base)) == Plain(number, base) + Strip(text)
    decreases number
  {
    if number > 0 {
      var c := DigitToChar(Remainder(number, base));
      DigitRoundTrip(Remainder(number, base));
      StripHold(c, text);
      StripDigits(Hold(c, text), Quotient(number, base), base);
    }
  }

  lemma {:induction false} PlainValue(number: nat, base: nat)
    requires ValidBase(base)
    ensures Value(Plain(number, base), base) == number
    ensures OnlyDigits(Plain(number, base), base)
  {
    if number > 0 {
      PlainValue(Quotient(number, base), base);
      DigitRoundTrip(Remainder(number, base));
      DivisionLaw(number, base);
      OneMoreDigit(Plain(Quotient(number, base), base), DigitToChar(Remainder(number, base)), base);
    }
  }

  lemma OneMoreDigit(s: string, c: char, base: nat)
    ensures Value(s + [c], base) == Value(s, base) * base + CharToDigit(c)
    ensures OnlyDigits(s, base) && IsDigit(c, base) ==> OnlyDigits(s + [c], base)
  {
    assert (s + [c])[..|s|] == s;
  }

  function Zeros(n: nat): (s: string)
    ensures |s| == n
  {
    seq(n, i => '0')
  }

  lemma {:induction false} LeadingZeros(n: nat, s: string, base: nat)
    requires ValidBase(base)
    ensures Value(Zeros(n) + s, base) == Value(s, base)
    decreases n + |s|
  {
    var z := Zeros(n) + s;
    if s != "" {
      assert z[..|z| - 1] == Zeros(n) + s[..|s| - 1];
      LeadingZeros(n, s[..|s| - 1], base);
    } else if n > 0 {
      assert z[..|z| - 1] == Zeros(n - 1) + "";
      LeadingZeros(n - 1, "", base);
    }
  }

  lemma OneMoreZero(n: nat, s: string)
    ensures Zeros(n) + (['0'] + s) == Zeros(n + 1) + s
  {
  }

  lemma {:induction false} StripZeroFill(text: string, width: nat) returns (n: nat)
    ensures Strip(ZeroFill(text, width)) == Zeros(n) + Strip(text)
    decreases width - |text|
  {
    n := 0;
    if |text| < width {
      StripHold('0', text);
      var m := StripZeroFill(Hold('0', text), width);
      OneMoreZero(m, Strip(text));
      n := m + 1;
    }
  }

  lemma StripWritten(number: nat, base: nat)
    requires ValidBase(base)
    ensures Strip(Written(number, base)) == if number == 0 then "0" else Plain(number, base)
  {
    if number > 0 {
      StripDigits("", number, base);
    } else {
      assert Strip("0") == "0";
    }
  }

  lemma AllDigits(s: string, base: nat)
    requires OnlyDigits(s, base)
    ensures DigitsLength(s, base) == |s|
  {
  }

  predicate OnlyDigits(s: string, base: nat) {
    forall i :: 0 <= i < |s| ==> IsDigit(s[i], base)
  }

  lemma WrittenValue(number: nat, base: nat)
    requires ValidBase(base)
    ensures
      var s := Strip(Written(number, base));
      Value(s, base) == number && OnlyDigits(s, base)
  {
    StripWritten(number, base);
    PlainValue(number, base);
    if number == 0 {
      assert "0"[..0] == "";
    }
  }

  lemma ZerosAreDigits(n: nat, s: string, base: nat)
    requires ValidBase(base) && OnlyDigits(s, base)
    ensures OnlyDigits(Zeros(n) + s, base)
  {
    assert IsDigit('0', base);
  }

  lemma ZeroFilledValue(number: nat, base: nat, minwidth: nat)
    requires ValidBase(base)
    ensures
      var s := Strip(Utoa(number, base, minwidth, true));
      Value(s, base) == number && OnlyDigits(s, base)
  {
    WrittenValue(number, base);
    var n := StripZeroFill(Written(number, base), minwidth + minwidth / 5);
    var digits := Strip(Written(number, base));
    LeadingZeros(n, digits, base);
    ZerosAreDigits(n, digits, base);
  }

  /** What comes out of strtou, with nothing left over, is the number. */
  predicate ReadsAs(s: string, base: nat, number: nat) {
    DigitsLength(s, base) == |s| && Value(s, base) % UINT == number
  }

  lemma ZeroFilledReads(number: nat, base: nat, minwidth: nat)
    requires ValidBase(base) && number < UINT
    ensures ReadsAs(Strip(Utoa(number, base, minwidth, true)), base, number)
  {
    ZeroFilledValue(number, base, minwidth);
    DigitsRead(Strip(Utoa(number, base, minwidth, true)), base);
  }

  lemma DigitsRead(s: string, base: nat)
    requires OnlyDigits(s, base) && Value(s, base) < UINT
    ensures ReadsAs(s, base, Value(s, base))
  {
    AllDigits(s, base);
  }

  function Spaces(n: nat): (s: string)
    ensures |s| == n && forall i :: 0 <= i < n ==> s[i] == ' '
  {
    seq(n, i => ' ')
  }

  /** How many spaces fill a text up. */
  function Missing(text: string, width: nat): nat {
    if |text| < width then width - |text| else 0
  }

  lemma {:induction false} SpacesInFront(text: string, width: nat)
    ensures SpaceFill(text, width) == Spaces(Missing(text, width)) + text
    decreases width - |text|
  {
    if |text| < width {
      SpacesInFront([' '] + text, width);
      assert Spaces(Missing(text, width) - 1) + ([' '] + text) == Spaces(Missing(text, width)) + text;
    } else {
      assert Spaces(0) + text == text;
    }
  }

  lemma SpaceStops(text: string, base: nat)
    requires ValidBase(base) && text != "" && text[0] == ' '
    ensures DigitsLength(Strip(text), base) == 0 < |Strip(text)|
  {
    assert !IsDigit(' ', base);
  }

  /** Whether a number is written without a space in front. */
  predicate NoSpace(number: nat, base: nat, minwidth: nat, fillWithZero: bool)
    requires ValidBase(base)
  {
    fillWithZero || minwidth <= |Written(number, base)|
  }

  lemma SpaceInFront(number: nat, base: nat, minwidth: nat, fillWithZero: bool)
    requires ValidBase(base)
    ensures
      var text := Utoa(number, base, minwidth, fillWithZero);
      if NoSpace(number, base, minwidth, fillWithZero) then
        text == Utoa(number, base, if fillWithZero then minwidth else 0, true)
      else
        text != "" && text[0] == ' '
  {
    SpacesInFront(Written(number, base), minwidth);
  }

  /** Without its separators, a written number is read back by strtou, to its end, if and only if no
      space was put in front of it. */
  lemma ReadBack(number: nat, base: nat, minwidth: nat, fillWithZero: bool)
    requires ValidBase(base) && number < UINT
    ensures
      ReadsAs(Strip(Utoa(number, base, minwidth, fillWithZero)), base, number) <==>
      fillWithZero || minwidth <= TextLength(number, base)
  {
    SpaceInFront(number, base, minwidth, fillWithZero);
    WrittenLength(number, base);
    if NoSpace(number, base, minwidth, fillWithZero) {
      ZeroFilledReads(number, base, if fillWithZero then minwidth else 0);
    } else {
      SpaceStops(Utoa(number, base, minwidth, fillWithZero), base);
    }
  }

  function Lowered(text: string): (low: string)
    ensures |low| == |text|
  {
    seq(|text|, i requires 0 <= i < |text| => if 'A' <= text[i] <= 'F' then text[i] + ' ' else text[i])
  }

  lemma SameDigit(c: char)
    ensures CharToDigit(if 'A' <= c <= 'F' then c + ' ' else c) == CharToDigit(c)
  {
  }

  lemma {:induction false} LoweredValue(text: string, base: nat)
    ensures Value(Lowered(text), base) == Value(text, base)
  {
    if text != "" {
      var n := |text| - 1;
      assert Lowered(text)[..n] == Lowered(text[..n]);
      LoweredValue(text[..n], base);
      SameDigit(text[n]);
    }
  }

  lemma {:induction false} LoweredLength(text: string, base: nat)
    ensures DigitsLength(Lowered(text), base) == DigitsLength(text, base)
  {
    if text != "" {
      assert Lowered(text)[1..] == Lowered(text[1..]);
      LoweredLength(text[1..], base);
      SameDigit(text[0]);
    }
  }

  /** A number reads the same in lower case. */
  lemma ReadsLowered(text: string, base: nat, number: nat)
    ensures ReadsAs(Lowered(text), base, number) <==> ReadsAs(text, base, number)
  {
    LoweredValue(text, base);
    LoweredLength(text, base);
  }

  // ---- Signed numbers

  const INT_MAX: int := 0x7fff_ffff
  const INT_MIN: int := -0x8000_0000

  predicate IsInt(x: int) {
    INT_MIN <= x <= INT_MAX
  }

  /** Negation on 32 bits, where the smallest number is its own. */
  function Flipped(x: int): int {
    if x == INT_MIN then INT_MIN else -x
  }

  /** Conversion of an unsigned int to an int. */
  function ToInt(u: nat): int
    requires u < UINT
  {
    if u > INT_MAX then u - UINT else u
  }

  predicate Negated(s: string) {
    s != "" && s[0] == '-'
  }

  /** What strtoi makes of a text, and where it stops. */
  function Signed(s: string, base: nat): (int, nat)
    requires ValidBase(base)
  {
    var t := if Negated(s) then s[1..] else s;
    var n := DigitsLength(t, base);
    var u := ToInt(Value(t[..n], base) % UINT);
    if Negated(s) then (Flipped(u), n + 1) else (u, n)
  }

  /** The only 32-bit number that is the digits' value, or its negation after a minus, modulo 2^32. */
  lemma SignedReading(s: string, base: nat)
    requires ValidBase(base)
    ensures
      var (r, end) := Signed(s, base);
      var k := if s != "" && s[0] == '-' then 1 else 0;
      && end == k + DigitsLength(s[k..], base) && -0x8000_0000 <= r < 0x8000_0000
      && ((if k == 1 then -r else r) - Value(s[k..end], base)) % 0x1_0000_0000 == 0
  {
    var k := if s != "" && s[0] == '-' then 1 else 0;
    var t := s[k..];
    var n := DigitsLength(t, base);
    assert t == (if Negated(s) then s[1..] else s) && t[..n] == s[k..k + n];
    SignedValue(Value(t[..n], base));
  }

  lemma SignedValue(v: nat)
    ensures
      var u := ToInt(v % UINT);
      IsInt(u) && IsInt(Flipped(u)) && (u - v) % UINT == 0 && (-Flipped(u) - v) % UINT == 0
  {
  }

  method Strtoi(s: string, base: nat) returns (result: int, end: nat)
    requires ValidBase(base)
    ensures (result, end) == Signed(s, base) && IsInt(result)
  {
    var neg := false;
    var t := s;
    if t != "" && t[0] == '-' {
      neg := true;
      t := t[1..];
    }
    var u;
    u, end := Strtou(t, base);
    result := ToInt(u);
    if neg {
      result := Flipped(result);
      end := end + 1;
    }
  }

  lemma StripMinus(text: string)
    ensures Strip("-" + text) == "-" + Strip(text)
  {
    assert ("-" + text)[1..] == text;
  }

  /** The width that is left for the digits. */
  function WidthLeft(number: int, minwidth: nat): nat {
    if number < 0 && minwidth > 0 then minwidth - 1 else minwidth
  }

  function Absolute(number: int): nat {
    if number < 0 then -number else number
  }

  /** Every int is read back by strtoi from what itoa writes if and only if no space was put in front
      of its digits. */
  lemma SignedReadBack(number: int, base: nat, minwidth: nat, fillWithZero: bool)
    requires ValidBase(base) && IsInt(number)
    ensures
      var s := Strip(Itoa(number, base, minwidth, fillWithZero));
      Signed(s, base) == (number, |s|) <==>
      fillWithZero || WidthLeft(number, minwidth) <= TextLength(Absolute(number), base)
  {
    var width := WidthLeft(number, minwidth);
    var t := Utoa(Absolute(number), base, width, fillWithZero);
    ReadBack(Absolute(number), base, width, fillWithZero);
    StripItoa(number, base, minwidth, fillWithZero);
    WrittenLength(Absolute(number), base);
    if NoSpace(Absolute(number), base, width, fillWithZero) {
      SignedText(Strip(t), base, number);
    } else {
      SpaceInFront(Absolute(number), base, width, fillWithZero);
      SpaceStops(t, base);
      SignedSpace(Strip(t), base, number);
    }
  }

  /** The digits of a number with its sign. */
  function WithSign(t: string, number: int): string {
    if number < 0 then "-" + t else t
  }

  lemma StripItoa(number: int, base: nat, minwidth: nat, fillWithZero: bool)
    requires ValidBase(base)
    ensures
      var t := Strip(Utoa(Absolute(number), base, WidthLeft(number, minwidth), fillWithZero));
      Strip(Itoa(number, base, minwidth, fillWithZero)) == WithSign(t, number)
  {
    StripMinus(Utoa(Absolute(number), base, WidthLeft(number, minwidth), fillWithZero));
  }

  lemma SignedText(t: string, base: nat, number: int)
    requires ValidBase(base) && IsInt(number) && ReadsAs(t, base, Absolute(number))
    ensures Signed(WithSign(t, number), base) == (number, |WithSign(t, number)|)
  {
    assert t[..|t|] == t && ("-" + t)[1..] == t;
    NoMinus(t, base);
  }

  /** Reading stops at once. */
  lemma SignedSpace(t: string, base: nat, number: int)
    requires ValidBase(base) && DigitsLength(t, base) == 0 < |t| && t[0] == ' '
    ensures Signed(WithSign(t, number), base).1 < |WithSign(t, number)|
  {
    assert ("-" + t)[1..] == t;
  }

  lemma NoMinus(s: string, base: nat)
    requires ValidBase(base) && DigitsLength(s, base) == |s|
    ensures !Negated(s)
  {
  }

  // ---- Separators

  /** A place of a text holds a separator if and only if its index from the right is 4 modulo 5. */
  predicate SeparatorAt(text: string, i: nat)
    requires i < |text|
  {
    text[i] == '_' <==> (|text| - 1 - i) % 5 == 4
  }

  predicate Marked(text: string) {
    forall i :: 0 <= i < |text| ==> SeparatorAt(text, i)
  }

  /** Separators are in their places, and no text starts with one. */
  predicate WellSeparated(text: string) {
    Marked(text) && (text != "" ==> text[0] != '_')
  }

  lemma PutOne(c: char, text: string)
    requires Marked(text) && (c == '_' <==> (|text| + 1) % 5 == 0)
    ensures Marked([c] + text)
  {
    var held := [c] + text;
    forall i | 0 <= i < |held| ensures SeparatorAt(held, i) {
      if i > 0 {
        assert SeparatorAt(text, i - 1);
      }
    }
  }

  lemma TakeOne(text: string)
    requires Marked(text) && text != ""
    ensures Marked(text[1..]) && (text[0] == '_' <==> |text| % 5 == 0)
  {
    var rest := text[1..];
    assert SeparatorAt(text, 0);
    forall i | 0 <= i < |rest| ensures SeparatorAt(rest, i) {
      assert SeparatorAt(text, i + 1);
    }
  }

  lemma HoldSeparated(c: char, text: string)
    requires c != '_' && WellSeparated(text)
    ensures WellSeparated(Hold(c, text))
  {
    if (|text| + 1) % 5 == 0 {
      PutOne('_', text);
    }
    PutOne(c, Separated(text));
  }

  lemma {:induction false} DigitsSeparated(text: string, number: nat, base: nat)
    requires ValidBase(base) && WellSeparated(text)
    ensures WellSeparated(Digits(text, number, base))
    decreases number
  {
    if number > 0 {
      DigitRoundTrip(Remainder(number, base));
      HoldSeparated(DigitToChar(Remainder(number, base)), text);
      DigitsSeparated(Hold(DigitToChar(Remainder(number, base)), text), Quotient(number, base), base);
    }
  }

  lemma {:induction false} FillSeparated(text: string, width: nat)
    requires WellSeparated(text)
    ensures WellSeparated(ZeroFill(text, width)) && |ZeroFill(text, width)| >= width
    decreases width - |text|
  {
    if |text| < width {
      HoldSeparated('0', text);
      FillSeparated(Hold('0', text), width);
    }
  }

  /** The digits of every number, and the zeros in front of them, are separated in fours from the
      right; spaces are not. */
  lemma SeparatorsInPlace(number: nat, base: nat, minwidth: nat, fillWithZero: bool)
    requires ValidBase(base)
    ensures
      var text := Utoa(number, base, minwidth, fillWithZero);
      var spaces := if fillWithZero then 0 else Missing(Written(number, base), minwidth);
      spaces <= |text| && text[..spaces] == Spaces(spaces) && WellSeparated(text[spaces..])
  {
    var text := Utoa(number, base, minwidth, fillWithZero);
    DigitsSeparated("", number, base);
    if fillWithZero {
      FillSeparated(Written(number, base), minwidth + minwidth / 5);
      assert text[0..] == text;
    } else {
      SpacesInFront(Written(number, base), minwidth);
      assert text[Missing(Written(number, base), minwidth)..] == Written(number, base);
    }
  }

  // ---- Widths

  lemma {:induction false} StripLength(text: string)
    requires Marked(text)
    ensures |Strip(text)| == |text| - |text| / 5
  {
    if text != "" {
      TakeOne(text);
      StripLength(text[1..]);
    }
  }

  /** How many digits there are in a separated text. */
  function Kept(n: nat): nat {
    n - n / 5
  }

  /** How many characters zero fill writes for a width. */
  function Padded(width: nat): nat {
    if width > 0 && width % 5 == 0 then width + 1 else width
  }

  lemma {:induction false} FillLength(text: string, width: nat)
    requires |text| % 5 != 0
    ensures |ZeroFill(text, width)| == if |text| < width then Padded(width) else |text|
    decreases width - |text|
  {
    if |text| < width {
      FillLength(Hold('0', text), width);
    }
  }

  lemma KeptMonotone(m: nat, n: nat)
    requires m <= n
    ensures Kept(m) <= Kept(n)
  {
  }

  /** The digits of a number, of which 0 has one. */
  function DigitCount(number: nat, base: nat): nat
    requires ValidBase(base)
  {
    if number == 0 then 1 else Length(number, base)
  }

  /** How many characters a number takes with its separators. */
  function TextLength(number: nat, base: nat): nat
    requires ValidBase(base)
  {
    DigitCount(number, base) + (DigitCount(number, base) - 1) / 4
  }

  lemma WrittenLength(number: nat, base: nat)
    requires ValidBase(base)
    ensures |Written(number, base)| == TextLength(number, base)
    ensures |Written(number, base)| % 5 != 0
    ensures DigitCount(number, base) == Kept(|Written(number, base)|)
  {
    var text := Written(number, base);
    DigitsSeparated("", number, base);
    StripWritten(number, base);
    PlainLength(number, base);
    StripLength(text);
    LastPlace(text);
  }

  lemma LastPlace(text: string)
    requires WellSeparated(text) && |Strip(text)| > 0
    ensures |text| % 5 != 0
  {
    if text != "" {
      TakeOne(text);
    }
  }

  /** Zero fill writes the digits of the number, or those its width has room for if they are more. */
  lemma FilledDigits(number: nat, base: nat, minwidth: nat)
    requires ValidBase(base)
    ensures
      var room := Kept(Padded(minwidth + minwidth / 5));
      |Strip(Utoa(number, base, minwidth, true))| ==
      if DigitCount(number, base) < room then room else DigitCount(number, base)
  {
    var written := Written(number, base);
    var width := minwidth + minwidth / 5;
    WrittenLength(number, base);
    DigitsSeparated("", number, base);
    FillSeparated(written, width);
    FillLength(written, width);
    StripLength(ZeroFill(written, width));
    KeptMaximum(|written|, width);
  }

  lemma KeptMaximum(n: nat, width: nat)
    requires n % 5 != 0
    ensures
      var room := Kept(Padded(width));
      Kept(if n < width then Padded(width) else n) == if Kept(n) < room then room else Kept(n)
  {
    if n < width {
      KeptMonotone(n, Padded(width));
    } else {
      KeptMonotone(Padded(width), n);
    }
  }

  predicate WidthKept(minwidth: nat) {
    minwidth <= 13 || 15 <= minwidth <= 17 || minwidth == 20 || minwidth == 21 || minwidth == 25
  }

  lemma RoomIsKept(minwidth: nat)
    ensures Kept(Padded(minwidth + minwidth / 5)) >= minwidth <==> WidthKept(minwidth)
  {
  }

  /** Zero fill gives at least as many digits as asked for if and only if the width is one of those
      it keeps, or the number has as many digits itself. */
  lemma EnoughDigits(number: nat, base: nat, minwidth: nat)
    requires ValidBase(base)
    ensures
      |Strip(Utoa(number, base, minwidth, true))| >= minwidth <==>
      WidthKept(minwidth) || DigitCount(number, base) >= minwidth
  {
    FilledDigits(number, base, minwidth);
    RoomIsKept(minwidth);
  }

  /** The first width that is not kept is 14, which gives a short number 13 digits. */
  lemma FourteenIsTooMany(number: nat, base: nat)
    requires ValidBase(base) && DigitCount(number, base) <= 13
    ensures |Strip(Utoa(number, base, 14, true))| == 13
  {
    FilledDigits(number, base, 14);
  }

  // ---- Capacity

  const CAPACITY: nat := 32

  function Length(number: nat, base: nat): nat
    requires ValidBase(base)
  {
    if number == 0 then 0 else 1 + Length(Quotient(number, base), base)
  }

  lemma {:induction false} PlainLength(number: nat, base: nat)
    requires ValidBase(base)
    ensures |Plain(number, base)| == Length(number, base)
  {
    if number > 0 {
      PlainLength(Quotient(number, base), base);
    }
  }

  function Power(b: nat, k: nat): nat {
    if k == 0 then 1 else b * Power(b, k - 1)
  }

  lemma {:induction false} ShortIff(number: nat, b: nat, k: nat)
    requires ValidBase(b)
    ensures Length(number, b) <= k <==> number < Power(b, k)
    decreases k
  {
    if k > 0 && number > 0 {
      ShortIff(Quotient(number, b), b, k - 1);
      DivideBound(number, b, Power(b, k - 1));
    } else if k > 0 {
      PowerPositive(b, k);
    }
  }

  lemma PowerPositive(b: nat, k: nat)
    requires b > 0
    ensures Power(b, k) > 0
  {
  }

  lemma DivideBound(n: nat, b: nat, p: nat)
    requires b > 0
    ensures Quotient(n, b) < p <==> n < b * p
  {
    DivisionLaw(n, b);
    BoundedRound(n, b, p, Quotient(n, b), Remainder(n, b));
  }

  lemma BoundedRound(n: nat, b: nat, p: nat, q: nat, r: nat)
    requires n == b * q + r && r < b
    ensures q < p <==> n < b * p
  {
    if q < p {
      ScaleLe(b, q + 1, p);
      assert b * (q + 1) == b * q + b;
    } else {
      ScaleLe(b, p, q);
    }
  }

  lemma {:induction false} PowerGrows(b: nat, c: nat, k: nat)
    requires 0 < b <= c
    ensures Power(b, k) <= Power(c, k)
  {
    if k > 0 {
      PowerGrows(b, c, k - 1);
      assert b * Power(b, k - 1) <= c * Power(c, k - 1) by {
        ScaleLe(b, Power(b, k - 1), Power(c, k - 1));
        ScaleLe(Power(c, k - 1), b, c);
      }
    }
  }

  lemma {:induction false} PowerAdd(b: nat, j: nat, k: nat)
    ensures Power(b, j + k) == Power(b, j) * Power(b, k)
    decreases j
  {
    if j > 0 {
      PowerAdd(b, j - 1, k);
      Associate(b, Power(b, j - 1), Power(b, k));
    }
  }

  lemma Associate(a: nat, b: nat, c: nat)
    ensures a * (b * c) == (a * b) * c
  {
  }

  lemma PowersOfTwo()
    ensures Power(2, 26) == 0x400_0000 && Power(2, 25) == 0x200_0000
  {
    assert Power(2, 6) == 64 && Power(2, 7) == 128;
    PowerAdd(2, 6, 7);
    PowerAdd(2, 13, 13);
    assert Power(2, 26) == 2 * Power(2, 25);
  }

  lemma PowersOfThree()
    ensures Power(3, 21) == 10460353203
  {
    assert Power(3, 7) == 2187;
    PowerAdd(3, 7, 7);
    PowerAdd(3, 14, 7);
  }

  lemma BinaryLength(number: nat)
    ensures Length(number, 2) <= 26 <==> number < 0x400_0000
    ensures Length(number, 2) <= 25 <==> number < 0x200_0000
  {
    ShortIff(number, 2, 26);
    ShortIff(number, 2, 25);
    PowersOfTwo();
  }

  lemma OtherLength(number: nat, base: nat)
    requires ValidBase(base) && base >= 3 && number < UINT
    ensures Length(number, base) <= 21
  {
    PowersOfThree();
    PowerGrows(3, base, 21);
    ShortIff(number, base, 21);
  }

  /** How long a number is written with spaces or zeros in front. */
  lemma UtoaLength(number: nat, base: nat, minwidth: nat, fillWithZero: bool, capacity: nat)
    requires ValidBase(base)
    ensures
      |Utoa(number, base, minwidth, fillWithZero)| <= capacity <==>
      && TextLength(number, base) <= capacity
      && (if fillWithZero then Padded(minwidth + minwidth / 5) else minwidth) <= capacity
  {
    WrittenLength(number, base);
    if fillWithZero {
      FillLength(Written(number, base), minwidth + minwidth / 5);
    } else {
      SpacesInFront(Written(number, base), minwidth);
    }
  }

  lemma WidthFits(minwidth: nat)
    ensures Padded(minwidth + minwidth / 5) <= CAPACITY <==> minwidth <= 27
    ensures Padded(minwidth + minwidth / 5) < CAPACITY <==> minwidth <= 26
  {
  }

  lemma DigitsFit(number: nat, base: nat)
    requires ValidBase(base) && number < UINT
    ensures TextLength(number, base) <= CAPACITY <==> base >= 3 || number < 0x400_0000
    ensures TextLength(number, base) < CAPACITY <==> base >= 3 || number < 0x200_0000
  {
    if base >= 3 {
      OtherLength(number, base);
    } else {
      BinaryLength(number);
    }
  }

  /** Widths that the pad has room for. */
  predicate WidthInPad(minwidth: nat, fillWithZero: bool) {
    minwidth <= if fillWithZero then 27 else 32
  }

  /** The pad of 32 characters is enough for a 32-bit number if and only if the base is not binary or
      the number has at most 26 binary digits, and the width is at most 27 with zeros and 32 with
      spaces. */
  lemma PadSuffices(number: nat, base: nat, minwidth: nat, fillWithZero: bool)
    requires ValidBase(base) && number < UINT
    ensures
      |Utoa(number, base, minwidth, fillWithZero)| <= CAPACITY <==>
      (base >= 3 || number < 0x400_0000) && WidthInPad(minwidth, fillWithZero)
  {
    UtoaLength(number, base, minwidth, fillWithZero, CAPACITY);
    DigitsFit(number, base);
    WidthFits(minwidth);
  }

  /** A minus sign leaves one place fewer, and one binary digit. */
  lemma SignedPadSuffices(number: int, base: nat, minwidth: nat, fillWithZero: bool)
    requires ValidBase(base) && IsInt(number)
    ensures
      |Itoa(number, base, minwidth, fillWithZero)| <= CAPACITY <==>
      (base >= 3 || -0x200_0000 < number < 0x400_0000) && WidthInPad(minwidth, fillWithZero)
  {
    if number >= 0 {
      PadSuffices(number, base, minwidth, fillWithZero);
    } else {
      var width := WidthLeft(number, minwidth);
      UtoaLength(-number, base, width, fillWithZero, CAPACITY - 1);
      DigitsFit(-number, base);
      WidthFits(width);
    }
  }
}
