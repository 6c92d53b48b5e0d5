// The conversions of monitor/string.c in its static pad, which they fill from its end.

module Pad {
  import opened RuntimeAbi
  import opened Numerals

  const PAD_SIZE: nat := CAPACITY + 1

  class Conversions {
    const pad: array<char>
    var padPtr: nat

    ghost predicate Valid()
      reads this
    {
      pad.Length == PAD_SIZE && padPtr <= PAD_SIZE
    }

    /** The string that is held, up to its terminator. */
    ghost predicate Holds(text: string)
      reads this, pad
    {
      && Valid() && padPtr + |text| == PAD_SIZE - 1
      && pad[padPtr..] == text + ['\0']
    }

    constructor ()
      ensures Valid() && fresh(pad)
    {
      pad := new char[PAD_SIZE];
      padPtr := PAD_SIZE;
    }

    method Init()
      requires Valid()
      modifies this`padPtr, pad
      ensures Holds("")
    {
      padPtr := PAD_SIZE;
      padPtr := padPtr - 1;
      pad[padPtr] := '\0';
    }

    /** pad_hold, whose assertion is that there is space left. */
    method PadHold(c: char, ghost text: string)
      requires Holds(text) && |text| < CAPACITY
      modifies this`padPtr, pad
      ensures Holds([c] + text)
    {
      padPtr := padPtr - 1;
      pad[padPtr] := c;
      assert pad[padPtr + 1..] == old(pad[padPtr..]);
    }

    method PadLen(ghost text: string) returns (n: nat)
      requires Holds(text)
      ensures n == |text|
    {
      n := PAD_SIZE - padPtr - 1;
    }

    method HoldSeparated(c: char, ghost text: string)
      requires Holds(text) && |Hold(c, text)| <= CAPACITY
      modifies this`padPtr, pad
      ensures Holds(Hold(c, text))
    {
      var len := PadLen(text);
      if (len + 1) % 5 == 0 {
        PadHold('_', text);
      }
      PadHold(c, Separated(text));
    }

    method UtoaPadW(n: nat, base: nat, minwidth: nat, fillWithZero: bool)
      requires Valid() && ValidBase(base)
      requires n < UINT && (base >= 3 || n < 0x400_0000) && WidthInPad(minwidth, fillWithZero)
      modifies this`padPtr, pad
      ensures Holds(Utoa(n, base, minwidth, fillWithZero))
    {
      PadSuffices(n, base, minwidth, fillWithZero);
      var fillchar := if fillWithZero then '0' else ' ';
      Init();
      ghost var text := "";
      FillGrows(Numerals.Written(n, base), minwidth + minwidth / 5, minwidth);
      if n == 0 {
        PadHold('0', text);
        text := "0";
      } else {
        var number: nat := n;
        while number > 0
          invariant Holds(text) && Digits(text, number, base) == Numerals.Written(n, base)
          decreases number
        {
          DigitsGrow(Hold(DigitToChar(Remainder(number, base)), text), Quotient(number, base), base);
          IsDivision(number, base);
          var digit := number % base;
          HoldSeparated(DigitToChar(digit), text);
          text := Hold(DigitToChar(digit), text);
          number := number / base;
        }
      }
      var len := PadLen(text);
      if fillWithZero {
        while len < minwidth + minwidth / 5
          invariant Holds(text) && len == |text|
          invariant ZeroFill(text, minwidth + minwidth / 5) == Utoa(n, base, minwidth, fillWithZero)
          decreases minwidth + minwidth / 5 - len
        {
          FillGrows(Hold('0', text), minwidth + minwidth / 5, 0);
          HoldSeparated(fillchar, text);
          text := Hold('0', text);
          len := PadLen(text);
        }
      } else {
        while len < minwidth
          invariant Holds(text) && len == |text|
          invariant SpaceFill(text, minwidth) == Utoa(n, base, minwidth, fillWithZero)
          decreases minwidth - len
        {
          FillGrows([' '] + text, 0, minwidth);
          PadHold(fillchar, text);
          text := [' '] + text;
          len := PadLen(text);
        }
      }
    }

    method ItoaPadW(number: int, base: nat, minwidth: nat, fillWithZero: bool)
      requires Valid() && ValidBase(base)
      requires IsInt(number) && (base >= 3 || -0x200_0000 < number < 0x400_0000)
      requires WidthInPad(minwidth, fillWithZero)
      modifies this`padPtr, pad
      ensures Holds(Itoa(number, base, minwidth, fillWithZero))
    {
      SignedPadSuffices(number, base, minwidth, fillWithZero);
      var neg := number < 0;
      var abs := if neg then -number else number;
      var width := minwidth;
      if width > 0 {
        width := width - if neg then 1 else 0;
      }
      UtoaPadW(abs, base, width, fillWithZero);
      if neg {
        PadHold('-', Utoa(abs, base, width, fillWithZero));
      }
    }
  }

  lemma {:induction false} DigitsGrow(text: string, number: nat, base: nat)
    requires ValidBase(base)
    ensures |text| <= |Digits(text, number, base)|
    decreases number
  {
    if number > 0 {
      DigitsGrow(Hold(DigitToChar(Remainder(number, base)), text), Quotient(number, base), base);
    }
  }

  lemma FillGrows(text: string, zeros: nat, spaces: nat)
    ensures |text| <= |ZeroFill(text, zeros)| && |text| <= |SpaceFill(text, spaces)|
  {
    ZeroFillGrows(text, zeros);
    SpaceFillGrows(text, spaces);
  }

  lemma {:induction false} ZeroFillGrows(text: string, width: nat)
    ensures |text| <= |ZeroFill(text, width)|
    decreases width - |text|
  {
    if |text| < width {
      ZeroFillGrows(Hold('0', text), width);
    }
  }

  lemma {:induction false} SpaceFillGrows(text: string, width: nat)
    ensures |text| <= |SpaceFill(text, width)|
    decreases width - |text|
  {
    if |text| < width {
      SpaceFillGrows([' '] + text, width);
    }
  }
}
