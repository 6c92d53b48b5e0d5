// menu_number of monitor/menu.c: a number typed key by key, without callbacks for options.

module MenuNumber {
  import opened RuntimeAbi
  import opened Numerals

  /** A key, where the quote takes the next character with it and is no key alone. */
  datatype Key = Typed(c: char) | Quoted(value: nat)

  datatype State = State(number: int, base: nat, sign: bool)

  const CTRL_B: char := 2 as char
  const CTRL_I: char := 9 as char
  const CTRL_Z: char := 26 as char
  const BACKSPACE: char := 8 as char

  /** Division in C rounds towards zero. */
  function Truncated(x: int, base: nat): int
    requires base > 0
  {
    if x >= 0 then Quotient(x, base) else -(Quotient(-x, base) as int)
  }

  function Initial(initNumber: int): State {
    State(initNumber, 10, initNumber < 0)
  }

  predicate Valid(s: State) {
    s.base == 10 || s.base == 16
  }

  /** The guard of a digit. */
  predicate Accepts(s: State, digit: nat)
    requires Valid(s)
  {
    if s.sign then Truncated(INT_MIN + digit, s.base) <= s.number
    else Truncated(INT_MAX - digit, s.base) >= s.number
  }

  function Extended(s: State, digit: nat): int {
    if s.sign then s.number * s.base - digit else s.number * s.base + digit
  }

  function Press(s: State, initNumber: int, key: Key): (t: State)
    requires Valid(s)
    ensures Valid(t)
  {
    match key
    case Quoted(value) => s.(sign := false, number := value)
    case Typed(c) =>
      var digit := CharToDigit(c);
      if digit < s.base then
        if Accepts(s, digit) then s.(number := Extended(s, digit)) else s
      else if c == CTRL_B then s.(base := if s.base == 10 then 16 else 10)
      else if c == CTRL_I then s.(number := initNumber, sign := initNumber < 0)
      else if c == CTRL_Z then s.(number := 0, sign := false)
      else if c == '-' then
        if s.number == 0 then s.(sign := !s.sign)
        else s.(number := Flipped(s.number), sign := Flipped(s.number) < 0)
      else if c == BACKSPACE then s.(number := Truncated(s.number, s.base))
      else s
  }

  /** The sign bounds the number, and the number fits. */
  predicate Inv(s: State) {
    && Valid(s) && IsInt(s.number)
    && (if s.sign then s.number <= 0 else s.number >= 0)
  }

  // ---- Digits

  lemma QuotientAtLeast(x: nat, base: nat, n: nat)
    requires base > 0
    ensures Quotient(x, base) >= n <==> x >= n * base
  {
    DivideBound(x, base, n);
    assert n * base == base * n;
  }

  lemma TruncatedBounds(digit: nat, base: nat, n: int)
    requires digit < base <= 16 && base > 0
    ensures n >= 0 ==> (Truncated(INT_MAX - digit, base) >= n <==> n * base + digit <= INT_MAX)
    ensures n <= 0 ==> (Truncated(INT_MIN + digit, base) <= n <==> n * base - digit >= INT_MIN)
  {
    if n >= 0 {
      QuotientAtLeast(INT_MAX - digit, base, n);
    }
    if n <= 0 {
      QuotientAtLeast(-INT_MIN - digit, base, -n);
      assert (-n) * base == -(n * base);
    }
  }

  /** A digit is accepted if and only if the number with it fits in 32 bits. */
  lemma AcceptsIffFits(s: State, digit: nat)
    requires Inv(s) && digit < s.base
    ensures Accepts(s, digit) <==> IsInt(Extended(s, digit))
  {
    TruncatedBounds(digit, s.base, s.number);
    SignKept(s.number, s.base);
  }

  lemma SignKept(n: int, b: nat)
    ensures n <= 0 ==> n * b <= 0
    ensures n >= 0 ==> n * b >= 0
  {
  }

  lemma TruncatedIsInt(x: int, base: nat)
    requires base > 0 && IsInt(x)
    ensures IsInt(Truncated(x, base))
    ensures x >= 0 ==> Truncated(x, base) >= 0
    ensures x <= 0 ==> Truncated(x, base) <= 0
  {
  }

  predicate IsKey(key: Key) {
    match key
    case Typed(c) => c != '\''
    case Quoted(value) => value < 256
  }

  /** What the keys do that are no digits. Backspace rounds towards zero. */
  lemma OtherKeys(s: State, initNumber: int, c: char)
    requires Inv(s) && CharToDigit(c) >= s.base
    ensures
      var t := Press(s, initNumber, Typed(c));
      if c as int == 2 then t == s.(base := 26 - s.base)
      else if c as int == 9 then t == State(initNumber, s.base, initNumber < 0)
      else if c as int == 26 then t == State(0, s.base, false)
      else if c == '-' then
        && t.base == s.base
        && if s.number == 0 then t.number == 0 && t.sign == !s.sign
           else t.number == (if s.number == INT_MIN then INT_MIN else -s.number) && t.sign == (t.number < 0)
      else if c as int == 8 then
        && t == s.(number := t.number) && (if s.number >= 0 then t.number >= 0 else t.number <= 0)
        && (if s.number >= 0 then 0 <= s.number - t.number * s.base < s.base
            else -(s.base as int) < s.number - t.number * s.base <= 0)
      else t == s
  {
    if c as int == 8 {
      if s.number >= 0 {
        DivisionLaw(s.number, s.base);
      } else {
        DivisionLaw(-s.number, s.base);
        assert -(Quotient(-s.number, s.base) * s.base) == -(Quotient(-s.number, s.base) as int) * s.base;
      }
    }
  }

  /** A quoted character is its own value. */
  lemma QuotedKey(s: State, initNumber: int, value: nat)
    requires Valid(s)
    ensures Press(s, initNumber, Quoted(value)) == State(value, s.base, false)
  {
  }

  lemma PressKeepsInv(s: State, initNumber: int, key: Key)
    requires Inv(s) && IsInt(initNumber) && IsKey(key)
    ensures Inv(Press(s, initNumber, key))
  {
    if key.Typed? {
      var digit := CharToDigit(key.c);
      if digit < s.base {
        AcceptsIffFits(s, digit);
        SignKept(s.number, s.base);
      } else {
        TruncatedIsInt(s.number, s.base);
      }
    }
  }

  lemma TruncatedBack(n: int, base: nat, digit: nat)
    requires digit < base
    ensures n >= 0 ==> Truncated(n * base + digit, base) == n
    ensures n <= 0 ==> Truncated(n * base - digit, base) == n
  {
    if n >= 0 {
      assert n * base >= 0;
      OnlyQuotient(n * base + digit, base, n, digit);
    }
    if n <= 0 {
      var m := -n;
      assert m * base >= 0 && n * base == -(m * base);
      OnlyQuotient(m * base + digit, base, m, digit);
    }
  }

  /** Backspace undoes an accepted digit. */
  lemma BackspaceUndoes(s: State, initNumber: int, c: char)
    requires Inv(s) && CharToDigit(c) < s.base && Accepts(s, CharToDigit(c))
    ensures Press(Press(s, initNumber, Typed(c)), initNumber, Typed(BACKSPACE)) == s
  {
    assert CharToDigit(BACKSPACE) == 255;
    TruncatedBack(s.number, s.base, CharToDigit(c));
  }

  // ---- Whole entries

  function Entered(s: State, initNumber: int, keys: seq<Key>): (t: State)
    requires Valid(s)
    ensures Valid(t)
    decreases |keys|
  {
    if keys == [] then s else Entered(Press(s, initNumber, keys[0]), initNumber, keys[1..])
  }

  /** Whatever is typed, the number fits in 32 bits and the sign bounds it. */
  lemma {:induction false} EveryEntry(s: State, initNumber: int, keys: seq<Key>)
    requires Inv(s) && IsInt(initNumber) && forall i :: 0 <= i < |keys| ==> IsKey(keys[i])
    ensures Inv(Entered(s, initNumber, keys))
    decreases |keys|
  {
    if keys != [] {
      PressKeepsInv(s, initNumber, keys[0]);
      EveryEntry(Press(s, initNumber, keys[0]), initNumber, keys[1..]);
    }
  }

  function Keys(text: string): (keys: seq<Key>)
    ensures |keys| == |text|
  {
    seq(|text|, i requires 0 <= i < |text| => Typed(text[i]))
  }

  lemma KeysMore(text: string, c: char)
    ensures Keys(text + [c]) == Keys(text) + [Typed(c)]
  {
  }

  lemma {:induction false} EnteredMore(s: State, initNumber: int, keys: seq<Key>, key: Key)
    requires Valid(s)
    ensures Entered(s, initNumber, keys + [key]) == Press(Entered(s, initNumber, keys), initNumber, key)
    decreases |keys|
  {
    if keys == [] {
      assert ([key])[1..] == [];
    } else {
      assert (keys + [key])[1..] == keys[1..] + [key];
      EnteredMore(Press(s, initNumber, keys[0]), initNumber, keys[1..], key);
    }
  }

  function Signed(n: nat, sign: bool): int {
    if sign then -(n as int) else n
  }

  lemma TypeDigit(n: nat, q: nat, r: nat, base: nat, sign: bool, initNumber: int)
    requires (base == 10 || base == 16) && n == q * base + r && r < base
    requires IsInt(Signed(n, sign))
    ensures Press(State(Signed(q, sign), base, sign), initNumber, Typed(DigitToChar(r))) ==
            State(Signed(n, sign), base, sign)
  {
    DigitRoundTrip(r);
    assert Signed(q, true) * base == -(q * base);
    assert q <= n;
    AcceptsIffFits(State(Signed(q, sign), base, sign), r);
  }

  /** Typing the digits of a number that fits enters that number, with the sign set or not. */
  lemma {:induction false} TypingEnters(n: nat, base: nat, sign: bool, initNumber: int)
    requires (base == 10 || base == 16) && IsInt(Signed(n, sign))
    ensures Entered(State(0, base, sign), initNumber, Keys(Plain(n, base))) == State(Signed(n, sign), base, sign)
    decreases n
  {
    if n > 0 {
      var q, r := Quotient(n, base), Remainder(n, base);
      TypingEnters(q, base, sign, initNumber);
      DivisionLaw(n, base);
      TypeDigit(n, q, r, base, sign, initNumber);
      KeysMore(Plain(q, base), DigitToChar(r));
      EnteredMore(State(0, base, sign), initNumber, Keys(Plain(q, base)), Typed(DigitToChar(r)));
    }
  }

  /** The number starts out as the initial one, and in base 10: Ctrl-Z and decimal digits enter what
      they say. */
  lemma FirstKeys(initNumber: int, n: nat)
    requires IsInt(initNumber) && n <= INT_MAX
    ensures Entered(Initial(initNumber), initNumber, []).number == initNumber
    ensures Entered(Initial(initNumber), initNumber, [Typed(26 as char)] + Keys(Plain(n, 10))) == State(n, 10, false)
  {
    var s := Initial(initNumber);
    var zero := Typed(26 as char);
    assert Press(s, initNumber, zero) == State(0, 10, false);
    TypingEnters(n, 10, false, initNumber);
    EnteredFirst(s, initNumber, zero, Keys(Plain(n, 10)));
  }

  lemma EnteredFirst(s: State, initNumber: int, key: Key, keys: seq<Key>)
    requires Valid(s)
    ensures Entered(s, initNumber, [key] + keys) == Entered(Press(s, initNumber, key), initNumber, keys)
  {
    assert ([key] + keys)[1..] == keys;
  }

  /** The loop over the keys, up to the one that submits. */
  method EnterNumber(initNumber: int, keys: seq<Key>) returns (result: int, used: nat)
    requires IsInt(initNumber) && forall i :: 0 <= i < |keys| ==> IsKey(keys[i])
    ensures used <= |keys| && (used < |keys| ==> keys[used] == Typed('\r'))
    ensures forall i :: 0 <= i < used ==> keys[i] != Typed('\r')
    ensures result == Entered(Initial(initNumber), initNumber, keys[..used]).number
    ensures IsInt(result)
  {
    var number := initNumber;
    var base: nat := 10;
    var sign := number < 0;
    used := 0;
    assert keys[..0] == [];
    while used < |keys| && keys[used] != Typed('\r')
      invariant used <= |keys| && forall i :: 0 <= i < used ==> keys[i] != Typed('\r')
      invariant State(number, base, sign) == Entered(Initial(initNumber), initNumber, keys[..used])
      invariant Inv(State(number, base, sign))
      decreases |keys| - used
    {
      ghost var s := State(number, base, sign);
      EnteredMore(Initial(initNumber), initNumber, keys[..used], keys[used]);
      assert keys[..used + 1] == keys[..used] + [keys[used]];
      PressKeepsInv(s, initNumber, keys[used]);
      match keys[used] {
        case Quoted(value) =>
          sign := false;
          number := value;
        case Typed(c) =>
          var digit := CharToDigit(c);
          if digit < base {
            if sign {
              if Truncated(INT_MIN + digit, base) <= number {
                number := number * base;
                number := number - digit;
              }
            } else {
              if Truncated(INT_MAX - digit, base) >= number {
                number := number * base;
                number := number + digit;
              }
            }
          } else if c == CTRL_B {
            base := if base == 10 then 16 else 10;
          } else if c == CTRL_I {
            sign := initNumber < 0;
            number := initNumber;
          } else if c == CTRL_Z {
            sign := false;
            number := 0;
          } else if c == '-' {
            if number == 0 {
              sign := !sign;
            } else {
              number := Flipped(number);
              sign := number < 0;
            }
          } else if c == BACKSPACE {
            number := Truncated(number, base);
          }
      }
      used := used + 1;
    }
    result := number;
  }
}
