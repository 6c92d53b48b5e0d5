// 64-bit division as monitor/arm/runtime-abi.c does it, by repeated subtraction, and the baud rate
// register that is computed with it.

module RuntimeAbi {
  const INT64: nat := 0x8000_0000_0000_0000

  /** How often a divisor can be taken off a number. */
  function Quotient(n: nat, d: nat): (q: nat)
    requires d > 0
    ensures q <= n && (n > 0 && d > 1 ==> q < n)
    decreases n
  {
    if n < d then 0 else 1 + Quotient(n - d, d)
  }

  /** What is left then. */
  function Remainder(n: nat, d: nat): (r: nat)
    requires d > 0
    ensures r < d
    decreases n
  {
    if n < d then n else Remainder(n - d, d)
  }

  lemma {:induction false} DivisionLaw(n: nat, d: nat)
    requires d > 0
    ensures n == Quotient(n, d) * d + Remainder(n, d)
    decreases n
  {
    if n >= d {
      DivisionLaw(n - d, d);
      var q := Quotient(n - d, d);
      assert Quotient(n, d) == 1 + q;
      assert (1 + q) * d == d + q * d;
    } else {
      assert Quotient(n, d) == 0;
      assert 0 * d == 0;
    }
  }

  lemma {:induction false} OnlyQuotient(n: nat, d: nat, q: nat, r: nat)
    requires d > 0 && n == q * d + r && r < d
    ensures q == Quotient(n, d) && r == Remainder(n, d)
    decreases n
  {
    if q > 0 {
      assert q * d == (q - 1) * d + d;
      OnlyQuotient(n - d, d, q - 1, r);
    }
  }

  lemma IsDivision(n: nat, d: nat)
    requires d > 0
    ensures n / d == Quotient(n, d) && n % d == Remainder(n, d)
  {
    assert n == d * (n / d) + n % d;
    assert d * (n / d) == (n / d) * d;
    OnlyQuotient(n, d, n / d, n % d);
  }

  /** The loop ends if and only if the divisor is positive or there is nothing to take off. */
  predicate Ends(numerator: int, denominator: int) {
    denominator > 0 || numerator < denominator
  }

  /** Division as C defines it for a positive divisor: the remainder has the numerator's sign. */
  predicate Truncates(n: int, d: int, q: int, r: int)
    requires d > 0
  {
    n == q * d + r && if n >= 0 then 0 <= r < d else -d < r <= 0
  }

  /** __aeabi_ldivmod */
  method LDivMod(numerator: int, denominator: int) returns (quotient: int, remainder: int)
    requires Ends(numerator, denominator)
    ensures numerator == quotient * denominator + remainder && remainder < denominator
    ensures numerator >= 0 && denominator > 0 ==>
      quotient == Quotient(numerator, denominator) && remainder == Remainder(numerator, denominator)
    ensures denominator > 0 ==> (0 <= remainder <==> 0 <= numerator)
    ensures numerator < denominator ==> quotient == 0 && remainder == numerator
    ensures denominator > 0 ==>
      (Truncates(numerator, denominator, quotient, remainder) <==> -denominator < numerator)
  {
    var n := numerator;
    quotient := 0;
    while n >= denominator
      invariant numerator == quotient * denominator + n
      invariant Ends(n, denominator)
      invariant n < 0 ==> n == numerator
      invariant numerator < denominator ==> quotient == 0 && n == numerator
      invariant quotient >= 0
      decreases n
    {
      assert (quotient + 1) * denominator == quotient * denominator + denominator;
      n := n - denominator;
      quotient := quotient + 1;
    }
    remainder := n;
    if numerator >= 0 && denominator > 0 {
      OnlyQuotient(numerator, denominator, quotient, remainder);
    }
  }

  /** Without a positive divisor no round gets the loop to its end, and with a negative one the
      numerator runs past the largest 64-bit number. */
  lemma {:induction false} NeverEnds(numerator: int, denominator: int, rounds: nat)
    requires !Ends(numerator, denominator)
    ensures numerator - rounds * denominator >= denominator
    ensures denominator < 0 && rounds > INT64 ==> numerator - rounds * denominator >= INT64
    ensures denominator == 0 ==> numerator - rounds * denominator == numerator
  {
    if rounds > 0 {
      NeverEnds(numerator, denominator, rounds - 1);
      assert rounds * denominator == (rounds - 1) * denominator + denominator;
      if denominator < 0 {
        ScaleLe(rounds - 1, 1, -denominator);
        assert (rounds - 1) * -denominator == -((rounds - 1) * denominator);
      }
    }
  }

  /** __aeabi_uldivmod */
  method ULDivMod(numerator: nat, denominator: nat) returns (quotient: nat, remainder: nat)
    requires denominator > 0
    ensures quotient == Quotient(numerator, denominator) && remainder == Remainder(numerator, denominator)
  {
    quotient, remainder := LDivMod(numerator, denominator);
  }

  /** Signed division of what is not negative. */
  method Divide(numerator: nat, denominator: nat) returns (quotient: nat)
    requires denominator > 0
    ensures quotient == Quotient(numerator, denominator)
  {
    var remainder;
    quotient, remainder := LDivMod(numerator, denominator);
  }

  // ---- The baud rate divider

  const UINT32: nat := 0x1_0000_0000

  /** A hundred times clock over sixteen times baud rate, rounded down. */
  function Calc100(inputClock: nat, baudrate: nat): nat
    requires baudrate > 0
  {
    Quotient(Quotient(inputClock * 100, baudrate), 16)
  }

  function Mantissa(calc100: nat): nat {
    Quotient(calc100, 100)
  }

  function Fractional(calc100: nat): (f: nat)
    ensures f < 16
  {
    DivisionLaw(Remainder(calc100, 100) * 16, 100);
    Quotient(Remainder(calc100, 100) * 16, 100)
  }

  /** Bitwise or. */
  function Or(a: nat, b: nat): nat
    decreases a + b
  {
    if a == 0 && b == 0 then 0
    else 2 * Or(a / 2, b / 2) + if a % 2 == 1 || b % 2 == 1 then 1 else 0
  }

  lemma {:induction false} OrZero(a: nat)
    ensures Or(a, 0) == a
  {
    if a > 0 {
      OrZero(a / 2);
    }
  }

  lemma OrStep(m: nat, f: nat)
    ensures Or(2 * m, f) == 2 * Or(m, f / 2) + f % 2
  {
    assert (2 * m) / 2 == m && (2 * m) % 2 == 0;
    if m == 0 && f == 0 {
    }
  }

  lemma OrTwoSteps(m: nat, f: nat)
    ensures Or(4 * m, f) == 4 * Or(m, f / 4) + f % 4
  {
    OrStep(2 * m, f);
    OrStep(m, f / 2);
    assert f / 2 / 2 == f / 4;
  }

  /** Fields that do not overlap are or-ed by adding them. */
  lemma OrIsSum(m: nat, f: nat)
    requires f < 16
    ensures Or(m * 16, f) == m * 16 + f
  {
    OrTwoSteps(4 * m, f);
    OrTwoSteps(m, f / 4);
    OrZero(m);
    assert f / 4 / 4 == 0;
  }

  function Register(inputClock: nat, baudrate: nat): nat
    requires baudrate > 0
  {
    var c := Calc100(inputClock, baudrate);
    (Mantissa(c) * 16 + Fractional(c)) % UINT32
  }

  /** calculate_baudrate_divider_reg */
  method CalculateBaudrateDividerReg(inputClock: nat, baudrate: nat) returns (reg: nat)
    requires baudrate > 0 && inputClock * 100 < INT64
    ensures reg == Register(inputClock, baudrate)
    ensures inputClock < baudrate * UINT32 ==> Near(inputClock, baudrate, reg)
  {
    var scaled := Divide(inputClock * 100, baudrate);
    var calc100 := Divide(scaled, 16);
    var mantissa, rest := ULDivMod(calc100, 100);
    var fractional, _ := ULDivMod(rest * 16, 100);
    reg := Or(mantissa * 16, fractional) % UINT32;
    FieldsJoin(calc100, mantissa, fractional);
    NearRegister(inputClock, baudrate, reg);
  }

  lemma NearRegister(inputClock: nat, baudrate: nat, reg: nat)
    requires baudrate > 0 && reg == Register(inputClock, baudrate)
    ensures inputClock < baudrate * UINT32 ==> Near(inputClock, baudrate, reg)
  {
    RegisterIsNear(inputClock, baudrate);
  }

  lemma FieldsJoin(calc100: nat, mantissa: nat, fractional: nat)
    requires mantissa == Mantissa(calc100) && fractional == Fractional(calc100)
    ensures Or(mantissa * 16, fractional) == Mantissa(calc100) * 16 + Fractional(calc100)
  {
    OrIsSum(mantissa, fractional);
  }

  /** clock / baud - 1.16 < reg <= clock / baud, in whole numbers. */
  predicate Near(inputClock: nat, baudrate: nat, reg: nat) {
    && baudrate * reg <= inputClock
    && 100 * inputClock < 100 * (baudrate * reg) + 116 * baudrate
  }

  /** Both fields together are sixteen hundredths of the divider. */
  lemma FieldsRound(calc100: nat)
    ensures
      var reg := Mantissa(calc100) * 16 + Fractional(calc100);
      100 * reg <= 16 * calc100 < 100 * reg + 100
  {
    DivisionLaw(calc100, 100);
    DivisionLaw(Remainder(calc100, 100) * 16, 100);
  }

  /** Two roundings one after the other are one. */
  lemma CalcRound(inputClock: nat, baudrate: nat)
    requires baudrate > 0
    ensures
      var c := Calc100(inputClock, baudrate);
      baudrate * (16 * c) <= 100 * inputClock < baudrate * (16 * c + 16)
  {
    var n := inputClock * 100;
    var q := Quotient(n, baudrate);
    DivisionLaw(n, baudrate);
    DivisionLaw(q, 16);
    RoundTwice(n, baudrate, q, Remainder(n, baudrate), Quotient(q, 16), Remainder(q, 16));
  }

  lemma RoundTwice(n: nat, b: nat, q: nat, r: nat, c: nat, s: nat)
    requires n == q * b + r && r < b && q == c * 16 + s && s < 16
    ensures b * (16 * c) <= n < b * (16 * c + 16)
  {
    assert q * b == b * q;
    ScaleLe(b, 16 * c, q);
    ScaleLe(b, q + 1, 16 * c + 16);
    assert b * (q + 1) == b * q + b;
  }

  lemma ScaleLe(b: nat, x: nat, y: nat)
    requires x <= y
    ensures b * x <= b * y
  {
  }

  lemma ScaleBy(b: nat, k: nat, x: nat)
    ensures b * (k * x) == k * (b * x)
  {
  }

  lemma NearBy(inputClock: nat, b: nat, x: nat, reg: nat)
    requires b > 0 && b * x <= 100 * inputClock < b * (x + 16)
    requires 100 * reg <= x < 100 * reg + 100
    ensures Near(inputClock, b, reg)
  {
    ScaleLe(b, 100 * reg, x);
    ScaleLe(b, x + 16, 100 * reg + 115);
    ScaleBy(b, 100, reg);
    assert b * (100 * reg + 115) == b * (100 * reg) + b * 115;
  }

  lemma DividerIsNear(inputClock: nat, baudrate: nat)
    requires baudrate > 0
    ensures
      var c := Calc100(inputClock, baudrate);
      Near(inputClock, baudrate, Mantissa(c) * 16 + Fractional(c))
  {
    var c := Calc100(inputClock, baudrate);
    CalcRound(inputClock, baudrate);
    FieldsRound(c);
    NearBy(inputClock, baudrate, 16 * c, Mantissa(c) * 16 + Fractional(c));
  }

  lemma FitsRegister(inputClock: nat, baudrate: nat, reg: nat)
    requires baudrate > 0 && baudrate * reg <= inputClock < baudrate * UINT32
    ensures reg % UINT32 == reg
  {
    if reg >= UINT32 {
      ScaleLe(baudrate, UINT32, reg);
    }
  }

  lemma RegisterIsNear(inputClock: nat, baudrate: nat)
    requires baudrate > 0
    ensures inputClock < baudrate * UINT32 ==> Near(inputClock, baudrate, Register(inputClock, baudrate))
  {
    if inputClock < baudrate * UINT32 {
      var c := Calc100(inputClock, baudrate);
      DividerIsNear(inputClock, baudrate);
      FitsRegister(inputClock, baudrate, Mantissa(c) * 16 + Fractional(c));
    }
  }
}
