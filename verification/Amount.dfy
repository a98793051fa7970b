/** Turning the typed amount into integer units (achainlightwalletapi.cpp): the check on the
    number of decimals, and the floating-point conversion. */
module Amount {
  import opened Wrappers

  const PRECISION := 100000

  function Pow10(n: nat): (p: nat)
    ensures p >= 1
  {
    if n == 0 then 1 else 10 * Pow10(n - 1)
  }

  // ---------- the decimals check ----------

  /** Position of the first '.', or the length of the text. */
  function Point(s: string): (p: nat)
    ensures p <= |s|
    ensures forall k :: 0 <= k < p ==> s[k] != '.'
    ensures p < |s| ==> s[p] == '.'
  {
    if s == "" || s[0] == '.' then 0 else 1 + Point(s[1..])
  }

  /** Characters after the first '.', whatever they are. */
  function Decimals(s: string): nat {
    if Point(s) == |s| then 0 else |s| - Point(s) - 1
  }

  /** `static_cast<int64_t>(pow(10, n))`: outside the range of int64 the result is whatever the
      platform makes of it. */
  function Pow10AsInt64(n: nat, overflow: int): int {
    if Pow10(n) < 0x8000_0000_0000_0000 then Pow10(n) else overflow
  }

  predicate PrecisionAccepted(s: string, overflow: int) {
    Point(s) == |s| || Pow10AsInt64(Decimals(s), overflow) <= PRECISION
  }

  /** The check passes for at most five decimals, and beyond that exactly where the power of ten
      no longer is an int64 and the platform's value for it happens to be small. */
  lemma PrecisionAcceptedIff(s: string, overflow: int)
    ensures PrecisionAccepted(s, overflow)
            <==> Decimals(s) <= 5 || (Decimals(s) >= 19 && overflow <= PRECISION)
  {
    var n := Decimals(s);
    Pow10Values();
    if n <= 5 {
      Pow10Monotone(n, 5);
    } else if n <= 18 {
      Pow10Monotone(6, n);
      Pow10Monotone(n, 18);
    } else {
      Pow10Monotone(19, n);
    }
  }

  /** A ten-quintillionth passes where the power of ten comes out as the least int64, as it does
      on common processors. */
  lemma NineteenDecimalsAccepted()
    ensures var s := "0.0000000000000000001";
            Decimals(s) == 19 && PrecisionAccepted(s, -0x8000_0000_0000_0000)
  {
    var s := "0.0000000000000000001";
    assert Point(s) == 1;
    PrecisionAcceptedIff(s, -0x8000_0000_0000_0000);
  }

  lemma {:induction false} Pow10Monotone(m: nat, n: nat)
    requires m <= n
    ensures Pow10(m) <= Pow10(n)
  {
    if m < n {
      Pow10Monotone(m, n - 1);
    }
  }

  lemma Pow10Values()
    ensures Pow10(5) == PRECISION && Pow10(6) == 1_000_000
    ensures Pow10(18) == 1_000_000_000_000_000_000 && Pow10(19) == 10_000_000_000_000_000_000
  {
    assert Pow10(3) == 1000;
    assert Pow10(6) == 1000 * Pow10(3);
    assert Pow10(9) == 1000 * Pow10(6);
    assert Pow10(12) == 1000 * Pow10(9);
    assert Pow10(15) == 1000 * Pow10(12);
    assert Pow10(18) == 1000 * Pow10(15);
  }

  // ---------- the conversion ----------

  predicate Digits(s: string) { forall k :: 0 <= k < |s| ==> '0' <= s[k] <= '9' }

  function Number(s: string): (n: nat)
    requires Digits(s)
  {
    if s == "" then 0 else 10 * Number(s[..|s| - 1]) + (s[|s| - 1] as int - '0' as int)
  }

  /** A plain decimal number, some digit in it, with at most five decimals. */
  predicate IsAmount(s: string) {
    Digits(s[..Point(s)]) && Digits(s[|s| - Decimals(s)..]) && Point(s) + Decimals(s) > 0 && Decimals(s) <= 5
  }

  /** Digits weigh ten times as much for each digit that follows. */
  lemma {:induction false} NumberOfParts(a: string, b: string)
    requires Digits(a) && Digits(b)
    ensures Number(a + b) == Number(a) * Pow10(|b|) + Number(b)
  {
    hide Number, Pow10;
    if b == "" {
      assert a + b == a;
      NoDigits();
    } else {
      var c := b[..|b| - 1];
      assert (a + b)[..|a + b| - 1] == a + c;
      LastDigit(a + b);
      LastDigit(b);
      NumberOfParts(a, c);
      TenTimes(Number(a), |c|);
    }
  }

  lemma NoDigits()
    ensures Number("") == 0 && Pow10(0) == 1
  {
  }

  lemma LastDigit(s: string)
    requires Digits(s) && s != ""
    ensures Number(s) == 10 * Number(s[..|s| - 1]) + (s[|s| - 1] as int - '0' as int)
  {
  }

  lemma TenTimes(n: int, k: nat)
    ensures n * Pow10(k + 1) == 10 * (n * Pow10(k))
  {
  }

  lemma NumberOfDigit(c: char)
    requires '0' <= c <= '9'
    ensures Number([c]) == c as int - '0' as int
  {
    assert [c][..0] == "";
  }

  /** A text written as whole part, point and decimals is read that way. */
  lemma PointSplits(whole: string, frac: string)
    requires Digits(whole)
    ensures Point(whole) == |whole| && Decimals(whole) == 0
    ensures var s := whole + "." + frac;
            Point(s) == |whole| && Decimals(s) == |frac| && s[..Point(s)] == whole && s[|s| - Decimals(s)..] == frac
  {
    var s := whole + "." + frac;
    assert s[|whole|] == '.' && forall k :: 0 <= k < |whole| ==> s[k] == whole[k];
  }

  /** So "12" is 1200000 units ... */
  lemma UnitsOfWhole(whole: string)
    requires Digits(whole) && whole != ""
    ensures IsAmount(whole) && Units(whole) == Number(whole) * 100000
  {
    hide Number, Pow10, Point, Decimals;
    PointSplits(whole, "");
    assert whole[..|whole|] == whole && whole[|whole|..] == "";
    NoDigits();
  }

  /** ... and "12.345" is 1234500. */
  lemma UnitsOfText(whole: string, frac: string)
    requires Digits(whole) && Digits(frac) && whole + frac != "" && |frac| <= 5
    ensures var s := whole + "." + frac;
            IsAmount(s) && Units(s) == Number(whole) * 100000 + Number(frac) * Pow10(5 - |frac|)
  {
    hide Number, Pow10, Point, Decimals;
    PointSplits(whole, frac);
  }

  /** The number a text denotes. */
  function Value(s: string): real
    requires IsAmount(s)
  {
    Number(s[..Point(s)]) as real + Number(s[|s| - Decimals(s)..]) as real / Pow10(Decimals(s)) as real
  }

  /** The units a text denotes: hundred-thousandths. */
  function Units(s: string): nat
    requires IsAmount(s)
  {
    Number(s[..Point(s)]) * PRECISION + Number(s[|s| - Decimals(s)..]) * Pow10(5 - Decimals(s))
  }

  /** The units are the value times 100000, exactly. */
  lemma UnitsOfValue(s: string)
    requires IsAmount(s)
    ensures Value(s) * PRECISION as real == Units(s) as real
  {
    hide Number, Pow10;
    var d := Decimals(s);
    Pow10Split(d);
    Distribute(Number(s[..Point(s)]), Number(s[|s| - d..]), Pow10(d), Pow10(5 - d));
  }

  lemma Distribute(whole: nat, frac: nat, p: nat, q: nat)
    requires p > 0 && p * q == PRECISION
    ensures (whole as real + frac as real / p as real) * PRECISION as real == (whole * PRECISION + frac * q) as real
  {
    var part := frac as real / p as real;
    assert p as real * q as real == PRECISION as real;
    Cancel(frac as real, p as real, q as real);
    assert (whole as real + part) * PRECISION as real == whole as real * PRECISION as real + part * PRECISION as real;
  }

  lemma Cancel(r: real, p: real, q: real)
    requires p > 0.0
    ensures (r / p) * (p * q) == r * q
  {
    assert (r / p) * p == r;
  }

  lemma Pow10Split(d: nat)
    requires d <= 5
    ensures Pow10(d) * Pow10(5 - d) == PRECISION
  {
    assert d == 0 || d == 1 || d == 2 || d == 3 || d == 4 || d == 5;
    Pow10Values();
  }

  /** One rounding to a double: relative error at most 2^-53 (section 4.3.1 of IEEE 754-2008). */
  predicate Rounds(exact: real, to: real) {
    var error := to - exact;
    var bound := (if exact < 0.0 then -exact else exact) / 9007199254740992.0;
    -bound <= error <= bound
  }

  /** `floor(stod(s) * 100000 + 0.5)` is the number of units typed, as long as seven times that
      number is at most 2^53: the three roundings together stay below a half. */
  lemma AmountExact(s: string, parsed: real, scaled: real, shifted: real)
    requires IsAmount(s) && 7 * Units(s) <= 9007199254740992
    requires Rounds(Value(s), parsed)
    requires Rounds(parsed * 100000.0, scaled)
    requires Rounds(scaled + 0.5, shifted)
    ensures shifted.Floor == Units(s)
  {
    hide Value, Units;
    UnitsOfValue(s);
    FloorExact(Value(s), Units(s), parsed, scaled, shifted);
  }

  lemma FloorExact(value: real, n: nat, parsed: real, scaled: real, shifted: real)
    requires value * 100000.0 == n as real && 7 * n <= 9007199254740992
    requires Rounds(value, parsed) && Rounds(parsed * 100000.0, scaled) && Rounds(scaled + 0.5, shifted)
    ensures shifted.Floor == n
  {
    var x := n as real;
    assert 0.0 <= value && 0.0 <= parsed && 0.0 <= scaled;
    assert n as real <= shifted < n as real + 1.0;
  }

  /** What the C++ library and the processor contribute: std::stod, which may throw, the rounding of
      a double operation, and the conversion of a double that is no int64. */
  datatype Platform = Platform(stod: string -> Option<real>, round: real -> real, overflow: int)

  /** Sizes well within the normal range of a double. */
  predicate Ordinary(r: real) { r == 0.0 || 0.000001 <= r <= 1_000_000_000_000_000_000.0 }

  /** Correctly rounded, as IEEE 754 asks, where neither underflow nor overflow is near. */
  ghost predicate Accurate(platform: Platform) {
    && (forall r :: Ordinary(r) ==> Rounds(r, platform.round(r)))
    && (forall s :: IsAmount(s) && Ordinary(Value(s)) ==>
          platform.stod(s).Some? && Rounds(Value(s), platform.stod(s).value))
  }

  /** The units a typed text is turned into, if no check fails. */
  function AmountOf(typed: string, platform: Platform): Option<int> {
    if !PrecisionAccepted(typed, platform.overflow) || platform.stod(typed).None? then None
    else
      var scaled := platform.round(platform.stod(typed).value * PRECISION as real);
      Some(platform.round(scaled + 0.5).Floor)
  }

  /** There is no amount exactly if a text has 6 to 18 decimals, or more and the platform's value for
      the power of ten is not small, or if std::stod throws. */
  lemma NoAmountIff(typed: string, platform: Platform)
    ensures AmountOf(typed, platform).None? <==>
            || 6 <= Decimals(typed) <= 18
            || (Decimals(typed) >= 19 && platform.overflow > 100000)
            || platform.stod(typed).None?
  {
    PrecisionAcceptedIff(typed, platform.overflow);
  }

  /** Whatever the text, if the double operations happen to be exact the amount is the whole number
      of units nearest to the value read, halves going up. */
  lemma NearestUnits(typed: string, platform: Platform)
    requires AmountOf(typed, platform).Some?
    requires var v := platform.stod(typed).value;
             platform.round(v * 100000.0) == v * 100000.0 && platform.round(v * 100000.0 + 0.5) == v * 100000.0 + 0.5
    ensures var v, u := platform.stod(typed).value, AmountOf(typed, platform).value as real;
            u - 0.5 <= v * 100000.0 < u + 0.5
  {
  }

  /** An amount of at most five decimals passes and is turned into the units typed. */
  lemma TypedUnits(typed: string, platform: Platform)
    requires Accurate(platform) && IsAmount(typed) && 7 * Units(typed) <= 9007199254740992
    ensures AmountOf(typed, platform) == Some(Units(typed))
  {
    hide Value, Units, Rounds, Ordinary, PrecisionAccepted;
    PrecisionAcceptedIff(typed, platform.overflow);
    var n := Units(typed);
    UnitsOfValue(typed);
    OrdinaryValue(Value(typed), n);
    var parsed := platform.stod(typed).value;
    OrdinaryParsed(Value(typed), n, parsed);
    var scaled := platform.round(parsed * 100000.0);
    OrdinaryScaled(parsed * 100000.0, scaled);
    AmountExact(typed, parsed, scaled, platform.round(scaled + 0.5));
  }

  lemma OrdinaryValue(value: real, n: nat)
    requires value * 100000.0 == n as real && 7 * n <= 9007199254740992
    ensures Ordinary(value)
  {
  }

  lemma OrdinaryParsed(value: real, n: nat, parsed: real)
    requires value * 100000.0 == n as real && 7 * n <= 9007199254740992 && Rounds(value, parsed)
    ensures Ordinary(parsed * 100000.0) && 0.0 <= parsed * 100000.0 <= 10_000_000_000_000_000.0
  {
    assert value == 0.0 || value >= 0.00001;
  }

  lemma OrdinaryScaled(exact: real, scaled: real)
    requires 0.0 <= exact <= 10_000_000_000_000_000.0 && Rounds(exact, scaled)
    ensures Ordinary(scaled + 0.5)
  {
  }
}
