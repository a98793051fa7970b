/** Printing numbers without needless zeros: doubleToStr (misc.cpp) and quotationDoubleToStr
    (quotationlistdelegate.cpp).  The toolkit's fixed-point rendering of the number is given. */
module DecimalPrinter {
  import opened Amount

  // ---------- the code ----------

  /** QString::indexOf('.'). */
  function IndexOfPoint(s: string): int {
    if Point(s) < |s| then Point(s) else -1
  }

  /** `num.mid(0, num.indexOf('.') + prec)`: with a point, `prec - 1` decimals are kept. */
  function Cut(num: string, prec: nat): string {
    var pos := IndexOfPoint(num) + prec;
    if 0 <= pos < |num| then num[..pos] else num
  }

  function Trimmed(s: string): string {
    if |s| <= 1 then s
    else if s[|s| - 1] == '0' then Trimmed(s[..|s| - 1])
    else if s[|s| - 1] == '.' then s[..|s| - 1]
    else s
  }

  /** The backward loop the two printers have in common. */
  method Trim(s: string) returns (str: string)
    ensures str == Trimmed(s)
  {
    str := s;
    var i := |str| - 1;
    while i > 0
      invariant i == |str| - 1 && Trimmed(str) == Trimmed(s)
    {
      if str[i] == '0' {
        str := str[..|str| - 1];
      } else {
        if str[i] == '.' {
          str := str[..|str| - 1];
          assert Trimmed(s) == str;
        }
        return str;
      }
      i := i - 1;
    }
  }

  /** doubleToStr, for the rendering with six decimals. */
  method DoubleToStr(num: string) returns (str: string)
    ensures str == Printed(num, 6)
  {
    str := Cut(num, 6);
    str := Trim(str);
  }

  function Printed(num: string, prec: nat): string { Trimmed(Cut(num, prec)) }

  /** quotationDoubleToStr: more and more decimals are tried while the result is "0". */
  method QuotationDoubleToStr(render: nat -> string, prec: nat) returns (str: string)
    ensures exists p :: IsFirst(render, prec, p) && str == Printed(render(p), p)
    decreases 9 - prec
  {
    hide Cut, Trimmed, IsFirst;
    str := Cut(render(prec), prec);
    str := Trim(str);
    assert str == Printed(render(prec), prec);
    if str == "0" && prec <= 8 {
      str := QuotationDoubleToStr(render, prec + 1);
      ghost var p :| IsFirst(render, prec + 1, p) && str == Printed(render(p), p);
      GoneOn(render, prec, p);
    } else {
      Stopped(render, prec);
    }
  }

  /** The precision the search stops at: the first that does not print "0", or the last tried. */
  ghost predicate IsFirst(render: nat -> string, prec: nat, p: nat) {
    && prec <= p && (p <= 9 || p == prec)
    && (forall q :: prec <= q < p ==> Printed(render(q), q) == "0")
    && (Printed(render(p), p) != "0" || p >= 9)
  }

  lemma GoneOn(render: nat -> string, prec: nat, p: nat)
    requires Printed(render(prec), prec) == "0" && prec <= 8 && IsFirst(render, prec + 1, p)
    ensures IsFirst(render, prec, p)
  {
    hide Printed;
  }

  lemma Stopped(render: nat -> string, prec: nat)
    requires Printed(render(prec), prec) != "0" || prec > 8
    ensures IsFirst(render, prec, prec)
  {
    hide Printed;
  }

  // ---------- what is printed ----------

  /** A rendering with `n` decimals: a sign perhaps, digits, a point, digits. */
  predicate IsRendering(num: string, whole: string, frac: string) {
    && num == whole + "." + frac && Digits(frac)
    && Digits(Unsigned(whole)) && Unsigned(whole) != ""
  }

  function Unsigned(whole: string): string {
    if whole != "" && whole[0] == '-' then whole[1..] else whole
  }

  function StripZeros(f: string): (g: string)
    ensures |g| <= |f| && g == f[..|g|]
    ensures g == "" || g[|g| - 1] != '0'
    ensures forall k :: |g| <= k < |f| ==> f[k] == '0'
  {
    if f != "" && f[|f| - 1] == '0' then StripZeros(f[..|f| - 1]) else f
  }

  /** The whole part is printed untouched, and then the decimals kept, without trailing zeros and
      without the point if none are left. */
  lemma PrintedDigits(num: string, whole: string, frac: string, prec: nat)
    requires IsRendering(num, whole, frac) && 1 <= prec <= |frac| + 1
    ensures var g := StripZeros(frac[..prec - 1]);
            Printed(num, prec) == if g == "" then whole else whole + "." + g
  {
    PointAfterWhole(num, whole, frac);
    assert Cut(num, prec) == whole + "." + frac[..prec - 1];
    TrimDecimals(whole, frac[..prec - 1]);
  }

  /** A text without a point, like "nan", is printed as it is unless it ends with a zero. */
  lemma PrintedWithoutPoint(num: string, prec: nat)
    requires Point(num) == |num| < prec && (num == "" || num[|num| - 1] != '0')
    ensures Printed(num, prec) == num
  {
  }

  lemma PointAfterWhole(num: string, whole: string, frac: string)
    requires IsRendering(num, whole, frac)
    ensures Point(num) == |whole|
  {
    assert num[|whole|] == '.';
    forall k | 0 <= k < |whole| ensures num[k] != '.' {
      assert num[k] == whole[k];
      if whole[0] == '-' && k > 0 {
        assert Unsigned(whole)[k - 1] == whole[k];
      }
    }
  }

  lemma {:induction false} TrimDecimals(whole: string, f: string)
    requires Digits(f) && whole != ""
    ensures var g := StripZeros(f);
            Trimmed(whole + "." + f) == if g == "" then whole else whole + "." + g
  {
    var s := whole + "." + f;
    if f == "" {
      assert s[..|s| - 1] == whole;
    } else if f[|f| - 1] == '0' {
      assert s[..|s| - 1] == whole + "." + f[..|f| - 1];
      TrimDecimals(whole, f[..|f| - 1]);
    } else {
      assert StripZeros(f) == f;
    }
  }

  /** The decimals printed denote the rendered ones cut off after the fifth: scaled to five
      decimals, they are the six-digit number without its last digit. */
  lemma PrintsTruncation(num: string, whole: string, frac: string)
    requires IsRendering(num, whole, frac) && |frac| == 6
    ensures var g := StripZeros(frac[..5]);
            && Digits(g) && Number(g) * Pow10(5 - |g|) == Number(frac) / 10
            && Printed(num, 6) == if g == "" then whole else whole + "." + g
  {
    PrintedDigits(num, whole, frac, 6);
    StripKeepsValue(frac[..5]);
    assert frac[..|frac| - 1] == frac[..5];
  }

  lemma {:induction false} StripKeepsValue(f: string)
    requires Digits(f)
    ensures var g := StripZeros(f); Digits(g) && Number(g) * Pow10(|f| - |g|) == Number(f)
  {
    if f != "" && f[|f| - 1] == '0' {
      var h := f[..|f| - 1];
      StripKeepsValue(h);
      var g := StripZeros(h);
      Shift(Number(g), |h| - |g|);
    }
  }

  lemma Shift(n: nat, k: nat)
    ensures n * Pow10(k + 1) == 10 * (n * Pow10(k))
  {
  }

  // ---------- which numbers print as zero ----------

  /** The toolkit's rendering of `x` with `p` decimals: a sign if `x` is negative, then the whole
      multiple of 10^-p nearest to its size, the even one of two, without needless leading zeros. */
  ghost predicate Renders(num: string, x: real, p: nat) {
    exists whole, frac :: RendersAs(num, x, p, whole, frac)
  }

  predicate RendersAs(num: string, x: real, p: nat, whole: string, frac: string) {
    && IsRendering(num, whole, frac) && |frac| == p
    && (whole[0] == '-' <==> x < 0.0)
    && (|Unsigned(whole)| > 1 ==> Unsigned(whole)[0] != '0')
    && Nearest(Number(Unsigned(whole) + frac), Shifted(Size(x), p))
  }

  function Size(x: real): (s: real)
    ensures s >= 0.0
  {
    if x < 0.0 then -x else x
  }

  /** The point moved `p` places to the right. */
  function Shifted(x: real, p: nat): real {
    if p == 0 then x else 10.0 * Shifted(x, p - 1)
  }

  predicate Nearest(n: nat, y: real) {
    var off := n as real - y;
    -0.5 <= off <= 0.5 && (off == 0.5 || off == -0.5 ==> n % 2 == 0)
  }

  lemma {:induction false} ZeroDigits(s: string)
    requires Digits(s)
    ensures Number(s) == 0 <==> forall k :: 0 <= k < |s| ==> s[k] == '0'
  {
    if s != "" {
      ZeroDigits(s[..|s| - 1]);
      assert forall k :: 0 <= k < |s| - 1 ==> s[..|s| - 1][k] == s[k];
    }
  }

  /** Rounded to less than ten units of the last decimal, a number has no digit left once that
      decimal is dropped, and conversely. */
  lemma NothingLeft(whole: string, frac: string)
    requires Digits(whole) && Digits(frac) && whole != "" && frac != ""
    requires |whole| > 1 ==> whole[0] != '0'
    ensures Number(whole + frac) < 10 <==> whole == "0" && StripZeros(frac[..|frac| - 1]) == ""
  {
    hide StripZeros, Number;
    var all, kept := whole + frac, frac[..|frac| - 1];
    assert all[..|all| - 1] == whole + kept;
    LessThanTen(all);
    ZeroDigits(whole + kept);
    AllZeros(whole, kept);
    StripsToNothing(kept);
  }

  lemma LessThanTen(s: string)
    requires Digits(s) && s != ""
    ensures Number(s) < 10 <==> Number(s[..|s| - 1]) == 0
  {
  }

  lemma AllZeros(whole: string, kept: string)
    requires whole != "" && (|whole| > 1 ==> whole[0] != '0')
    ensures (forall k :: 0 <= k < |whole + kept| ==> (whole + kept)[k] == '0')
            <==> whole == "0" && forall k :: 0 <= k < |kept| ==> kept[k] == '0'
  {
    assert (whole + kept)[0] == whole[0];
    assert forall k :: 0 <= k < |kept| ==> (whole + kept)[|whole| + k] == kept[k];
  }

  lemma StripsToNothing(f: string)
    ensures StripZeros(f) == "" <==> forall k :: 0 <= k < |f| ==> f[k] == '0'
  {
    var g := StripZeros(f);
    if g != "" {
      assert f[|g| - 1] == g[|g| - 1] != '0';
    }
  }

  lemma RoundsBelowTen(n: nat, y: real)
    requires Nearest(n, y)
    ensures n < 10 <==> y < 9.5
  {
  }

  /** Less than nine and a half units of the `p`-th decimal. */
  predicate Tiny(x: real, p: nat) { Shifted(Size(x), p) < 9.5 }

  /** What prints as "0" or "-0" at a precision: the tiny numbers, as their sign says. */
  lemma PrintsZeroIff(num: string, x: real, p: nat)
    requires p >= 1 && Renders(num, x, p)
    ensures Printed(num, p) == "0" <==> 0.0 <= x && Tiny(x, p)
    ensures Printed(num, p) == "-0" <==> x < 0.0 && Tiny(x, p)
  {
    hide Printed, Number, Shifted, Nearest, StripZeros, Size;
    var whole, frac :| RendersAs(num, x, p, whole, frac);
    PrintsZeroText(num, whole, frac);
    NothingLeft(Unsigned(whole), frac);
    RoundsBelowTen(Number(Unsigned(whole) + frac), Shifted(Size(x), p));
  }

  lemma PrintsZeroText(num: string, whole: string, frac: string)
    requires IsRendering(num, whole, frac) && frac != ""
    ensures var none := Unsigned(whole) == "0" && StripZeros(frac[..|frac| - 1]) == "";
            && (Printed(num, |frac|) == "0" <==> whole[0] != '-' && none)
            && (Printed(num, |frac|) == "-0" <==> whole[0] == '-' && none)
  {
    hide Printed, StripZeros;
    PrintedDigits(num, whole, frac, |frac|);
    assert whole[0] == '-' ==> whole == "-" + Unsigned(whole);
  }

  /** All renderings the search may ask for are of the number `x`. */
  ghost predicate RendersAll(render: nat -> string, x: real) {
    forall q :: 6 <= q <= 9 ==> Renders(render(q), x, q)
  }

  lemma {:induction false} TinyBefore(x: real, p: nat, q: nat)
    requires p <= q && Tiny(x, q)
    ensures Tiny(x, p)
  {
    if p < q {
      NotNegative(Size(x), q - 1);
      TinyBefore(x, p, q - 1);
    }
  }

  lemma {:induction false} NotNegative(size: real, p: nat)
    requires size >= 0.0
    ensures Shifted(size, p) >= 0.0
  {
    if p > 0 {
      NotNegative(size, p - 1);
    }
  }

  lemma SixAndNine(x: real)
    ensures Shifted(x, 6) == x * 1_000_000.0 && Shifted(x, 9) == x * 1_000_000_000.0
  {
    assert Shifted(x, 1) == x * 10.0;
    assert Shifted(x, 2) == x * 100.0;
    assert Shifted(x, 4) == x * 10_000.0;
    assert Shifted(x, 6) == x * 1_000_000.0;
    assert Shifted(x, 8) == x * 100_000_000.0;
  }

  /** The search gives up and returns "0" exactly for the numbers from zero to below nine and a
      half units of the ninth decimal. */
  lemma SearchExhausted(render: nat -> string, x: real, p: nat)
    requires RendersAll(render, x) && IsFirst(render, 6, p)
    ensures Printed(render(p), p) == "0" <==> 0.0 <= x && x * 1_000_000_000.0 < 9.5
  {
    hide Printed, Renders, Shifted;
    SixAndNine(Size(x));
    PrintsZeroIff(render(p), x, p);
    if Tiny(x, 9) {
      TinyBefore(x, p, 9);
    }
  }

  /** A negative number is never searched further than the sixth decimal, and it is returned as "-0"
      exactly if its size is below nine and a half units of that decimal. */
  lemma NegativeNotSearched(render: nat -> string, x: real, p: nat)
    requires RendersAll(render, x) && IsFirst(render, 6, p)
    ensures x < 0.0 ==> p == 6
    ensures Printed(render(p), p) == "-0" <==> x < 0.0 && -x * 1_000_000.0 < 9.5
  {
    hide Printed, Renders, Shifted;
    SixAndNine(Size(x));
    PrintsZeroIff(render(6), x, 6);
    PrintsZeroIff(render(p), x, p);
  }

  // ---------- a hundred-millionth ----------

  const HUNDRED_MILLIONTH := 0.00000001

  /** Its decimals at the precisions from six to nine. */
  function TinyDecimals(q: nat): (frac: string)
    ensures Digits(frac) && (6 <= q <= 9 ==> |frac| == q)
  {
    if q == 6 then "000000" else if q == 7 then "0000000" else if q == 8 then "00000001" else "000000010"
  }

  /** A hundred-millionth is searched for up to the ninth decimal, where it prints in full; with a
      minus sign the search ends at the sixth, where it prints as "-0". */
  lemma SameSizeOtherSign()
    ensures var plus := (q: nat) => "0" + "." + TinyDecimals(q);
            RendersAll(plus, HUNDRED_MILLIONTH) && IsFirst(plus, 6, 9) && Printed(plus(9), 9) == "0.00000001"
    ensures var minus := (q: nat) => "-0" + "." + TinyDecimals(q);
            RendersAll(minus, -HUNDRED_MILLIONTH) && IsFirst(minus, 6, 6) && Printed(minus(6), 6) == "-0"
  {
    hide Printed, Renders, Shifted, TinyDecimals;
    var plus, minus := (q: nat) => "0" + "." + TinyDecimals(q), (q: nat) => "-0" + "." + TinyDecimals(q);
    forall q | 6 <= q <= 9
      ensures Renders(plus(q), HUNDRED_MILLIONTH, q) && Renders(minus(q), -HUNDRED_MILLIONTH, q)
      ensures q < 9 ==> Printed(plus(q), q) == "0"
    {
      ShownTiny(q);
      PrintsZeroIff(plus(q), HUNDRED_MILLIONTH, q);
      MovedTiny();
      if q < 9 {
        TinyBefore(HUNDRED_MILLIONTH, q, 8);
      }
    }
    PrintedInFull();
    MovedTiny();
    PrintsZeroIff(minus(6), -HUNDRED_MILLIONTH, 6);
    TinyBefore(-HUNDRED_MILLIONTH, 6, 8);
  }

  lemma MovedTiny()
    ensures Shifted(HUNDRED_MILLIONTH, 6) == 0.01 && Shifted(HUNDRED_MILLIONTH, 7) == 0.1
    ensures Shifted(HUNDRED_MILLIONTH, 8) == 1.0 && Shifted(HUNDRED_MILLIONTH, 9) == 10.0
  {
    SixAndNine(HUNDRED_MILLIONTH);
    assert Shifted(HUNDRED_MILLIONTH, 7) == 10.0 * Shifted(HUNDRED_MILLIONTH, 6);
    assert Shifted(HUNDRED_MILLIONTH, 8) == 10.0 * Shifted(HUNDRED_MILLIONTH, 7);
  }

  lemma ShownTiny(q: nat)
    requires 6 <= q <= 9
    ensures Renders("0" + "." + TinyDecimals(q), HUNDRED_MILLIONTH, q)
    ensures Renders("-0" + "." + TinyDecimals(q), -HUNDRED_MILLIONTH, q)
  {
    hide Number, Shifted, TinyDecimals;
    var frac := TinyDecimals(q);
    TinyUnits(q);
    MovedTiny();
    assert RendersAs("0" + "." + frac, HUNDRED_MILLIONTH, q, "0", frac);
    assert RendersAs("-0" + "." + frac, -HUNDRED_MILLIONTH, q, "-0", frac);
  }

  lemma TinyUnits(q: nat)
    requires 6 <= q <= 9
    ensures Number("0" + TinyDecimals(q)) == if q == 9 then 10 else if q == 8 then 1 else 0
  {
    hide Number;
    if q == 6 {
      assert "0" + TinyDecimals(q) == "0000000";
      ZeroDigits("0000000");
    } else {
      assert "0" + TinyDecimals(7) == "00000000";
      ZeroDigits("00000000");
      if q > 7 {
        OneAndTen();
        assert TinyDecimals(q) == if q == 8 then "00000001" else "000000010";
      }
    }
  }

  lemma OneAndTen()
    ensures Number("0" + "00000001") == 1 && Number("0" + "000000010") == 10
  {
    hide Number;
    var one, ten := "0" + "00000001", "0" + "000000010";
    ZeroDigits("00000000");
    assert one[..8] == "00000000" && one[8] == '1' && ten[..9] == one && ten[9] == '0';
    LastDigit(one);
    LastDigit(ten);
  }

  lemma PrintedInFull()
    ensures Printed("0" + "." + TinyDecimals(9), 9) == "0.00000001"
  {
    hide Printed;
    var frac := TinyDecimals(9);
    PrintedDigits("0" + "." + frac, "0", frac, 9);
    assert frac[..8] == "00000001" && StripZeros("00000001") == "00000001";
    assert "0" + "." + "00000001" == "0.00000001";
  }
}
