/**
 Integer base units printed as decimal strings (`decimal_string`), with `str`, `rjust`, slicing and
 `rstrip` written out on digit strings, and a parser that knows nothing of the printer.
 */
module Amounts {
  import opened Wrappers
  import opened Positional

  const ALGO_DECIMALS: nat := 6

  /******* Digit strings *******/

  predicate IsDigit(c: char) {
    '0' <= c <= '9'
  }

  predicate AllDigits(s: string) {
    forall i :: 0 <= i < |s| ==> IsDigit(s[i])
  }

  function DigitVal(c: char): nat {
    if IsDigit(c) then c as int - '0' as int else 0
  }

  function DigitChar(n: nat): (c: char)
    requires n < 10
    ensures IsDigit(c) && DigitVal(c) == n
  {
    ('0' as int + n) as char
  }

  function Vals(s: string): (ds: seq<nat>)
    ensures |ds| == |s|
    ensures AreDigits(10, ds)
  {
    seq(|s|, i requires 0 <= i < |s| => DigitVal(s[i]))
  }

  /** `int(s)` for a string of decimal digits. */
  function NatOf(s: string): nat {
    Num(10, Vals(s))
  }

  lemma NatOfSnoc(s: string, c: char)
    ensures NatOf(s + [c]) == NatOf(s) * 10 + DigitVal(c)
  {
    assert Vals(s + [c])[..|s|] == Vals(s);
  }

  lemma ValsAppend(s: string, t: string)
    ensures Vals(s + t) == Vals(s) + Vals(t)
  {}

  lemma NatOfAppend(s: string, t: string)
    ensures NatOf(s + t) == NatOf(s) * Pow(10, |t|) + NatOf(t)
  {
    ValsAppend(s, t);
    NumAppend(10, Vals(s), Vals(t));
  }

  lemma NatOfBound(s: string)
    ensures NatOf(s) < Pow(10, |s|)
  {
    NumBound(10, Vals(s));
  }

  lemma {:induction false} LeadingDigit(s: string)
    requires s != "" && DigitVal(s[0]) >= 1
    ensures NatOf(s) >= Pow(10, |s| - 1)
  {
    var n := |s| - 1;
    assert s == s[..n] + [s[n]];
    NatOfSnoc(s[..n], s[n]);
    if n > 0 {
      LeadingDigit(s[..n]);
    }
  }

  /** Digit strings of one length are equal when their numbers are. */
  lemma NatOfInjective(s: string, t: string)
    requires AllDigits(s) && AllDigits(t) && |s| == |t|
    requires NatOf(s) == NatOf(t)
    ensures s == t
  {
    NumInjective(10, Vals(s), Vals(t));
    forall i | 0 <= i < |s| ensures s[i] == t[i] {
      assert Vals(s)[i] == Vals(t)[i];
    }
  }

  /** No superfluous leading zero: what `str` prints and what JSON accepts as an integer. */
  predicate IsNumeral(s: string) {
    s != "" && AllDigits(s) && (s[0] == '0' ==> |s| == 1)
  }

  /** `str(n)` for a natural number. */
  function NatStr(n: nat): (s: string)
    ensures IsNumeral(s)
    ensures n > 0 ==> s[0] != '0'
  {
    if n < 10 then [DigitChar(n)] else NatStr(n / 10) + [DigitChar(n % 10)]
  }

  lemma {:induction false} NatOfNatStr(n: nat)
    ensures NatOf(NatStr(n)) == n
  {
    if n < 10 {
      NatOfSnoc("", DigitChar(n));
      assert "" + [DigitChar(n)] == NatStr(n);
    } else {
      NatOfNatStr(n / 10);
      NatOfSnoc(NatStr(n / 10), DigitChar(n % 10));
    }
  }

  /** `str` inverts `int` on numerals without superfluous zeros. */
  lemma {:induction false} NatStrNatOf(s: string)
    requires IsNumeral(s)
    ensures NatStr(NatOf(s)) == s
  {
    var n := |s| - 1;
    var t, c := s[..n], s[n];
    assert s == t + [c];
    NatOfSnoc(t, c);
    if n > 0 {
      NatStrNatOf(t);
      assert NatOf(t) > 0;
    }
  }

  /** `str(n)` for an integer. */
  function IntStr(n: int): (s: string)
    ensures s != ""
  {
    if n < 0 then "-" + NatStr(-n) else NatStr(n)
  }

  /** `int(s)` for an optional minus sign and decimal digits. */
  function IntOf(s: string): int {
    if s != "" && s[0] == '-' then 0 - NatOf(s[1..]) else NatOf(s) + 0
  }

  lemma IntOfIntStr(n: int)
    ensures IntOf(IntStr(n)) == n
  {
    if n < 0 {
      NatOfNatStr(-n);
    } else {
      NatOfNatStr(n);
    }
  }

  /******* Padding and trimming *******/

  function Zeros(n: nat): (s: string)
    ensures |s| == n && AllDigits(s)
  {
    seq(n, _ => '0')
  }

  lemma NatOfZeros(n: nat)
    ensures NatOf(Zeros(n)) == 0
  {
    assert Vals(Zeros(n)) == seq(n, _ => 0);
    NumZero(10, n);
  }

  /** `s.rjust(width, "0")` */
  function RJust(s: string, width: nat): (r: string)
    ensures |r| == if |s| < width then width else |s|
    ensures AllDigits(s) ==> AllDigits(r)
  {
    if |s| < width then Zeros(width - |s|) + s else s
  }

  /** `s.rstrip("0")` */
  function RStrip(s: string): (r: string)
    ensures r <= s
    ensures r != "" ==> r[|r| - 1] != '0'
    ensures s == r + Zeros(|s| - |r|)
  {
    if s != "" && s[|s| - 1] == '0' then RStrip(s[..|s| - 1]) else s
  }

  /******* Decimal notation *******/

  /** The rational m/p. */
  function Ratio(m: int, p: nat): real
    requires p > 0
  {
    m as real / p as real
  }

  /** A signed decimal: `whole` before the point, `frac` after it (no point when empty). */
  datatype Decimal = Decimal(negative: bool, whole: string, frac: string) {
    /** In canonical notation: -?(0|[1-9][0-9]*)(\.[0-9]*[1-9])? and not a negative zero. */
    predicate Canonical() {
      && IsNumeral(whole)
      && AllDigits(frac)
      && (frac != "" ==> frac[|frac| - 1] != '0')
      && !(negative && whole == "0" && frac == "")
    }

    /** Sign, integral part, and a point only before a fraction. */
    function Show(): string {
      (if negative then "-" else "") + Unsigned()
    }

    function Unsigned(): string {
      if frac != "" then whole + "." + frac else whole
    }

    /** The integer that results from moving the point behind the last fractional digit. */
    function Mantissa(): int {
      (if negative then -1 else 1) * NatOf(whole + frac)
    }

    /** The number denoted. */
    function Value(): real {
      Ratio(Mantissa(), Pow(10, |frac|))
    }
  }

  /** The length of the longest prefix of digits. */
  function DigitSpan(s: string): (n: nat)
    ensures n <= |s| && AllDigits(s[..n])
    ensures n < |s| ==> !IsDigit(s[n])
  {
    if s == "" || !IsDigit(s[0]) then 0
    else
      var n := 1 + DigitSpan(s[1..]);
      assert forall i :: 0 < i < n ==> s[i] == s[1..][i - 1];
      n
  }

  /** Reads canonical notation and nothing else. */
  function Read(s: string): Option<Decimal> {
    if s != "" && s[0] == '-' then ReadUnsigned(true, s[1..]) else ReadUnsigned(false, s)
  }

  function ReadUnsigned(negative: bool, body: string): Option<Decimal> {
    var n := DigitSpan(body);
    var d := if n == |body| then Decimal(negative, body, "") else Decimal(negative, body[..n], body[n + 1..]);
    if d.Canonical() && (n < |body| ==> body[n] == '.' && d.frac != "") then Some(d) else None
  }

  lemma {:induction false} DigitSpanStops(digits: string, rest: string)
    requires AllDigits(digits) && (rest != "" ==> !IsDigit(rest[0]))
    ensures DigitSpan(digits + rest) == |digits|
  {
    if digits == "" {
      assert digits + rest == rest;
    } else {
      assert (digits + rest)[1..] == digits[1..] + rest;
      DigitSpanStops(digits[1..], rest);
    }
  }

  lemma ReadUnsignedShow(d: Decimal)
    requires d.Canonical()
    ensures ReadUnsigned(d.negative, d.Unsigned()) == Some(d)
  {
    hide DigitSpan;
    if d.frac == "" {
      assert d.whole == d.whole + "";
      DigitSpanStops(d.whole, "");
    } else {
      assert d.Unsigned() == d.whole + ("." + d.frac);
      DigitSpanStops(d.whole, "." + d.frac);
    }
  }

  /** The reader recovers the parts of a canonical decimal... */
  lemma ReadShow(d: Decimal)
    requires d.Canonical()
    ensures Read(d.Show()) == Some(d)
  {
    hide ReadUnsigned;
    ReadUnsignedShow(d);
    if d.negative {
      assert d.Show()[1..] == d.Unsigned();
    } else {
      assert d.Show() == d.Unsigned() && d.Unsigned()[0] == d.whole[0];
    }
  }

  lemma ShowReadUnsigned(negative: bool, body: string)
    requires ReadUnsigned(negative, body).Some?
    ensures var d := ReadUnsigned(negative, body).value;
      d.Canonical() && d.negative == negative && d.Unsigned() == body
  {
    hide DigitSpan;
    var d, n := ReadUnsigned(negative, body).value, DigitSpan(body);
    if n < |body| {
      assert body == body[..n] + [body[n]] + body[n + 1..];
    }
  }

  /** ...and accepts no other string. */
  lemma ShowRead(s: string)
    requires Read(s).Some?
    ensures Read(s).value.Canonical() && Read(s).value.Show() == s
  {
    hide ReadUnsigned;
    if s != "" && s[0] == '-' {
      ShowReadUnsigned(true, s[1..]);
      assert s == "-" + s[1..];
    } else {
      ShowReadUnsigned(false, s);
      assert "" + s == s;
    }
  }

  /******* Notation determines and is determined by the number *******/

  lemma CancelRight(x: int, y: int, p: nat)
    requires p > 0 && x * p == y * p
    ensures x == y
  {
    if x < y {
      MulMono(x + 1, y, p);
      assert false;
    } else if y < x {
      MulMono(y + 1, x, p);
      assert false;
    }
  }

  lemma MantissaDropPoint(d: Decimal)
    ensures NatOf(d.whole + d.frac) == NatOf(d.whole) * Pow(10, |d.frac|) + NatOf(d.frac)
  {
    NatOfAppend(d.whole, d.frac);
  }

  /** A fraction that is not empty ends in a digit that keeps the mantissa from being a multiple of ten. */
  lemma MantissaNotMultipleOfTen(d: Decimal)
    requires d.Canonical() && d.frac != ""
    ensures NatOf(d.whole + d.frac) % 10 != 0
  {
    var s := d.whole + d.frac;
    var n := |s| - 1;
    assert s == s[..n] + [s[n]];
    NatOfSnoc(s[..n], s[n]);
  }

  lemma ZeroHasNoSign(d: Decimal)
    requires d.Canonical() && NatOf(d.whole + d.frac) == 0
    ensures !d.negative
  {
    if d.frac != "" {
      MantissaNotMultipleOfTen(d);
    } else {
      assert d.whole + d.frac == d.whole;
      NatStrNatOf(d.whole);
      assert NatStr(0) == "0";
    }
  }

  /** Two canonical decimals with equal mantissas and equal scales are the same decimal. */
  lemma CanonicalUniqueAtScale(x: Decimal, y: Decimal)
    requires x.Canonical() && y.Canonical()
    requires |x.frac| == |y.frac| && x.Mantissa() == y.Mantissa()
    ensures x == y
  {
    MantissaDropPoint(x);
    MantissaDropPoint(y);
    NatOfBound(x.frac);
    NatOfBound(y.frac);
    assert NatOf(x.whole + x.frac) == NatOf(y.whole + y.frac);
    DivModUnique(Pow(10, |x.frac|), NatOf(x.whole), NatOf(x.frac), NatOf(y.whole), NatOf(y.frac));
    NatOfInjective(x.frac, y.frac);
    NatStrNatOf(x.whole);
    NatStrNatOf(y.whole);
    if NatOf(x.whole + x.frac) == 0 {
      ZeroHasNoSign(x);
      ZeroHasNoSign(y);
    }
  }

  /** Of two mantissas for one number, the one with the larger scale is a multiple of ten. */
  lemma ScaleGap(m: int, j: nat, n: int, k: nat)
    requires j < k && m * Pow(10, k) == n * Pow(10, j)
    ensures n % 10 == 0
  {
    var h := m * Pow(10, k - j - 1);
    assert Pow(10, k - j) == 10 * Pow(10, k - j - 1);
    MulAssoc(m, Pow(10, k - j - 1), 10);
    PowAdd(10, k - j, j);
    MulAssoc(m, Pow(10, k - j), Pow(10, j));
    CancelRight(h * 10, n, Pow(10, j));
  }

  lemma CanonicalScaleUnique(x: Decimal, y: Decimal)
    requires x.Canonical() && y.Canonical()
    requires x.Mantissa() * Pow(10, |y.frac|) == y.Mantissa() * Pow(10, |x.frac|)
    ensures |y.frac| <= |x.frac|
  {
    if |x.frac| < |y.frac| {
      ScaleGap(x.Mantissa(), |x.frac|, y.Mantissa(), |y.frac|);
      MantissaNotMultipleOfTen(y);
      assert false;
    }
  }

  /** Canonical notation is unique: equal numbers (compared by cross-multiplication), equal decimals. */
  lemma CanonicalUnique(x: Decimal, y: Decimal)
    requires x.Canonical() && y.Canonical()
    requires x.Mantissa() * Pow(10, |y.frac|) == y.Mantissa() * Pow(10, |x.frac|)
    ensures x == y
  {
    CanonicalScaleUnique(x, y);
    CanonicalScaleUnique(y, x);
    CancelRight(x.Mantissa(), y.Mantissa(), Pow(10, |x.frac|));
    CanonicalUniqueAtScale(x, y);
  }

  /******* What the printer prints *******/

  function Scale(decimals: int): nat {
    if decimals <= 0 then 0 else decimals
  }

  function Magnitude(amount: int): nat {
    if amount < 0 then -amount else amount
  }

  lemma NatOfRJust(n: nat, width: nat)
    ensures NatOf(RJust(NatStr(n), width)) == n
  {
    NatOfNatStr(n);
    if |NatStr(n)| < width {
      var pad := width - |NatStr(n)|;
      NatOfAppend(Zeros(pad), NatStr(n));
      NatOfZeros(pad);
    }
  }

  /** The integral part left by the slice has no superfluous leading zero. */
  lemma WholeIsNumeral(n: nat, decimals: nat)
    requires decimals > 0
    ensures var digits := RJust(NatStr(n), decimals + 1); IsNumeral(digits[..|digits| - decimals])
  {
    var digits := RJust(NatStr(n), decimals + 1);
    var whole := digits[..|digits| - decimals];
    forall i | 0 <= i < |whole| ensures IsDigit(whole[i]) {
      assert whole[i] == digits[i];
    }
  }

  /** The sign, and the two slices of the padded digits with the fraction's trailing zeros removed. */
  function Parts(amount: int, decimals: int): Decimal {
    if decimals <= 0 then
      Decimal(amount < 0, NatStr(Magnitude(amount)), "")
    else
      var digits := RJust(NatStr(Magnitude(amount)), decimals + 1);
      var whole, frac := digits[..|digits| - decimals], digits[|digits| - decimals..];
      Decimal(amount < 0, whole, RStrip(frac))
  }

  /** `decimal_string`: integer base units to a decimal string, without floating point. */
  function DecimalString(amount: int, decimals: int): string {
    if decimals <= 0 then IntStr(amount) else Parts(amount, decimals).Show()
  }

  lemma NatOfTrimmed(digits: string, kept: string, cut: nat)
    requires digits == kept + Zeros(cut)
    ensures NatOf(digits) == NatOf(kept) * Pow(10, cut)
  {
    NatOfAppend(kept, Zeros(cut));
    NatOfZeros(cut);
  }

  lemma PartsKeepDigits(amount: int, decimals: nat)
    requires decimals > 0
    ensures var d := Parts(amount, decimals);
      && |d.frac| <= decimals
      && RJust(NatStr(Magnitude(amount)), decimals + 1) == d.whole + d.frac + Zeros(decimals - |d.frac|)
  {
    hide NatStr, RJust, RStrip;
  }

  /** The digits that are kept, times the power of ten that was stripped, make up the amount. */
  lemma PartsMantissa(amount: int, decimals: int)
    ensures var d := Parts(amount, decimals);
      && |d.frac| <= Scale(decimals)
      && NatOf(d.whole + d.frac) * Pow(10, Scale(decimals) - |d.frac|) == Magnitude(amount)
  {
    var d, n := Parts(amount, decimals), Magnitude(amount);
    if decimals <= 0 {
      NatOfNatStr(n);
      assert d.whole + d.frac == NatStr(n);
    } else {
      hide Parts, RJust, NatOf, Pow;
      PartsKeepDigits(amount, decimals);
      NatOfRJust(n, decimals + 1);
      NatOfTrimmed(RJust(NatStr(n), decimals + 1), d.whole + d.frac, decimals - |d.frac|);
    }
  }

  lemma PartsCanonical(amount: int, decimals: int)
    ensures Parts(amount, decimals).Canonical()
  {
    var d, n := Parts(amount, decimals), Magnitude(amount);
    PartsMantissa(amount, decimals);
    if decimals > 0 {
      WholeIsNumeral(n, decimals);
    }
    if d.whole == "0" && d.frac == "" {
      assert d.whole + d.frac == NatStr(0);
      NatOfNatStr(0);
    }
  }

  /** `str(amount)` also shows the parts of an amount without decimals. */
  lemma PartsShow(amount: int, decimals: int)
    ensures Parts(amount, decimals).Show() == DecimalString(amount, decimals)
  {
    hide NatStr, RJust, RStrip;
    if decimals <= 0 && amount >= 0 {
      assert Parts(amount, decimals).Show() == "" + NatStr(amount) == NatStr(amount);
    }
  }

  /******* Main results *******/

  /** Every printed amount is in canonical notation (in particular never "-0"), and reads back as its parts. */
  lemma PrintedIsCanonical(amount: int, decimals: int)
    ensures Read(DecimalString(amount, decimals)) == Some(Parts(amount, decimals))
    ensures Parts(amount, decimals).Canonical()
    ensures DecimalString(amount, decimals) != "-0"
  {
    hide Read, Parts, DecimalString;
    PartsShow(amount, decimals);
    PartsCanonical(amount, decimals);
    ReadShow(Parts(amount, decimals));
    MinusZeroUnreadable();
  }

  lemma MinusZeroUnreadable()
    ensures Read("-0").None?
  {
    assert "-0"[1..] == "0";
    assert DigitSpan("0") == 1;
  }

  /** The printed mantissa and scale are those of amount / 10^decimals, by cross-multiplication. */
  lemma PartsExact(amount: int, decimals: int)
    ensures var d := Parts(amount, decimals);
      d.Mantissa() * Pow(10, Scale(decimals)) == amount * Pow(10, |d.frac|)
  {
    hide Parts;
    PartsMantissa(amount, decimals);
    PartsSign(amount, decimals);
    var d := Parts(amount, decimals);
    var k, n := |d.frac|, NatOf(d.whole + d.frac);
    var sign := if d.negative then -1 else 1;
    PowAdd(10, Scale(decimals) - k, k);
    calc {
      d.Mantissa() * Pow(10, Scale(decimals));
      { MulAssoc(sign, n, Pow(10, Scale(decimals))); }
      sign * (n * Pow(10, Scale(decimals)));
      { MulAssoc(n, Pow(10, Scale(decimals) - k), Pow(10, k)); }
      sign * (Magnitude(amount) * Pow(10, k));
      { MulAssoc(sign, Magnitude(amount), Pow(10, k)); }
      amount * Pow(10, k);
    }
  }

  lemma PartsSign(amount: int, decimals: int)
    ensures Parts(amount, decimals).negative <==> amount < 0
  {}

  lemma RatioEqual(m: int, p: nat, a: int, q: nat)
    requires p > 0 && q > 0
    ensures Ratio(m, p) == Ratio(a, q) <==> m * q == a * p
  {
    var x, y := Ratio(m, p), Ratio(a, q);
    assert x * p as real == m as real && y * q as real == a as real;
    assert (m * q) as real == x * (p as real * q as real);
    assert (a * p) as real == y * (p as real * q as real);
  }

  lemma RatioSum(a: int, b: int, p: nat)
    requires p > 0
    ensures Ratio(a, p) + Ratio(b, p) == Ratio(a + b, p)
  {}

  /** Reading a printed amount back gives the exact rational `amount` / 10^`decimals`. */
  lemma PrintedValueIsExact(amount: int, decimals: int)
    ensures var r := Read(DecimalString(amount, decimals));
      r.Some? && r.value.Value() == Ratio(amount, Pow(10, Scale(decimals)))
  {
    hide Read, DecimalString, Parts;
    PrintedIsCanonical(amount, decimals);
    PartsExact(amount, decimals);
    var d := Parts(amount, decimals);
    RatioEqual(d.Mantissa(), Pow(10, |d.frac|), amount, Pow(10, Scale(decimals)));
  }

  /** Canonical decimals of equal value are equal. */
  lemma EqualValuesEqualDecimals(x: Decimal, y: Decimal)
    requires x.Canonical() && y.Canonical()
    ensures x.Value() == y.Value() <==> x == y
  {
    RatioEqual(x.Mantissa(), Pow(10, |x.frac|), y.Mantissa(), Pow(10, |y.frac|));
    if x.Value() == y.Value() {
      CanonicalUnique(x, y);
    }
  }

  /** Equal strings exactly for equal numbers, whatever the two scales. */
  lemma PrintedEqualIff(a: int, d: nat, b: int, e: nat)
    ensures DecimalString(a, d) == DecimalString(b, e) <==> a * Pow(10, e) == b * Pow(10, d)
  {
    hide DecimalString, Read;
    PrintedValueIsExact(a, d);
    PrintedValueIsExact(b, e);
    ShowRead(DecimalString(a, d));
    ShowRead(DecimalString(b, e));
    var x, y := Read(DecimalString(a, d)).value, Read(DecimalString(b, e)).value;
    assert x == y <==> DecimalString(a, d) == DecimalString(b, e);
    EqualValuesEqualDecimals(x, y);
    RatioEqual(a, Pow(10, d), b, Pow(10, e));
  }

  /** The printer reaches every canonical string, so strings and rationals of scale at most d correspond one to one. */
  lemma PrinterIsOnto(s: string)
    requires Read(s).Some?
    ensures var d := Read(s).value; DecimalString(d.Mantissa(), |d.frac|) == s
  {
    var d := Read(s).value;
    hide DecimalString, Read;
    PrintedValueIsExact(d.Mantissa(), |d.frac|);
    ShowRead(s);
    ShowRead(DecimalString(d.Mantissa(), |d.frac|));
    EqualValuesEqualDecimals(Read(DecimalString(d.Mantissa(), |d.frac|)).value, d);
  }

  /** Printed amounts add up: the parsed strings of two amounts and of their sum agree with no rounding. */
  lemma PrintedSum(a: int, b: int, decimals: int)
    ensures var x, y, z := Read(DecimalString(a, decimals)), Read(DecimalString(b, decimals)), Read(DecimalString(a + b, decimals));
      x.Some? && y.Some? && z.Some? && x.value.Value() + y.value.Value() == z.value.Value()
  {
    hide Read, DecimalString;
    PrintedValueIsExact(a, decimals);
    PrintedValueIsExact(b, decimals);
    PrintedValueIsExact(a + b, decimals);
    RatioSum(a, b, Pow(10, Scale(decimals)));
  }
}
