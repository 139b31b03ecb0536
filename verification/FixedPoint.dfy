/**
 * Conversions between 64.64 binary fixed point, decimal-N integers and printed decimals (`utils.ts`), on exact
 * decimals: a printed number is its sign and its digits, where the source goes on through a float.
 */
module FixedPoint {
  import opened Prelude

  const DECIMALS18 := 1_000_000_000_000_000_000

  // ---------------------------------------------------------------- decimal digits

  /** `toString` of a non-negative integer. */
  function Digits(n: nat): (s: string)
    ensures |s| >= 1
  {
    if n < 10 then [Digit(n)] else Digits(n / 10) + [Digit(n % 10)]
  }

  function Digit(d: nat): (ch: char)
    requires d < 10
  {
    ('0' as int + d) as char
  }

  function DigitValue(ch: char): nat {
    if '0' <= ch <= '9' then ch as int - '0' as int else 0
  }

  /** `BigInt(s)` for a string of digits. */
  function Value(s: string): nat {
    if s == "" then 0 else 10 * Value(s[..|s| - 1]) + DigitValue(s[|s| - 1])
  }

  function Zeros(k: nat): (s: string)
    ensures |s| == k
  {
    seq(k, _ => '0')
  }

  lemma {:induction false} DigitsReadBack(n: nat)
    ensures Value(Digits(n)) == n
    ensures '.' !in Digits(n)
  {
    if n >= 10 {
      DigitsReadBack(n / 10);
      assert Digits(n)[..|Digits(n)| - 1] == Digits(n / 10);
    } else {
      assert Digits(n)[..0] == "";
    }
  }

  lemma {:induction false} FewDigits(n: nat, k: nat)
    requires k >= 1
    ensures |Digits(n)| <= k <==> n < Pow10(k)
  {
    if k == 1 {
      assert Pow10(1) == 10;
    } else if n >= 10 {
      FewDigits(n / 10, k - 1);
    } else {
      FewDigits(0, k - 1);
    }
  }

  lemma {:induction false} LeadingZeros(k: nat, s: string)
    ensures Value(Zeros(k) + s) == Value(s)
  {
    if s != "" {
      LeadingZeros(k, s[..|s| - 1]);
      assert (Zeros(k) + s)[..k + |s| - 1] == Zeros(k) + s[..|s| - 1];
    } else if k > 0 {
      LeadingZeros(k - 1, "");
      assert (Zeros(k) + "")[..k - 1] == Zeros(k - 1) + "";
    }
  }

  // ---------------------------------------------------------------- decimal-N integers

  /** A printed number: what `parseFloat` is given, and the sign it is multiplied with. */
  datatype Printed = Printed(sign: int, text: string)

  /** `x / unit`. */
  function Whole(x: nat, unit: nat): (q: nat)
    requires unit > 0
    ensures q * unit <= x
  {
    assert x == x / unit * unit + x % unit;
    x / unit
  }

  /** `x - x / unit * unit`. */
  function Rest(x: nat, unit: nat): (r: nat)
    requires unit > 0
    ensures r < unit && x == Whole(x, unit) * unit + r
  {
    assert x == x / unit * unit + x % unit;
    x - Whole(x, unit) * unit
  }

  /** `decNToFloat` up to `parseFloat`; `None` where `repeat` is called with a negative count. */
  function PrintDecN(x: int, numDec: nat): Option<Printed>
    requires numDec <= 22    // beyond, `Math.pow(10, numDec)` is not the power of ten
  {
    var xInt := Whole(Abs(x), Pow10(numDec));
    var xDec := Rest(Abs(x), Pow10(numDec));
    if |Digits(xDec)| > numDec then None
    else Some(Printed(Sign(x), Digits(xInt) + "." + Padded(xDec, numDec)))
  }

  /** Where the decimal point is. */
  function Point(s: string): (k: nat)
    ensures k <= |s| && '.' !in s[..k] && (k < |s| ==> s[k] == '.')
  {
    if s == "" || s[0] == '.' then 0 else 1 + Point(s[1..])
  }

  /** `split(".")`. */
  function Split(s: string): (string, string) {
    var k := Point(s);
    (s[..k], if k < |s| then s[k + 1..] else "")
  }

  /** `floatToDecN` from the string on: integer part and fraction, split at the point. */
  function ReadDecN(p: Printed, numDec: nat): int {
    var parts := Split(p.text);
    (Value(parts.0) * Pow10(numDec) + Value(parts.1)) * p.sign
  }

  lemma {:induction false} PointFound(a: string, b: string)
    requires '.' !in a
    ensures Point(a + "." + b) == |a|
  {
    if a != "" {
      assert (a + "." + b)[1..] == a[1..] + "." + b;
      PointFound(a[1..], b);
    }
  }

  lemma SplitAtPoint(whole: string, fraction: string)
    requires '.' !in whole
    ensures Split(whole + "." + fraction) == (whole, fraction)
  {
    var text := whole + "." + fraction;
    PointFound(whole, fraction);
    assert text[..|whole|] == whole && text[|whole| + 1..] == fraction;
  }

  /** The zero-padded fraction. */
  function Padded(part: nat, numDec: nat): string
    requires |Digits(part)| <= numDec
  {
    Zeros(numDec - |Digits(part)|) + Digits(part)
  }

  lemma PaddedReadsBack(part: nat, numDec: nat)
    requires numDec >= 1 && part < Pow10(numDec)
    ensures |Digits(part)| <= numDec && Value(Padded(part, numDec)) == part
  {
    FewDigits(part, numDec);
    LeadingZeros(numDec - |Digits(part)|, Digits(part));
    DigitsReadBack(part);
  }

  /** A decimal-N integer is printed, and read back exactly, for every N from 1 on; with N = 0 printing throws. */
  lemma PrintedReadsBackIff(x: int, numDec: nat)
    requires numDec <= 22
    ensures PrintDecN(x, numDec).Some? <==> numDec >= 1
    ensures numDec >= 1 ==> ReadDecN(PrintDecN(x, numDec).value, numDec) == x
  {
    if numDec >= 1 {
      var whole, part := Whole(Abs(x), Pow10(numDec)), Rest(Abs(x), Pow10(numDec));
      PaddedReadsBack(part, numDec);
      DigitsReadBack(whole);
      SplitAtPoint(Digits(whole), Padded(part, numDec));
    } else {
      assert Rest(Abs(x), Pow10(0)) == 0;
    }
  }

  /** The text is the integer part, a point, and exactly numDec digits. */
  lemma PrintedShape(x: int, numDec: nat)
    requires 1 <= numDec <= 22
    ensures PrintDecN(x, numDec).Some?
    ensures var p := PrintDecN(x, numDec).value;
            && p.sign == (if x < 0 then -1 else 1)
            && |p.text| > numDec + 1 && p.text[|p.text| - numDec - 1] == '.'
            && forall k :: 0 <= k < |p.text| && k != |p.text| - numDec - 1 ==> '0' <= p.text[k] <= '9'
  {
    var whole, part := Whole(Abs(x), Pow10(numDec)), Rest(Abs(x), Pow10(numDec));
    PaddedReadsBack(part, numDec);
    OnlyDigits(whole);
    OnlyDigits(part);
    var text := PrintDecN(x, numDec).value.text;
    assert text == Digits(whole) + "." + Padded(part, numDec);
    assert |Padded(part, numDec)| == numDec;
  }

  lemma {:induction false} OnlyDigits(n: nat)
    ensures forall k :: 0 <= k < |Digits(n)| ==> '0' <= Digits(n)[k] <= '9'
  {
    if n >= 10 { OnlyDigits(n / 10); }
  }

  // ---------------------------------------------------------------- 64.64

  /** `ABK64x64ToDecN`. */
  function ABK64x64ToDecN(x: int, n: nat): int
    requires n <= 22
  {
    DivTrunc(x * Pow10(n), ONE_64x64)
  }

  /** For every number of digits, the conversion is x * 10^n / 2^64 cut off toward zero. */
  lemma ToDecNIs(x: int, n: nat)
    requires n <= 22
    ensures var r := ABK64x64ToDecN(x, n);
            && Abs(r) * 0x1_0000_0000_0000_0000 <= Abs(x) * Pow10(n) < (Abs(r) + 1) * 0x1_0000_0000_0000_0000
            && (r > 0 ==> x > 0) && (r < 0 ==> x < 0)
  {
    SignedProduct(x, Pow10(n));
    DivisionRest(Abs(x) * Pow10(n), ONE_64x64);
    SignTimes(Abs(x) * Pow10(n) / ONE_64x64, Sign(x));
  }

  lemma SignedProduct(x: int, p: nat)
    requires p >= 1
    ensures Abs(x * p) == Abs(x) * p && Sign(x * p) == Sign(x)
  {
    if x < 0 {
      assert x * p == -(-x * p);
      AtLeastOnce(-x, p);
    } else {
      AtLeastOnce(x, p);
    }
  }

  lemma AtLeastOnce(a: nat, p: nat)
    requires p >= 1
    ensures a * p >= a
  {
  }

  lemma DivisionRest(a: nat, unit: nat)
    requires unit > 0
    ensures a / unit * unit <= a < (a / unit + 1) * unit
  {
    var q, r := Whole(a, unit), Rest(a, unit);
  }

  /** `ABK64x64ToFloat` up to `parseFloat`; `None` where `repeat` is called with a negative count. */
  function ABK64x64ToFloat(x: int): Option<Printed> {
    var xInt := Whole(Abs(x), ONE_64x64);
    var xDec := Rest(Abs(x), ONE_64x64) * DECIMALS18 / ONE_64x64;
    if |Digits(xDec)| > 18 then None
    else Some(Printed(Sign(x), Digits(xInt) + "." + Padded(xDec, 18)))
  }

  /** `floatToABK64x64` from the string on. */
  function FloatToABK64x64(p: Printed): int {
    var parts := Split(p.text);
    (Value(parts.0) * ONE_64x64 + Value(parts.1) * ONE_64x64 / DECIMALS18) * p.sign
  }

  lemma TextReadsBack(whole: nat, part: nat)
    requires part < DECIMALS18
    ensures |Digits(part)| <= 18
    ensures var parts := Split(Digits(whole) + "." + Padded(part, 18)); Value(parts.0) == whole && Value(parts.1) == part
  {
    Pow10Of18();
    PaddedReadsBack(part, 18);
    DigitsReadBack(whole);
    SplitAtPoint(Digits(whole), Padded(part, 18));
  }

  /** Splitting off the integer part before scaling changes nothing. */
  lemma SplitScale(x: nat, unit: nat, scale: nat)
    requires unit > 0
    ensures Whole(x, unit) * scale + Rest(x, unit) * scale / unit == x * scale / unit
  {
    var q, r := Whole(x, unit), Rest(x, unit);
    Distribute(q * unit, r, scale);
    Swap(q, unit, scale);
    DivOfSum(q * scale, r * scale, unit);
  }

  lemma Distribute(a: nat, b: nat, c: nat)
    ensures (a + b) * c == a * c + b * c
  {
  }

  lemma Swap(a: nat, b: nat, c: nat)
    ensures a * b * c == a * c * b
  {
  }

  lemma DivOfSum(whole: nat, part: nat, unit: nat)
    requires unit > 0
    ensures (whole * unit + part) / unit == whole + part / unit
  {
    var q, r := Whole(part, unit), Rest(part, unit);
    Distribute(whole, q, unit);
    DivUnique(whole * unit + part, unit, whole + q, r);
  }

  lemma DivUnique(a: nat, unit: nat, q: nat, r: nat)
    requires unit > 0 && a == q * unit + r && r < unit
    ensures a / unit == q
  {
    var d, s := Whole(a, unit), Rest(a, unit);
    if d > q { Monotone(q + 1, d, unit); Distribute(q, 1, unit); }
    if d < q { Monotone(d + 1, q, unit); Distribute(d, 1, unit); }
  }

  lemma Monotone(a: nat, b: nat, c: nat)
    requires a <= b
    ensures a * c <= b * c
  {
  }

  lemma FractionIsSmall(r: nat)
    requires r < ONE_64x64
    ensures r * DECIMALS18 / ONE_64x64 < DECIMALS18
  {
  }

  /** A 64.64 number prints without a throw, and its 18 digits read as the integer conversion says, for either sign. */
  lemma PrintAgreesWithDec18(x: int)
    ensures ABK64x64ToFloat(x).Some?
    ensures ReadDecN(ABK64x64ToFloat(x).value, 18) == ABK64x64ToDecN(x, 18)
  {
    var whole, rest := Whole(Abs(x), ONE_64x64), Rest(Abs(x), ONE_64x64);
    FractionIsSmall(rest);
    TextReadsBack(whole, rest * DECIMALS18 / ONE_64x64);
    SplitScale(Abs(x), ONE_64x64, DECIMALS18);
    Pow10Of18();
    assert Abs(x * DECIMALS18) == Abs(x) * DECIMALS18;
  }

  lemma FloatReadsParts(p: Printed, whole: nat, part: nat, size: nat)
    requires part < DECIMALS18 && |Digits(part)| <= 18 && p.text == Digits(whole) + "." + Padded(part, 18)
    requires size == whole * ONE_64x64 + part * ONE_64x64 / DECIMALS18
    ensures FloatToABK64x64(p) == size * p.sign
  {
    TextReadsBack(whole, part);
    var parts := Split(p.text);
    assert Value(parts.0) == whole && Value(parts.1) == part;
  }

  lemma PrintedText(d: int)
    requires PrintDecN(d, 18).Some?
    ensures var whole, part := Whole(Abs(d), DECIMALS18), Rest(Abs(d), DECIMALS18);
            |Digits(part)| <= 18 && PrintDecN(d, 18).value.text == Digits(whole) + "." + Padded(part, 18)
  {
    Pow10Of18();
  }

  lemma SizeOfBinary(d: int, size: nat)
    requires size == Abs(d) * ONE_64x64 / DECIMALS18
    ensures size == Whole(Abs(d), DECIMALS18) * ONE_64x64 + Rest(Abs(d), DECIMALS18) * ONE_64x64 / DECIMALS18
  {
    SplitScale(Abs(d), DECIMALS18, ONE_64x64);
  }

  /** The printed 18 digits of d, read as a 64.64 number. */
  lemma FloatReadsAs(p: Printed, d: int)
    requires PrintDecN(d, 18).Some? && p.text == PrintDecN(d, 18).value.text
    ensures FloatToABK64x64(p) == (Abs(d) * ONE_64x64 / DECIMALS18) * p.sign
  {
    var size: nat := Abs(d) * ONE_64x64 / DECIMALS18;
    PrintedText(d);
    SizeOfBinary(d, size);
    FloatReadsParts(p, Whole(Abs(d), DECIMALS18), Rest(Abs(d), DECIMALS18), size);
  }

  /** And back: d * 2^64 / 10^18 cut off toward zero. */
  lemma FloatToBinaryIs(d: int)
    ensures PrintDecN(d, 18).Some?
    ensures var x := FloatToABK64x64(PrintDecN(d, 18).value);
            && Abs(x) * 1_000_000_000_000_000_000 <= Abs(d) * 0x1_0000_0000_0000_0000
            && Abs(d) * 0x1_0000_0000_0000_0000 < (Abs(x) + 1) * 1_000_000_000_000_000_000
            && (x > 0 ==> d > 0) && (x < 0 ==> d < 0)
  {
    PrintedReadsBackIff(d, 18);
    var p := PrintDecN(d, 18).value;
    FloatReadsAs(p, d);
    var a := Abs(d) * ONE_64x64;
    DivisionRest(a, DECIMALS18);
    SignTimes(a / DECIMALS18, Sign(d));
  }

  lemma SignTimes(a: nat, sign: int)
    requires sign == 1 || sign == -1
    ensures Abs(a * sign) == a && (a * sign > 0 ==> sign == 1) && (a * sign < 0 ==> sign == -1)
  {
  }

  /** The integer conversion truncates toward zero. */
  lemma Dec18Is(x: int)
    ensures ABK64x64ToDecN(x, 18) == (Abs(x) * DECIMALS18 / ONE_64x64) * Sign(x)
  {
    Pow10Of18();
    assert Abs(x * DECIMALS18) == Abs(x) * DECIMALS18;
  }

  /** The text printed for a 64.64 number is that of its 18-digit decimal. */
  lemma PrintsDec18(x: int)
    ensures var d := ABK64x64ToDecN(x, 18);
            && ABK64x64ToFloat(x).Some? && PrintDecN(d, 18).Some?
            && ABK64x64ToFloat(x).value == Printed(Sign(x), PrintDecN(d, 18).value.text)
            && Abs(d) == Abs(x) * DECIMALS18 / ONE_64x64
  {
    var whole, part := Whole(Abs(x), ONE_64x64), Rest(Abs(x), ONE_64x64) * DECIMALS18 / ONE_64x64;
    PartsOfDec18(x);
    TextReadsBack(whole, part);
    Pow10Of18();
  }

  /** The digits before and after the point. */
  lemma PartsOfDec18(x: int)
    ensures var whole, part := Whole(Abs(x), ONE_64x64), Rest(Abs(x), ONE_64x64) * DECIMALS18 / ONE_64x64;
            var a := Abs(ABK64x64ToDecN(x, 18));
            && part < DECIMALS18 && Whole(a, DECIMALS18) == whole && Rest(a, DECIMALS18) == part
            && a == Abs(x) * DECIMALS18 / ONE_64x64
  {
    var whole, rest := Whole(Abs(x), ONE_64x64), Rest(Abs(x), ONE_64x64);
    FractionIsSmall(rest);
    SplitScale(Abs(x), ONE_64x64, DECIMALS18);
    SizeOfDec18(x);
    DivUnique(Abs(ABK64x64ToDecN(x, 18)), DECIMALS18, whole, rest * DECIMALS18 / ONE_64x64);
  }

  lemma SizeOfDec18(x: int)
    ensures Abs(ABK64x64ToDecN(x, 18)) == Abs(x) * DECIMALS18 / ONE_64x64
  {
    Pow10Of18();
    assert Abs(x * DECIMALS18) == Abs(x) * DECIMALS18;
  }

  lemma Pow10Of18()
    ensures Pow10(18) == DECIMALS18
  {
    assert Pow10(6) == 1_000_000;
    assert Pow10(12) == 1_000_000_000_000;
  }

  /** 64.64 to 18 digits, and 18 digits to 64.64, for the size of a number. */
  function ToDec18(a: nat): nat {
    a * DECIMALS18 / ONE_64x64
  }

  function ToBinary(a: nat): nat {
    a * ONE_64x64 / DECIMALS18
  }

  lemma BinaryLoss(a: nat)
    ensures 0 <= a - ToBinary(ToDec18(a)) <= 19
  {
  }

  lemma DecimalLoss(a: nat)
    ensures 0 <= a - ToDec18(ToBinary(a)) <= 1
  {
  }

  lemma TowardZero(x: int, size: nat, loss: nat)
    requires 0 <= Abs(x) - size <= loss
    ensures 0 <= Abs(x) - Abs(size * Sign(x)) <= loss
    ensures size * Sign(x) == 0 || Sign(size * Sign(x)) == Sign(x)
    ensures Abs(size * Sign(x)) == size
  {
  }

  lemma ThereAndBack(x: int)
    ensures ABK64x64ToFloat(x).Some?
    ensures FloatToABK64x64(ABK64x64ToFloat(x).value) == ToBinary(ToDec18(Abs(x))) * Sign(x)
  {
    PrintsDec18(x);
    FloatReadsAs(ABK64x64ToFloat(x).value, ABK64x64ToDecN(x, 18));
  }

  lemma BackAndThere(d: int)
    ensures PrintDecN(d, 18).Some?
    ensures var x := FloatToABK64x64(PrintDecN(d, 18).value);
            && ABK64x64ToFloat(x).Some?
            && ReadDecN(ABK64x64ToFloat(x).value, 18) == ToDec18(Abs(x)) * Sign(x)
            && x == ToBinary(Abs(d)) * Sign(d)
  {
    PrintedReadsBackIff(d, 18);
    var p := PrintDecN(d, 18).value;
    FloatReadsAs(p, d);
    var x := FloatToABK64x64(p);
    PrintAgreesWithDec18(x);
    Dec18Is(x);
  }

  /** 64.64 to printed digits and back moves toward zero, by at most 19 units. */
  lemma BinaryRoundTrip(x: int)
    ensures ABK64x64ToFloat(x).Some?
    ensures var y := FloatToABK64x64(ABK64x64ToFloat(x).value);
            0 <= Abs(x) - Abs(y) <= 19 && (y == 0 || Sign(y) == Sign(x))
  {
    ThereAndBack(x);
    BinaryLoss(Abs(x));
    TowardZero(x, ToBinary(ToDec18(Abs(x))), 19);
  }

  /** Printed 18 digits to 64.64 and back to print lose at most one unit. */
  lemma DecimalRoundTrip(d: int)
    ensures PrintDecN(d, 18).Some?
    ensures var x := FloatToABK64x64(PrintDecN(d, 18).value);
            && ABK64x64ToFloat(x).Some?
            && var e := ReadDecN(ABK64x64ToFloat(x).value, 18);
            0 <= Abs(d) - Abs(e) <= 1 && (e == 0 || Sign(e) == Sign(d))
  {
    BackAndThere(d);
    DecimalLoss(Abs(d));
  }

  lemma LossOf(x: int, d: int)
    requires x > 0 && d > 0
    ensures ABK64x64ToFloat(x).Some? && PrintDecN(d, 18).Some?
    ensures FloatToABK64x64(ABK64x64ToFloat(x).value) == ToBinary(ToDec18(x))
    ensures var y := FloatToABK64x64(PrintDecN(d, 18).value);
            ABK64x64ToFloat(y).Some? && ReadDecN(ABK64x64ToFloat(y).value, 18) == ToDec18(ToBinary(d))
  {
    ThereAndBack(x);
    BackAndThere(d);
  }

  lemma LossyNumbers() returns (x: int, d: int)
    ensures x > 0 && x - ToBinary(ToDec18(x)) == 19 && d > 0 && d - ToDec18(ToBinary(d)) == 1
  {
    x, d := 55, 1;
  }

  /** Both bounds are reached. */
  lemma RoundTripBoundsAreTight() returns (x: int, d: int)
    ensures x > 0 && ABK64x64ToFloat(x).Some? && x - FloatToABK64x64(ABK64x64ToFloat(x).value) == 19
    ensures PrintDecN(d, 18).Some?
    ensures var y := FloatToABK64x64(PrintDecN(d, 18).value);
            d > 0 && ABK64x64ToFloat(y).Some? && d - ReadDecN(ABK64x64ToFloat(y).value, 18) == 1
  {
    x, d := LossyNumbers();
    LossOf(x, d);
  }
}
