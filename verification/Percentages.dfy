/** `adjustNDigitPercentagesTo100` of `utils.ts`, with reals for its inputs and the scaled integers as its result. */
module Percentages {
  import opened Prelude

  /** `Math.round`: halves round up. */
  function Round(x: real): int {
    (x + 0.5).Floor
  }

  /** `Math.round(x / n)` for integers. */
  function RoundDiv(x: int, n: nat): int
    requires n > 0
  {
    (2 * x + n) / (2 * n)
  }

  function HundredPercent(digits: nat): nat {
    100 * Pow10(digits)
  }

  function Scaled(perc: seq<real>, digits: nat): (s: seq<int>)
    ensures |s| == |perc|
  {
    seq(|perc|, k requires 0 <= k < |perc| => ScaledEntry(perc[k], Pow10(digits)))
  }

  /** `Math.round(x * 10 ** digits)`. */
  function ScaledEntry(x: real, factor: nat): int {
    Round(x * factor as real)
  }

  function Sum(s: seq<int>): int {
    if s == [] then 0 else Sum(s[..|s| - 1]) + s[|s| - 1]
  }

  function CountNonZero(s: seq<int>): (n: nat)
    ensures n <= |s|
    ensures n == 0 <==> forall k :: 0 <= k < |s| ==> s[k] == 0
  {
    if s == [] then 0
    else
      assert s == s[..|s| - 1] + [s[|s| - 1]];
      CountNonZero(s[..|s| - 1]) + if s[|s| - 1] == 0 then 0 else 1
  }

  /** Non-zero entries lowered by d. */
  function Shifted(s: seq<int>, d: int): (r: seq<int>)
    ensures |r| == |s|
  {
    seq(|s|, k requires 0 <= k < |s| => if s[k] == 0 then 0 else s[k] - d)
  }

  /** The share of the error that every non-zero entry gives up; irrelevant when there is none. */
  function Share(s: seq<int>, hundred: nat): int {
    if CountNonZero(s) == 0 then 0 else RoundDiv(Sum(s) - hundred, CountNonZero(s))
  }

  /** The first greatest entry if any is positive, else the first entry. */
  ghost predicate Chosen(s: seq<int>, m: nat) {
    m < |s| &&
    if exists k :: 0 <= k < |s| && s[k] > 0 then
      s[m] > 0 && (forall k :: 0 <= k < |s| ==> s[k] <= s[m]) && (forall k :: 0 <= k < m ==> s[k] < s[m])
    else m == 0
  }

  lemma OneMore(d: int, n: nat)
    ensures d * (n + 1) == d * n + d
  {
  }

  lemma {:induction false} SumShifted(s: seq<int>, d: int)
    ensures Sum(Shifted(s, d)) == Sum(s) - d * CountNonZero(s)
  {
    if s != [] {
      var front := s[..|s| - 1];
      SumShifted(front, d);
      assert Shifted(s, d)[..|s| - 1] == Shifted(front, d);
      OneMore(d, CountNonZero(front));
    }
  }

  lemma {:induction false} SumUpdate(s: seq<int>, i: nat, x: int)
    requires i < |s|
    ensures Sum(s[i := x]) == Sum(s) - s[i] + x
  {
    var n := |s| - 1;
    if i == n {
      assert s[i := x][..n] == s[..n];
    } else {
      SumUpdate(s[..n], i, x);
      assert s[i := x][..n] == s[..n][i := x];
    }
  }

  /** What rounding leaves over is at most half of what it is rounded in. */
  lemma RoundedRest(x: int, n: nat)
    requires n > 0
    ensures -(n as int) <= 2 * (x - RoundDiv(x, n) * n) < n
  {
    var q, r := RoundDiv(x, n), (2 * x + n) % (2 * n);
    assert 2 * x + n == q * (2 * n) + r;
    assert q * (2 * n) == 2 * (q * n);
  }

  /** A scaled entry is the integer nearest to the input times the factor, the greater one of two. */
  lemma ScaledIsNearest(x: real, factor: nat)
    ensures -0.5 < ScaledEntry(x, factor) as real - x * factor as real <= 0.5
  {
  }

  /** The result for scaled entries: everything after the shift that is left over goes to entry m. */
  ghost predicate Adjusted(scaled: seq<int>, hundred: nat, adjusted: seq<int>, residual: int, m: nat) {
    var shifted := Shifted(scaled, Share(scaled, hundred));
    && Chosen(shifted, m) && adjusted == shifted[m := shifted[m] - residual]
    && residual == Sum(shifted) - hundred
  }

  /** The entries add up to exactly 100 percent, and what is left over is at most half the number of non-zero ones. */
  lemma AddsUpExactly(scaled: seq<int>, hundred: nat, adjusted: seq<int>, residual: int, m: nat)
    requires Adjusted(scaled, hundred, adjusted, residual, m)
    ensures Sum(adjusted) == hundred
    ensures CountNonZero(scaled) > 0 ==> 2 * Abs(residual) <= CountNonZero(scaled)
  {
    var d := Share(scaled, hundred);
    SumUpdate(Shifted(scaled, d), m, Shifted(scaled, d)[m] - residual);
    SumShifted(scaled, d);
    if CountNonZero(scaled) > 0 { RoundedRest(Sum(scaled) - hundred, CountNonZero(scaled)); }
  }

  /** `None` stands for the list with a single NaN that comes of an empty one. */
  method AdjustNDigitPercentagesTo100(perc: seq<real>, digits: nat)
    returns (adjusted: Option<seq<int>>, ghost residual: int, ghost m: nat)
    ensures adjusted.None? <==> perc == []
    ensures adjusted.Some? ==>
              && Adjusted(Scaled(perc, digits), HundredPercent(digits), adjusted.value, residual, m)
              && Sum(adjusted.value) == HundredPercent(digits)
              && (CountNonZero(Scaled(perc, digits)) > 0 ==> 2 * Abs(residual) <= CountNonZero(Scaled(perc, digits)))
  {
    if perc == [] {
      return None, 0, 0;
    }
    var percDigits := ScaleAll(perc, digits);
    residual, m := NormalizeInPlace(percDigits, HundredPercent(digits));
    adjusted := Some(percDigits[..]);
    AddsUpExactly(Scaled(perc, digits), HundredPercent(digits), adjusted.value, residual, m);
  }

  /** From "normalize" on, in place. */
  method NormalizeInPlace(percDigits: array<int>, hundredPercent: nat) returns (ghost residual: int, ghost m: nat)
    requires percDigits.Length > 0
    modifies percDigits
    ensures Adjusted(old(percDigits[..]), hundredPercent, percDigits[..], residual, m)
  {
    ghost var scaled := percDigits[..];
    var s, numNonZero := SumAndCount(percDigits);
    var err := s - hundredPercent;
    var distr := if numNonZero == 0 then 0 else RoundDiv(err, numNonZero);
    var maxidx;
    assert distr == Share(scaled, hundredPercent);
    s, maxidx := ShiftAll(percDigits, distr);
    ghost var shifted := percDigits[..];
    residual, m := s - hundredPercent, maxidx;
    percDigits[maxidx] := percDigits[maxidx] - (s - hundredPercent);
    assert percDigits[..] == shifted[maxidx := shifted[maxidx] - residual];
  }

  method ScaleAll(perc: seq<real>, digits: nat) returns (a: array<int>)
    ensures fresh(a) && a[..] == Scaled(perc, digits)
  {
    var factor := Pow10(digits);
    a := new int[|perc|];
    for k := 0 to |perc|
      invariant forall j :: 0 <= j < k ==> a[j] == ScaledEntry(perc[j], factor)
    {
      a[k] := ScaledEntry(perc[k], factor);
    }
  }

  method SumAndCount(a: array<int>) returns (s: int, n: nat)
    ensures s == Sum(a[..]) && n == CountNonZero(a[..])
  {
    s, n := 0, 0;
    for k := 0 to a.Length
      invariant s == Sum(a[..k]) && n == CountNonZero(a[..k])
    {
      assert a[..k + 1][..k] == a[..k];
      s := s + a[k];
      n := n + if a[k] == 0 then 0 else 1;
    }
    assert a[..a.Length] == a[..];
  }

  /** The second loop: shift in place, add up, and note the greatest entry. */
  method ShiftAll(a: array<int>, distr: int) returns (s: int, maxidx: nat)
    requires a.Length > 0
    modifies a
    ensures a[..] == Shifted(old(a[..]), distr)
    ensures s == Sum(a[..]) && Chosen(a[..], maxidx)
  {
    ghost var shifted := Shifted(a[..], distr);
    var max := 0;
    s, maxidx := 0, 0;
    for k := 0 to a.Length
      invariant maxidx < a.Length && max >= 0
      invariant forall j :: 0 <= j < a.Length ==> a[j] == if j < k then shifted[j] else old(a[j])
      invariant s == Sum(shifted[..k])
      invariant if max == 0 then maxidx == 0 else maxidx < k && shifted[maxidx] == max
      invariant forall j :: 0 <= j < k ==> shifted[j] <= max
      invariant max > 0 ==> forall j :: 0 <= j < maxidx ==> shifted[j] < max
    {
      if a[k] != 0 {
        a[k] := a[k] - distr;
      }
      assert shifted[..k + 1][..k] == shifted[..k];
      s := s + a[k];
      if a[k] > max {
        max := a[k];
        maxidx := k;
      }
    }
    assert shifted[..a.Length] == shifted;
    assert a[..] == shifted;
  }

  /** Three equal entries: what is left over goes to the first. */
  lemma FirstOfEqualsTakesTheRest(adjusted: seq<int>, residual: int, m: nat)
    requires Adjusted([3_334, 3_334, 3_334], 10_000, adjusted, residual, m)
    ensures adjusted == [3_334, 3_333, 3_333]
  {
    var scaled := [3_334, 3_334, 3_334];
    SumOfThree(3_334, 3_334, 3_334);
    assert scaled[..2] == [3_334, 3_334] && scaled[..2][..1] == [3_334];
    assert CountNonZero([3_334]) == 1 && CountNonZero([3_334, 3_334]) == 2;
    assert Share(scaled, 10_000) == 1;
    assert Shifted(scaled, 1) == [3_333, 3_333, 3_333];
    SumOfThree(3_333, 3_333, 3_333);
    assert Shifted(scaled, 1)[0] > 0;
  }

  lemma SumOfThree(x: int, y: int, z: int)
    ensures Sum([x, y, z]) == x + y + z
  {
    assert [x, y, z][..2] == [x, y];
    SumOfTwo(x, y);
  }

  /** All non-zero entries but one are lowered by the same share, and that one also takes what is left over. */
  lemma EntriesStayClose(scaled: seq<int>, hundred: nat, adjusted: seq<int>, residual: int, m: nat, k: nat)
    requires Adjusted(scaled, hundred, adjusted, residual, m) && k < |scaled|
    ensures scaled[k] - adjusted[k] == (if scaled[k] == 0 then 0 else Share(scaled, hundred)) + if k == m then residual else 0
  {
  }

  /** The share is the error over the number of non-zero entries, rounded to the nearest integer, halves up. */
  lemma ShareIsNearest(scaled: seq<int>, hundred: nat)
    requires CountNonZero(scaled) > 0
    ensures var n := CountNonZero(scaled);
            -(n as int) <= 2 * (Sum(scaled) - hundred - Share(scaled, hundred) * n) < n
  {
    RoundedRest(Sum(scaled) - hundred, CountNonZero(scaled));
  }

  /**
   * Zeros stay zero exactly if nothing is left over, some entry is positive after the shift,
   * or the first entry, which takes what is left over otherwise, was not zero.
   */
  lemma ZerosStayIff(scaled: seq<int>, hundred: nat, adjusted: seq<int>, residual: int, m: nat)
    requires Adjusted(scaled, hundred, adjusted, residual, m)
    ensures (forall k :: 0 <= k < |scaled| && scaled[k] == 0 ==> adjusted[k] == 0) <==>
            || residual == 0 || scaled[0] != 0
            || exists k :: 0 <= k < |scaled| && scaled[k] != 0 && scaled[k] > Share(scaled, hundred)
  {
    var d := Share(scaled, hundred);
    var shifted := Shifted(scaled, d);
    if k :| 0 <= k < |scaled| && scaled[k] != 0 && scaled[k] > d {
      assert shifted[k] > 0;
      assert scaled[m] != 0;
    } else {
      assert forall k :: 0 <= k < |scaled| ==> shifted[k] <= 0;
      assert m == 0;
      if scaled[0] == 0 && residual != 0 { assert adjusted[0] != 0; }
    }
  }

  /** The documented "only positive numbers" fails: 200.00 and 0.01 become 150.00 and -50.00. */
  lemma EntriesCanTurnNegative(adjusted: seq<int>, residual: int, m: nat)
    requires Adjusted(Scaled([200.0, 0.01], 2), HundredPercent(2), adjusted, residual, m)
    ensures adjusted == [15_000, -5_000]
  {
    assert Pow10(2) == 100;
    var scaled := Scaled([200.0, 0.01], 2);
    assert scaled == [20_000, 1];
    SumOfTwo(20_000, 1);
    var d := Share(scaled, 10_000);
    assert scaled[..1] == [20_000];
    assert CountNonZero(scaled) == 2;
    assert d == 5_001;
    var shifted := Shifted(scaled, d);
    assert shifted == [14_999, -5_000];
    SumOfTwo(14_999, -5_000);
    assert shifted[0] > 0;
    assert m == 0;
  }

  lemma SumOfTwo(x: int, y: int)
    ensures Sum([x, y]) == x + y
  {
    assert [x, y][..1] == [x];
    assert [x][..0] == [];
    assert Sum([x]) == x;
  }

  /**
   * No entry turns negative exactly if: where some entry is positive after the shift, no non-zero entry is below the
   * share and the greatest covers what is left over; where none is, every entry but the first is zero or the share.
   */
  lemma NonNegativeIff(scaled: seq<int>, hundred: nat, adjusted: seq<int>, residual: int, m: nat)
    requires Adjusted(scaled, hundred, adjusted, residual, m)
    ensures var d := Share(scaled, hundred);
            (forall k :: 0 <= k < |scaled| ==> adjusted[k] >= 0) <==>
              if exists k :: 0 <= k < |scaled| && scaled[k] != 0 && scaled[k] > d then
                && (forall k :: 0 <= k < |scaled| && scaled[k] != 0 ==> scaled[k] >= d)
                && (exists k :: 0 <= k < |scaled| && scaled[k] != 0 && scaled[k] - d >= residual)
              else forall k :: 1 <= k < |scaled| ==> scaled[k] == 0 || scaled[k] == d
  {
    if exists k :: 0 <= k < |scaled| && scaled[k] != 0 && scaled[k] > Share(scaled, hundred) {
      GreatestPositive(scaled, hundred, adjusted, residual, m);
    } else {
      NonePositive(scaled, hundred, adjusted, residual, m);
    }
  }

  lemma GreatestPositive(scaled: seq<int>, hundred: nat, adjusted: seq<int>, residual: int, m: nat)
    requires Adjusted(scaled, hundred, adjusted, residual, m)
    requires exists k :: 0 <= k < |scaled| && scaled[k] != 0 && scaled[k] > Share(scaled, hundred)
    ensures var d := Share(scaled, hundred);
            (forall k :: 0 <= k < |scaled| ==> adjusted[k] >= 0) <==>
              && (forall k :: 0 <= k < |scaled| && scaled[k] != 0 ==> scaled[k] >= d)
              && (exists k :: 0 <= k < |scaled| && scaled[k] != 0 && scaled[k] - d >= residual)
  {
    var d := Share(scaled, hundred);
    var shifted := Shifted(scaled, d);
    var p :| 0 <= p < |scaled| && scaled[p] != 0 && scaled[p] > d;
    assert shifted[p] > 0;
    assert scaled[m] != 0 && shifted[m] == scaled[m] - d > 0;
    forall k | 0 <= k < |scaled| && k != m
      ensures adjusted[k] >= 0 <==> scaled[k] == 0 || scaled[k] >= d
    {
      assert adjusted[k] == shifted[k];
    }
    assert adjusted[m] == scaled[m] - d - residual;
    if j :| 0 <= j < |scaled| && scaled[j] != 0 && scaled[j] - d >= residual {
      assert shifted[j] <= shifted[m];
    }
  }

  /** The first entry takes it all, and what is left over is not positive. */
  lemma NonePositive(scaled: seq<int>, hundred: nat, adjusted: seq<int>, residual: int, m: nat)
    requires Adjusted(scaled, hundred, adjusted, residual, m)
    requires forall k :: 0 <= k < |scaled| && scaled[k] != 0 ==> scaled[k] <= Share(scaled, hundred)
    ensures (forall k :: 0 <= k < |scaled| ==> adjusted[k] >= 0) <==>
              forall k :: 1 <= k < |scaled| ==> scaled[k] == 0 || scaled[k] == Share(scaled, hundred)
  {
    var d := Share(scaled, hundred);
    var shifted := Shifted(scaled, d);
    assert forall k :: 0 <= k < |scaled| ==> shifted[k] <= 0;
    assert m == 0;
    forall k | 1 <= k < |scaled|
      ensures adjusted[k] <= 0 && (adjusted[k] == 0 <==> scaled[k] == 0 || scaled[k] == d)
    {
      assert adjusted[k] == shifted[k];
    }
    if forall k :: 1 <= k < |scaled| ==> scaled[k] == 0 || scaled[k] == d {
      SumOfFirst(adjusted);
      AddsUpExactly(scaled, hundred, adjusted, residual, m);
    }
  }

  lemma {:induction false} SumOfFirst(s: seq<int>)
    requires s != [] && forall k :: 1 <= k < |s| ==> s[k] == 0
    ensures Sum(s) == s[0]
  {
    if |s| > 1 { SumOfFirst(s[..|s| - 1]); } else { assert s[..0] == []; }
  }
}
