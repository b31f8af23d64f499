/** toTokenRawAmount of apps/api/src/users/users-staking.service.ts: a token amount as a raw integer, by way of
    the decimal text that Number.prototype.toFixed prints (section 21.1.3.3 of ECMA-262). */
module RawAmounts {
  import opened Numbers
  import opened Radix
  import opened Text
  import opened Wrappers

  const MAX_DECIMALS := 18

  /** From here on toFixed gives what Number::toString gives. */
  const LIMIT: nat := 1_000_000_000_000_000_000_000

  // ---------- the nearest integer ----------

  /** The integer nearest y, the larger of two that are equally near. */
  function Nearest(y: real): int {
    (y + 0.5).Floor
  }

  function Distance(n: int, y: real): real {
    if n as real >= y then n as real - y else y - n as real
  }

  /** n is at most as far from y as m, and is the larger when they are as far. */
  ghost predicate NoFarther(n: int, m: int, y: real) {
    Distance(n, y) <= Distance(m, y) && (Distance(n, y) == Distance(m, y) ==> m <= n)
  }

  /** No integer is nearer, and none as near is larger. */
  ghost predicate IsNearest(n: int, y: real) {
    forall m :: NoFarther(n, m, y)
  }

  lemma NearestNoFarther(y: real, m: int)
    ensures NoFarther(Nearest(y), m, y)
  {
  }

  /** As the standard words it: the one integer such that none is nearer, and of two as near the larger. */
  lemma NearestIsClosest(y: real, n: int)
    ensures IsNearest(n, y) <==> n == Nearest(y)
  {
    forall m ensures NoFarther(Nearest(y), m, y) {
      NearestNoFarther(y, m);
    }
    if IsNearest(n, y) {
      assert NoFarther(n, Nearest(y), y) && NoFarther(Nearest(y), n, y);
    }
  }

  // ---------- text ----------

  function Zeros(n: nat): (s: string)
    ensures |s| == n && AllDigits(s) && forall i | 0 <= i < n :: s[i] == '0'
  {
    seq(n, _ => '0')
  }

  /** n with f digits after the point, steps 8 to 11 of toFixed. */
  function FixedText(n: nat, f: nat): string {
    WithPoint(Padded(Decimal(n), f), f)
  }

  function WithPoint(m: string, f: nat): string
    requires f == 0 || f <= |m|
  {
    if f == 0 then m else m[..|m| - f] + "." + m[|m| - f..]
  }

  /** With zeros in front, so that a digit comes before the point. */
  function Padded(m: string, f: nat): (t: string)
    ensures |t| >= f || f == 0
  {
    if 0 < f && |m| <= f then Zeros(f + 1 - |m|) + m else m
  }

  /** The integer toFixed(f) prints: nearest x * 10^f. */
  function Scaled(x: real, f: nat): nat
    requires x >= 0.0
  {
    ScaledNotNegative(x, Pow(10, f) as real);
    Nearest(x * Pow(10, f) as real)
  }

  lemma ScaledNotNegative(x: real, p: real)
    requires x >= 0.0 && p >= 0.0
    ensures Nearest(x * p) >= 0
  {
  }

  /** toFixed(f) for x >= 0; numberText is Number::toString, used from 10^21 on. */
  function ToFixed(x: real, f: nat, numberText: real -> string): string
    requires x >= 0.0
  {
    if x >= LIMIT as real then numberText(x) else FixedText(Scaled(x, f), f)
  }

  /** The first two pieces of split('.'), the second empty when there is none. */
  function Split(s: string): (r: (string, string))
    ensures |r.0| <= |s|
  {
    if s == "" then ("", "")
    else if s[0] == '.' then ("", UpToPoint(s[1..]))
    else
      var rest := Split(s[1..]);
      ([s[0]] + rest.0, rest.1)
  }

  function UpToPoint(s: string): string {
    if s == "" || s[0] == '.' then "" else [s[0]] + UpToPoint(s[1..])
  }

  /** Without leading zeros, but for a last digit. */
  function StripZeros(s: string): (t: string)
    ensures |t| <= |s|
  {
    if |s| >= 2 && s[0] == '0' && IsDigit(s[1]) then StripZeros(s[1..]) else s
  }

  /** BigInt(text): a syntax error unless the text is digits. */
  function ParseBigInt(s: string): Result<nat, string> {
    if s != "" && AllDigits(s) then Success(Value(s)) else Failure("SyntaxError")
  }

  // ---------- the function ----------

  function SafeAmount(amount: Number): (x: real)
    ensures x >= 0.0
  {
    if amount.Finite? && amount.value > 0.0 then amount.value else 0.0
  }

  function NormalizedDecimals(decimals: real): (d: nat)
    ensures d <= MAX_DECIMALS
  {
    if Trunc(decimals) < 0 then 0 else if Trunc(decimals) > MAX_DECIMALS then MAX_DECIMALS else Trunc(decimals)
  }

  /** `${wholePart}${paddedFraction}` without leading zeros. */
  function RawText(text: string, d: nat): string
    requires d <= MAX_DECIMALS
  {
    var parts := Split(text);
    StripZeros(parts.0 + (parts.1 + Zeros(MAX_DECIMALS))[..d])
  }

  function ToTokenRawAmount(amount: Number, decimals: real, numberText: real -> string): Result<nat, string> {
    var d := NormalizedDecimals(decimals);
    var raw := RawText(ToFixed(SafeAmount(amount), d, numberText), d);
    ParseBigInt(if raw == "" then "0" else raw)
  }

  // ---------- below 10^21 ----------

  lemma {:induction false} SplitAtPoint(whole: string, fraction: string)
    requires '.' !in whole && '.' !in fraction
    ensures Split(whole + "." + fraction) == (whole, fraction)
    ensures Split(whole) == (whole, "")
  {
    var s := whole + "." + fraction;
    if whole == "" {
      assert s == "." + fraction && s[1..] == fraction;
      NoPoint(fraction);
    } else {
      assert whole == [whole[0]] + whole[1..];
      assert s[1..] == whole[1..] + "." + fraction;
      SplitAtPoint(whole[1..], fraction);
    }
  }

  lemma {:induction false} NoPoint(s: string)
    requires '.' !in s
    ensures UpToPoint(s) == s
  {
    if s != "" {
      assert s == [s[0]] + s[1..];
      NoPoint(s[1..]);
    }
  }

  lemma DigitsHaveNoPoint(s: string)
    requires AllDigits(s)
    ensures '.' !in s
  {
  }

  lemma {:induction false} ValueOfZeros(z: nat, m: string)
    requires AllDigits(m)
    ensures Value(Zeros(z) + m) == Value(m)
    decreases z + |m|
  {
    if m != "" {
      assert (Zeros(z) + m)[..z + |m| - 1] == Zeros(z) + m[..|m| - 1];
      ValueOfZeros(z, m[..|m| - 1]);
    } else if z > 0 {
      assert Zeros(z) + m == Zeros(z);
      assert Zeros(z)[..z - 1] == Zeros(z - 1) + "";
      ValueOfZeros(z - 1, "");
    }
  }

  lemma {:induction false} StripKeepsValue(s: string)
    requires AllDigits(s)
    ensures AllDigits(StripZeros(s)) && Value(StripZeros(s)) == Value(s)
    ensures s != "" ==> StripZeros(s) != ""
  {
    if |s| >= 2 && s[0] == '0' {
      StripKeepsValue(s[1..]);
      assert s == Zeros(1) + s[1..];
      ValueOfZeros(1, s[1..]);
    }
  }

  lemma PointText(m: string, f: nat)
    requires AllDigits(m) && f <= MAX_DECIMALS && f <= |m|
    ensures RawText(WithPoint(m, f), f) == StripZeros(m)
  {
    var whole, fraction := m[..|m| - f], m[|m| - f..];
    DigitsHaveNoPoint(m);
    SplitAtPoint(whole, fraction);
    Rejoin(m, f, if f == 0 then "" else fraction);
    assert f == 0 ==> whole == m;
  }

  lemma Rejoin(m: string, f: nat, fraction: string)
    requires f <= |m| && fraction == m[|m| - f..]
    ensures m[..|m| - f] + (fraction + Zeros(MAX_DECIMALS))[..f] == m
  {
    assert (fraction + Zeros(MAX_DECIMALS))[..f] == fraction;
  }

  lemma PaddedKeeps(m: string, f: nat)
    requires AllDigits(m) && m != ""
    ensures Padded(m, f) != "" && AllDigits(Padded(m, f)) && Value(Padded(m, f)) == Value(m)
  {
    if 0 < f && |m| <= f {
      ValueOfZeros(f + 1 - |m|, m);
    }
  }

  /** Splitting, padding and joining undoes the printing: what is left is the digits, with zeros before them. */
  lemma RawTextOfFixed(n: nat, f: nat)
    requires f <= MAX_DECIMALS
    ensures
      var raw := RawText(FixedText(n, f), f);
      raw != "" && AllDigits(raw) && Value(raw) == n
  {
    var m := Decimal(n);
    ValueOfDecimal(n);
    PaddedKeeps(m, f);
    PointText(Padded(m, f), f);
    StripKeepsValue(Padded(m, f));
  }

  /** Below 10^21 the result is the nearest integer to amount * 10^decimals, ties upwards; amounts that are
      negative or not finite count as zero, decimals are cut to 0..18. */
  lemma BelowLimitExact(amount: Number, decimals: real, numberText: real -> string)
    requires SafeAmount(amount) < LIMIT as real
    ensures ToTokenRawAmount(amount, decimals, numberText)
            == Success(Scaled(SafeAmount(amount), NormalizedDecimals(decimals)))
  {
    RawTextOfFixed(Scaled(SafeAmount(amount), NormalizedDecimals(decimals)), NormalizedDecimals(decimals));
  }

  // ---------- from 10^21 on ----------

  function ExponentForm(d: char, fraction: string, exponent: string): string {
    [d] + ((if fraction == "" then "" else "." + fraction) + ("e+" + exponent))
  }

  /** What Number::toString gives from 10^21 on: a digit that is not zero, perhaps a point and more digits,
      and an exponent. */
  ghost predicate ExponentText(s: string) {
    exists d, fraction, exponent ::
      IsDigit(d) && d != '0' && AllDigits(fraction) && AllDigits(exponent) && s == ExponentForm(d, fraction, exponent)
  }

  lemma {:induction false} ValueBelow(s: string)
    requires AllDigits(s)
    ensures Value(s) < Pow(10, |s|)
  {
    if s != "" {
      ValueBelow(s[..|s| - 1]);
    }
  }

  lemma TenTo21()
    ensures Pow(10, 21) == LIMIT
  {
    assert Pow(10, 7) == 10_000_000;
    PowAdd(10, 7, 7);
    PowAdd(10, 14, 7);
  }

  lemma NearestAtLeast(y: real, n: int)
    requires y >= n as real
    ensures Nearest(y) >= n
  {
  }

  lemma Grows(x: real, p: real)
    requires x >= 0.0 && p >= 1.0
    ensures x * p >= x
  {
    assert x * (p - 1.0) >= 0.0;
  }

  /** The text that is parsed never denotes a number of 10^21 or more. */
  lemma ExponentTextMisread(s: string, d: nat)
    requires ExponentText(s) && d <= MAX_DECIMALS
    ensures AllDigits(RawText(s, d)) ==> Value(RawText(s, d)) < LIMIT
    ensures RawText(s, d) != ""
  {
    var c, fraction, exponent :|
      IsDigit(c) && c != '0' && AllDigits(fraction) && AllDigits(exponent) && s == ExponentForm(c, fraction, exponent);
    if fraction == "" {
      NoFractionMisread(s, d, c, exponent);
    } else {
      FractionMisread(s, d, c, fraction, exponent);
    }
  }

  lemma NoFractionMisread(s: string, d: nat, c: char, exponent: string)
    requires d <= MAX_DECIMALS && IsDigit(c) && c != '0' && AllDigits(exponent) && s == ExponentForm(c, "", exponent)
    ensures RawText(s, d) != "" && !AllDigits(RawText(s, d))
  {
    assert '.' !in s && s[1] == 'e';
    SplitAtPoint(s, "");
    assert RawText(s, d)[1] == 'e';
  }

  lemma FractionMisread(s: string, d: nat, c: char, fraction: string, exponent: string)
    requires d <= MAX_DECIMALS && IsDigit(c) && c != '0' && AllDigits(fraction) && fraction != "" && AllDigits(exponent)
    requires s == ExponentForm(c, fraction, exponent)
    ensures RawText(s, d) != "" && (AllDigits(RawText(s, d)) ==> Value(RawText(s, d)) < LIMIT)
  {
    var raw := RawText(s, d);
    assert s == [c] + "." + (fraction + ("e+" + exponent));
    SplitAtPoint([c], fraction + ("e+" + exponent));
    assert |raw| == 1 + d;
    if AllDigits(raw) {
      ValueBelow(raw);
      PowMonotoneExp(10, 1 + d, 21);
      TenTo21();
    }
  }

  /** d is the number of decimals that is asked for, cut towards zero and to 0..18. */
  ghost predicate WholeDecimals(decimals: real, d: nat) {
    || (decimals < 1.0 && d == 0)
    || (1.0 <= decimals < 18.0 && d as real <= decimals < d as real + 1.0)
    || (decimals >= 18.0 && d == 18)
  }

  lemma DecimalsCut(decimals: real, d: nat)
    ensures WholeDecimals(decimals, d) <==> d == NormalizedDecimals(decimals)
  {
  }

  ghost predicate Converts(r: Result<nat, string>, x: real, d: nat) {
    r.Success? && IsNearest(r.value, x * Pow(10, d) as real)
  }

  /** An amount that is negative or no number is 0. Any other is the integer nearest amount * 10^decimals exactly when
      it is below 10^21: from there on toFixed gives an exponent, which is either no syntax for BigInt or is read
      as a far smaller number. */
  lemma RawAmountExact(x: real, decimals: real, d: nat, numberText: real -> string)
    requires WholeDecimals(decimals, d)
    requires forall y | y >= LIMIT as real :: ExponentText(numberText(y))
    ensures ToTokenRawAmount(NotFinite, decimals, numberText) == Success(0)
    ensures x < 0.0 ==> ToTokenRawAmount(Finite(x), decimals, numberText) == Success(0)
    ensures x >= 0.0 ==> (Converts(ToTokenRawAmount(Finite(x), decimals, numberText), x, d) <==> x < LIMIT as real)
  {
    DecimalsCut(decimals, d);
    NothingIsZero(NotFinite, decimals, numberText);
    if x < 0.0 {
      NothingIsZero(Finite(x), decimals, numberText);
    } else if x < LIMIT as real {
      NearestBelowLimit(x, decimals, d, numberText);
    } else {
      FarFromNearest(x, decimals, d, numberText);
    }
  }

  lemma NearestBelowLimit(x: real, decimals: real, d: nat, numberText: real -> string)
    requires 0.0 <= x < LIMIT as real && d == NormalizedDecimals(decimals)
    ensures Converts(ToTokenRawAmount(Finite(x), decimals, numberText), x, d)
  {
    BelowLimitExact(Finite(x), decimals, numberText);
    ScaledIsNearest(x, d);
  }

  lemma ScaledIsNearest(x: real, d: nat)
    requires x >= 0.0
    ensures IsNearest(Scaled(x, d), x * Pow(10, d) as real)
  {
    NearestIsClosest(x * Pow(10, d) as real, Scaled(x, d));
  }

  lemma NothingIsZero(amount: Number, decimals: real, numberText: real -> string)
    requires amount.NotFinite? || amount.value < 0.0
    ensures ToTokenRawAmount(amount, decimals, numberText) == Success(0)
  {
    BelowLimitExact(amount, decimals, numberText);
    NoAmount(Pow(10, NormalizedDecimals(decimals)) as real);
  }

  lemma NoAmount(p: real)
    ensures Nearest(0.0 * p) == 0
  {
  }

  lemma FarFromNearest(x: real, decimals: real, d: nat, numberText: real -> string)
    requires x >= LIMIT as real && d == NormalizedDecimals(decimals) && ExponentText(numberText(x))
    ensures !Converts(ToTokenRawAmount(Finite(x), decimals, numberText), x, d)
  {
    ReadBelowLimit(x, decimals, numberText);
    TooSmall(x, d, ToTokenRawAmount(Finite(x), decimals, numberText));
  }

  lemma ReadBelowLimit(x: real, decimals: real, numberText: real -> string)
    requires x >= LIMIT as real && ExponentText(numberText(x))
    ensures var r := ToTokenRawAmount(Finite(x), decimals, numberText);
      r.Success? ==> r.value < LIMIT
  {
    ExponentTextMisread(numberText(x), NormalizedDecimals(decimals));
  }

  lemma TooSmall(x: real, d: nat, r: Result<nat, string>)
    requires x >= LIMIT as real && (r.Success? ==> r.value < LIMIT)
    ensures !Converts(r, x, d)
  {
    PowPositive(10, d);
    Grows(x, Pow(10, d) as real);
    BelowIsFar(x * Pow(10, d) as real, if r.Success? then r.value else 0, LIMIT);
  }

  lemma BelowIsFar(y: real, n: nat, limit: nat)
    requires y >= limit as real && n < limit
    ensures !IsNearest(n, y)
  {
    NearestAtLeast(y, limit);
    NearestIsClosest(y, n);
  }

  /** For instance 1.5e+21 with one decimal is read as 15. */
  lemma MisreadExample(numberText: real -> string)
    requires numberText(1_500_000_000_000_000_000_000.0) == "1" + ("." + "5" + ("e+" + "21"))
    ensures ToTokenRawAmount(Finite(1_500_000_000_000_000_000_000.0), 1.0, numberText) == Success(15)
  {
    FifteenText();
    FifteenParsed();
  }

  lemma FifteenText()
    ensures RawText(ExponentForm('1', "5", "21"), 1) == "15"
  {
    assert ExponentForm('1', "5", "21") == "1" + "." + ("5" + ("e+" + "21"));
    SplitAtPoint("1", "5" + ("e+" + "21"));
    assert (("5" + ("e+" + "21")) + Zeros(MAX_DECIMALS))[..1] == "5";
    assert "1" + "5" == "15" && StripZeros("15") == "15";
  }

  lemma FifteenParsed()
    ensures ParseBigInt("15") == Success(15)
  {
    assert "15"[..1] == "1" && "1"[..0] == "";
    assert Value("") == 0 && Value("1") == 1 && Value("15") == 15;
  }
}
