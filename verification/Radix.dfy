/** Positional notation: values of digit sequences, canonical digits, and the change of radix that keeps leading
    zeros (the mathematics behind base58.ts). A sequence is read with its least significant digit first (LE), as
    the loops build it, or with its most significant first (BE), as it is written; canonical digits have no zero at
    the most significant end, and there is one such sequence for every number, the single digit 0 for zero. */
module Radix {
  import opened Arithmetic

  function Pow(b: nat, n: nat): nat {
    if n == 0 then 1 else b * Pow(b, n - 1)
  }

  ghost predicate AllBelow(s: seq<int>, b: int) {
    forall i :: 0 <= i < |s| ==> 0 <= s[i] < b
  }

  /** The value of little-endian digits. */
  ghost function LE(s: seq<int>, b: nat): int {
    if |s| == 0 then 0 else s[0] + b * LE(s[1..], b)
  }

  /** The value of big-endian digits. */
  ghost function BE(s: seq<int>, b: nat): int {
    if |s| == 0 then 0 else BE(s[..|s| - 1], b) * b + s[|s| - 1]
  }

  function Reverse<T>(s: seq<T>): (r: seq<T>)
    ensures |r| == |s|
    ensures forall i :: 0 <= i < |s| ==> r[i] == s[|s| - 1 - i]
  {
    if |s| == 0 then [] else [s[|s| - 1]] + Reverse(s[..|s| - 1])
  }

  /** The digits of n by repeated division, least significant first; zero is the digit 0. */
  ghost function Digits(n: nat, b: nat): (s: seq<int>)
    requires b >= 2
    ensures |s| >= 1 && AllBelow(s, b)
    ensures n > 0 ==> s[|s| - 1] != 0
    decreases n
  {
    if n < b then [n]
    else
      QuotientSmaller(n, b);
      [n % b] + Digits(n / b, b)
  }

  function LeadingZeros(s: seq<int>): (z: nat)
    ensures z <= |s|
    ensures forall i :: 0 <= i < z ==> s[i] == 0
    ensures z < |s| ==> s[z] != 0
  {
    if |s| == 0 || s[0] != 0 then 0 else 1 + LeadingZeros(s[1..])
  }

  function Repeat<T>(x: T, n: nat): (s: seq<T>)
    ensures |s| == n && forall i :: 0 <= i < n ==> s[i] == x
  {
    seq(n, _ => x)
  }

  /** The change of radix both codec directions perform: as many zeros as the input
      leads with, then the value's digits, most significant first. */
  ghost function Recode(s: seq<int>, from: nat, to: nat): seq<int>
    requires from >= 2 && to >= 2 && AllBelow(s, from)
  {
    if |s| == 0 then [] else
    BENonNegative(s, from);
    Repeat(0, LeadingZeros(s)) + Reverse(Digits(BE(s, from), to))
  }

  ghost predicate HasNonZero(s: seq<int>) {
    exists i :: 0 <= i < |s| && s[i] != 0
  }

  // ---------- values ----------

  lemma {:induction false} BENonNegative(s: seq<int>, b: nat)
    requires b >= 2 && AllBelow(s, b)
    ensures BE(s, b) >= 0
  {
    if |s| > 0 {
      BENonNegative(s[..|s| - 1], b);
      assert BE(s[..|s| - 1], b) * b >= 0;
    }
  }

  lemma {:induction false} LENonNegative(s: seq<int>, b: nat)
    requires b >= 2 && AllBelow(s, b)
    ensures LE(s, b) >= 0
    ensures |s| > 0 && s[|s| - 1] != 0 ==> LE(s, b) > 0
  {
    if |s| > 0 {
      LENonNegative(s[1..], b);
      assert b * LE(s[1..], b) >= 0;
      if |s| > 1 && s[|s| - 1] != 0 {
        assert s[1..][|s| - 2] != 0;
        assert b * LE(s[1..], b) > 0;
      }
    }
  }

  /** Appending a most significant digit adds a power of the radix. */
  lemma {:induction false} LEAppend(s: seq<int>, x: int, b: nat)
    ensures LE(s + [x], b) == LE(s, b) + Pow(b, |s|) * x
  {
    if |s| == 0 {
      assert s + [x] == [x] && [x][1..] == [];
    } else {
      var p := Pow(b, |s| - 1);
      LEAppend(s[1..], x, b);
      assert (s + [x])[1..] == s[1..] + [x];
      assert b * (LE(s[1..], b) + p * x) == b * LE(s[1..], b) + (b * p) * x;
    }
  }

  lemma {:induction false} ReversedValue(s: seq<int>, b: nat)
    ensures LE(Reverse(s), b) == BE(s, b)
  {
    if |s| > 0 {
      ReversedValue(s[..|s| - 1], b);
      assert Reverse(s)[1..] == Reverse(s[..|s| - 1]);
    }
  }

  lemma {:induction false} DigitsValue(n: nat, b: nat)
    requires b >= 2
    ensures LE(Digits(n, b), b) == n
    decreases n
  {
    if n < b {
      assert Digits(n, b) == [n];
      LESplit(n, [], b);
    } else {
      QuotientSmaller(n, b);
      var q, r := n / b, n % b;
      DivMod(n, b);
      DigitsValue(q, b);
      LESplit(r, Digits(q, b), b);
      assert Digits(n, b) == [r] + Digits(q, b);
    }
  }

  lemma LESplit(d: int, t: seq<int>, b: nat)
    ensures LE([d] + t, b) == d + b * LE(t, b)
  {
    assert ([d] + t)[1..] == t;
  }

  lemma DivMod(n: nat, b: nat)
    requires b > 0
    ensures n == n % b + b * (n / b) && 0 <= n % b < b
  {
  }

  /** n = r + b * q with a remainder r below b determines q and r. */
  lemma DivModUnique(n: nat, q: nat, r: nat, b: nat)
    requires 0 <= r < b && n == r + b * q
    ensures n / b == q && n % b == r
  {
    DivMod(n, b);
    var e := n / b - q;
    assert b * e == r - n % b;
    if e != 0 {
      MulMonotone(b, 1, if e > 0 then e else -e);
      assert false;
    }
  }

  lemma DigitsStep(d: nat, q: nat, b: nat)
    requires b >= 2 && d < b && q > 0
    ensures d + b * q >= b
    ensures Digits(d + b * q, b) == [d] + Digits(q, b)
  {
    MulMonotone(b, 1, q);
    DivModUnique(d + b * q, q, d, b);
  }

  /** Canonical digits are unique: a digit list without a superfluous top zero is Digits of its value. */
  lemma {:induction false} DigitsUnique(s: seq<int>, b: nat)
    requires b >= 2 && |s| >= 1 && AllBelow(s, b)
    requires |s| == 1 || s[|s| - 1] != 0
    ensures LE(s, b) >= 0
    ensures s == Digits(LE(s, b), b)
    decreases |s|
  {
    LENonNegative(s, b);
    var d, t := s[0], s[1..];
    assert s == [d] + t;
    LESplit(d, t, b);
    if |s| == 1 {
      assert t == [] && LE(t, b) == 0 && s == [d];
    } else {
      assert t[|t| - 1] == s[|s| - 1];
      DigitsUnique(t, b);
      LENonNegative(t, b);
      ZeroDigits(b);
      NextDigit(d, t, LE(t, b), LE(s, b), b);
    }
  }

  lemma ZeroDigits(b: nat)
    requires b >= 2
    ensures Digits(0, b) == [0]
  {
  }

  lemma NextDigit(d: nat, t: seq<int>, q: nat, n: nat, b: nat)
    requires b >= 2 && d < b && q > 0 && t == Digits(q, b) && n == d + b * q
    ensures [d] + t == Digits(n, b)
  {
    DigitsStep(d, q, b);
  }

  // ---------- leading zeros ----------

  lemma {:induction false} LeadingZerosValue(z: nat, t: seq<int>, b: nat)
    ensures BE(Repeat(0, z) + t, b) == BE(t, b)
    decreases |t|, z
  {
    var s := Repeat(0, z) + t;
    if |t| > 0 {
      assert s[..|s| - 1] == Repeat(0, z) + t[..|t| - 1];
      LeadingZerosValue(z, t[..|t| - 1], b);
    } else if z > 0 {
      assert s[..|s| - 1] == Repeat(0, z - 1) + t;
      LeadingZerosValue(z - 1, t, b);
    } else {
      assert s == t;
    }
  }

  lemma LeadingZerosOf(z: nat, t: seq<int>)
    requires |t| > 0 && t[0] != 0
    ensures LeadingZeros(Repeat(0, z) + t) == z
  {
    var s := Repeat(0, z) + t;
    assert s[z] == t[0];
    assert LeadingZeros(s) <= z;
  }

  // ---------- the round trip ----------

  /** A sequence that starts with a non-zero digit is the canonical digits of its value. */
  lemma CanonicalTail(t: seq<int>, b: nat)
    requires b >= 2 && AllBelow(t, b) && |t| > 0 && t[0] != 0
    ensures BE(t, b) > 0
    ensures Reverse(t) == Digits(BE(t, b), b)
  {
    ReversedValue(t, b);
    var u := Reverse(t);
    assert u[|u| - 1] == t[0];
    LENonNegative(u, b);
    DigitsUnique(u, b);
  }

  lemma ReverseTwice<T>(s: seq<T>)
    ensures Reverse(Reverse(s)) == s
  {
  }

  /** A sequence with a non-zero part is its zeros followed by the canonical digits of its value. */
  lemma CanonicalForm(s: seq<int>, b: nat)
    requires b >= 2 && AllBelow(s, b) && HasNonZero(s)
    ensures BE(s, b) > 0
    ensures s == Repeat(0, LeadingZeros(s)) + Reverse(Digits(BE(s, b), b))
  {
    var z := LeadingZeros(s);
    var t := s[z..];
    assert s == Repeat(0, z) + t;
    LeadingZerosValue(z, t, b);
    CanonicalTail(t, b);
    ReverseTwice(t);
  }

  lemma RecodeRange(s: seq<int>, from: nat, to: nat)
    requires from >= 2 && to >= 2 && AllBelow(s, from)
    ensures AllBelow(Recode(s, from, to), to)
  {
    if |s| > 0 {
      BENonNegative(s, from);
    }
  }

  /** Changing radix and back is the identity exactly on the sequences that are empty or not all zero. */
  lemma RecodeRoundTrip(s: seq<int>, from: nat, to: nat)
    requires from >= 2 && to >= 2 && AllBelow(s, from)
    ensures AllBelow(Recode(s, from, to), to)
    ensures Recode(Recode(s, from, to), to, from) == s <==> s == [] || HasNonZero(s)
    ensures HasNonZero(s) ==> HasNonZero(Recode(s, from, to))
    ensures !HasNonZero(s) && s != [] ==> Recode(s, from, to) == Repeat(0, |s| + 1)
  {
    RecodeRange(s, from, to);
    if HasNonZero(s) {
      CanonicalForm(s, from);
      RecodeNonZero(s, from, to);
    } else if s != [] {
      RecodeZeros(|s|, s, from, to);
      var r := Recode(s, from, to);
      RecodeZeros(|r|, r, to, from);
      assert |Recode(r, to, from)| == |s| + 2;
    }
  }

  /** Canonical digits behind z zeros: the zeros and the value can be read back. */
  lemma PaddedDigits(z: nat, v: nat, b: nat)
    requires b >= 2 && v > 0
    ensures var r := Repeat(0, z) + Reverse(Digits(v, b));
            && HasNonZero(r) && LeadingZeros(r) == z && BE(r, b) == v
  {
    var ds := Digits(v, b);
    var t := Reverse(ds);
    var r := Repeat(0, z) + t;
    assert t[0] == ds[|ds| - 1];
    assert r[z] == t[0];
    LeadingZerosOf(z, t);
    LeadingZerosValue(z, t, b);
    ReversedValue(t, b);
    ReverseTwice(ds);
    DigitsValue(v, b);
  }

  lemma RecodeNonZero(s: seq<int>, from: nat, to: nat)
    requires from >= 2 && to >= 2 && AllBelow(s, from) && HasNonZero(s)
    ensures AllBelow(Recode(s, from, to), to)
    ensures HasNonZero(Recode(s, from, to))
    ensures Recode(Recode(s, from, to), to, from) == s
  {
    CanonicalForm(s, from);
    RecodeRange(s, from, to);
    PaddedDigits(LeadingZeros(s), BE(s, from), to);
  }

  lemma {:induction false} ZeroValue(s: seq<int>, b: nat)
    requires !HasNonZero(s)
    ensures BE(s, b) == 0
  {
    if |s| > 0 {
      assert s[|s| - 1] == 0;
      assert forall i :: 0 <= i < |s| - 1 ==> s[..|s| - 1][i] == s[i];
      ZeroValue(s[..|s| - 1], b);
    }
  }

  lemma RecodeZeros(n: nat, s: seq<int>, from: nat, to: nat)
    requires from >= 2 && to >= 2 && AllBelow(s, from)
    requires |s| == n > 0 && !HasNonZero(s)
    ensures Recode(s, from, to) == Repeat(0, n + 1)
    ensures !HasNonZero(Recode(s, from, to))
  {
    ZeroValue(s, from);
    assert LeadingZeros(s) == n;
    assert Digits(0, to) == [0];
    assert Reverse([0]) == [0];
  }

  // ---------- lengths ----------

  lemma {:induction false} PowPositive(b: nat, n: nat)
    requires b >= 1
    ensures Pow(b, n) >= 1
  {
    if n > 0 {
      PowPositive(b, n - 1);
      assert b * Pow(b, n - 1) >= 1;
    }
  }

  lemma PowStep(b: nat, n: nat)
    ensures Pow(b, n + 1) == b * Pow(b, n)
  {
  }

  lemma {:induction false} PowAdd(b: nat, m: nat, n: nat)
    ensures Pow(b, m + n) == Pow(b, m) * Pow(b, n)
  {
    if m > 0 {
      PowAdd(b, m - 1, n);
      PowStep(b, m + n - 1);
      PowStep(b, m - 1);
      Regroup(b, Pow(b, m - 1), Pow(b, n));
    }
  }

  lemma Regroup(x: nat, y: nat, z: nat)
    ensures x * (y * z) == (x * y) * z
  {
  }

  lemma {:induction false} PowMonotoneBase(a: nat, b: nat, n: nat)
    requires a <= b
    ensures Pow(a, n) <= Pow(b, n)
  {
    if n > 0 {
      PowMonotoneBase(a, b, n - 1);
      MulMonotone(a, Pow(a, n - 1), Pow(b, n - 1));
      MulMonotone(Pow(b, n - 1), a, b);
    }
  }

  lemma PowMonotoneExp(b: nat, m: nat, n: nat)
    requires b >= 1 && m <= n
    ensures Pow(b, m) <= Pow(b, n)
  {
    PowAdd(b, m, n - m);
    PowPositive(b, n - m);
    PowPositive(b, m);
    MulMonotone(Pow(b, m), 1, Pow(b, n - m));
  }

  lemma Scale(b: nat, lo: int, q: int, hi: int, r: nat)
    requires lo <= q < hi && r < b
    ensures b * lo <= r + b * q < b * hi
  {
    MulMonotone(b, lo, q);
    MulMonotone(b, q + 1, hi);
    assert b * (q + 1) == b * q + b;
  }

  lemma QuotientSmaller(n: nat, b: nat)
    requires b >= 2 && n >= b
    ensures 0 < n / b < n && 0 <= n % b < b
  {
    DivMod(n, b);
    MulMonotone(n / b, 2, b);
  }

  /** How many canonical digits a positive number has. */
  lemma {:induction false} DigitCount(n: nat, b: nat)
    requires b >= 2 && n > 0
    ensures Pow(b, |Digits(n, b)| - 1) <= n < Pow(b, |Digits(n, b)|)
    decreases n
  {
    if n < b {
      assert Pow(b, 0) == 1;
      PowStep(b, 0);
    } else {
      QuotientSmaller(n, b);
      DigitCount(n / b, b);
      DivMod(n, b);
      DigitCountStep(n / b, n % b, b, |Digits(n / b, b)|);
    }
  }

  lemma DigitCountStep(q: nat, r: nat, b: nat, d: nat)
    requires b >= 2 && r < b && d > 0 && Pow(b, d - 1) <= q < Pow(b, d)
    ensures Pow(b, d) <= r + b * q < Pow(b, d + 1)
  {
    Scale(b, Pow(b, d - 1), q, Pow(b, d), r);
    PowStep(b, d - 1);
    PowStep(b, d);
  }

  lemma DigitCountBelow(n: nat, b: nat, k: nat)
    requires b >= 2 && n > 0 && n < Pow(b, k)
    ensures |Digits(n, b)| <= k
  {
    DigitCount(n, b);
    if |Digits(n, b)| > k {
      PowMonotoneExp(b, k, |Digits(n, b)| - 1);
    }
  }

  lemma DigitCountAtLeast(n: nat, b: nat, k: nat)
    requires b >= 2 && n > 0 && k > 0 && n >= Pow(b, k - 1)
    ensures |Digits(n, b)| >= k
  {
    DigitCount(n, b);
    if |Digits(n, b)| < k {
      PowMonotoneExp(b, |Digits(n, b)|, k - 1);
    }
  }
}
