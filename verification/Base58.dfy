/** apps/api/src/common/base58.ts: the two in-place radix conversions, and the wallet-address check of
    users.utils.ts that relies on the encoder's length. The specification of both directions is a change of radix
    that keeps leading zeros; the methods do it digit by digit, as the source does, with the carries and the
    32-bit mask and shift written out. */
module Base58 {
  import opened Arithmetic
  import opened Radix
  import opened Text
  import opened Wrappers

  datatype Error = InvalidCharacter | AddressRequired | AddressInvalid

  // ---------- the alphabet ----------

  const ALPHABET: string :=
    "123456789" + "ABCDEFGH" + "JKLMN" + "PQRSTUVWXYZ" + "abcdefghijk" + "mnopqrstuvwxyz"

  /** The character class [1-9A-HJ-NP-Za-km-z] of the address pattern. */
  predicate IsBase58Char(c: char) {
    || '1' <= c <= '9' || 'A' <= c <= 'H' || 'J' <= c <= 'N' || 'P' <= c <= 'Z'
    || 'a' <= c <= 'k' || 'm' <= c <= 'z'
  }

  /** The character code of the digit j. */
  function Code(j: int): (c: int)
    ensures 0 <= j < 58 ==> 49 <= c <= 122
  {
    if j < 9 then 49 + j else if j < 17 then 56 + j else if j < 22 then 57 + j
    else if j < 33 then 58 + j else if j < 44 then 64 + j else 65 + j
  }

  lemma AlphabetCodes(j: nat)
    requires j < 58
    ensures |ALPHABET| == 58 && ALPHABET[j] as int == Code(j)
  {
    if j < 9 {
      assert ALPHABET[j] == "123456789"[j];
    } else if j < 17 {
      assert ALPHABET[j] == "ABCDEFGH"[j - 9];
    } else if j < 22 {
      assert ALPHABET[j] == "JKLMN"[j - 17];
    } else if j < 33 {
      assert ALPHABET[j] == "PQRSTUVWXYZ"[j - 22];
    } else if j < 44 {
      assert ALPHABET[j] == "abcdefghijk"[j - 33];
    } else {
      assert ALPHABET[j] == "mnopqrstuvwxyz"[j - 44];
    }
  }

  /** The alphabet rises in the order of character codes; with its set of characters that makes it the only one. */
  lemma AlphabetRises(i: nat, j: nat)
    requires i < j < 58
    ensures |ALPHABET| == 58 && ALPHABET[i] < ALPHABET[j] && IsBase58Char(ALPHABET[i]) && IsBase58Char(ALPHABET[j])
  {
    AlphabetCodes(i);
    AlphabetCodes(j);
  }

  /** The lookup in the map from characters to digits. */
  function CharValue(c: char): (r: Option<int>)
    ensures r.Some? ==> 0 <= r.value < 58 && ALPHABET[r.value] == c
    ensures r.None? <==> !IsBase58Char(c)
  {
    ClassIsAlphabet(c);
    var r := FindChar(c, 0);
    if r.Some? then AlphabetCodes(r.value); r else r
  }

  /** The address pattern's class is exactly the alphabet. */
  lemma ClassIsAlphabet(c: char)
    ensures IsBase58Char(c) <==> exists k :: 0 <= k < 58 && Code(k) == c as int
  {
    if IsBase58Char(c) {
      var u := c as int;
      var k := if u <= 57 then u - 49 else if u <= 72 then u - 56 else if u <= 78 then u - 57
               else if u <= 90 then u - 58 else if u <= 107 then u - 64 else u - 65;
      assert 0 <= k < 58 && Code(k) == u;
    }
  }

  function FindChar(c: char, from: nat): (r: Option<int>)
    requires from <= 58
    ensures r.Some? ==> from <= r.value < 58 && Code(r.value) == c as int
    ensures r.None? ==> forall k :: from <= k < 58 ==> Code(k) != c as int
    decreases 58 - from
  {
    if from == 58 then None
    else
      AlphabetCodes(from);
      if ALPHABET[from] == c then Some(from) else FindChar(c, from + 1)
  }

  lemma CharValueInverse(j: nat)
    requires j < 58
    ensures |ALPHABET| == 58 && CharValue(ALPHABET[j]) == Some(j)
    ensures IsBase58Char(ALPHABET[j]) && !IsSpace(ALPHABET[j])
    ensures ALPHABET[j] == '1' <==> j == 0
  {
    AlphabetCodes(j);
  }

  // ---------- what the codec computes ----------

  ghost function Chars(digits: seq<int>): (s: string)
    requires AllBelow(digits, 58)
    ensures |s| == |digits|
  {
    if |digits| == 0 then ""
    else
      AlphabetCodes(digits[|digits| - 1]);
      Chars(digits[..|digits| - 1]) + [ALPHABET[digits[|digits| - 1]]]
  }

  predicate InAlphabet(s: string) {
    forall i :: 0 <= i < |s| ==> IsBase58Char(s[i])
  }

  ghost function Values(s: string): (digits: seq<int>)
    requires InAlphabet(s)
    ensures |digits| == |s| && AllBelow(digits, 58)
    ensures forall i :: 0 <= i < |s| ==> CharValue(s[i]) == Some(digits[i])
  {
    if |s| == 0 then [] else Values(s[..|s| - 1]) + [CharValue(s[|s| - 1]).value]
  }

  /** The text of a byte array: its radix-58 digits, leading zeros kept, as characters. */
  ghost function Encoding(input: seq<int>): string
    requires AllBelow(input, 256)
  {
    RecodeRange(input, 256, 58);
    Chars(Recode(input, 256, 58))
  }

  /** The bytes of a text: trimmed, every character in the alphabet, radix 58 to 256. */
  ghost function Decoding(text: string): (r: Result<seq<int>, Error>)
    ensures r.Success? ==> AllBelow(r.value, 256)
  {
    var t := Trim(text);
    if !InAlphabet(t) then Failure(InvalidCharacter)
    else
      RecodeRange(Values(t), 58, 256);
      Success(Recode(Values(t), 58, 256))
  }

  lemma {:induction false} CharAt(digits: seq<int>, i: nat)
    requires AllBelow(digits, 58) && i < |digits|
    ensures |ALPHABET| == 58 && Chars(digits)[i] == ALPHABET[digits[i]]
  {
    AlphabetCodes(digits[|digits| - 1]);
    if i < |digits| - 1 {
      CharAt(digits[..|digits| - 1], i);
    }
  }

  lemma CharAtInverse(digits: seq<int>, i: nat)
    requires AllBelow(digits, 58) && i < |digits|
    ensures var c := Chars(digits)[i];
      IsBase58Char(c) && !IsSpace(c) && CharValue(c) == Some(digits[i]) && (c == '1' <==> digits[i] == 0)
  {
    CharAt(digits, i);
    CharValueInverse(digits[i]);
  }

  lemma CharsInAlphabet(digits: seq<int>)
    requires AllBelow(digits, 58)
    ensures InAlphabet(Chars(digits)) && Trim(Chars(digits)) == Chars(digits)
  {
    forall i | 0 <= i < |Chars(digits)| ensures IsBase58Char(Chars(digits)[i]) && !IsSpace(Chars(digits)[i]) {
      CharAtInverse(digits, i);
    }
  }

  lemma ValueAt(digits: seq<int>, i: nat)
    requires AllBelow(digits, 58) && i < |digits| && InAlphabet(Chars(digits))
    ensures Values(Chars(digits))[i] == digits[i]
  {
    CharAtInverse(digits, i);
  }

  lemma ValuesOfChars(digits: seq<int>)
    requires AllBelow(digits, 58) && InAlphabet(Chars(digits))
    ensures Values(Chars(digits)) == digits
  {
    forall i | 0 <= i < |digits| ensures Values(Chars(digits))[i] == digits[i] {
      ValueAt(digits, i);
    }
  }

  lemma OnesOfChars(digits: seq<int>)
    requires AllBelow(digits, 58)
    ensures forall i :: 0 <= i < |digits| ==> (Chars(digits)[i] == '1' <==> digits[i] == 0)
  {
    forall i | 0 <= i < |digits| ensures Chars(digits)[i] == '1' <==> digits[i] == 0 {
      CharAtInverse(digits, i);
    }
  }

  lemma CharsThenValues(digits: seq<int>)
    requires AllBelow(digits, 58)
    ensures InAlphabet(Chars(digits)) && Trim(Chars(digits)) == Chars(digits)
    ensures Values(Chars(digits)) == digits
    ensures forall i :: 0 <= i < |digits| ==> (Chars(digits)[i] == '1' <==> digits[i] == 0)
  {
    CharsInAlphabet(digits);
    ValuesOfChars(digits);
    OnesOfChars(digits);
  }

  /** The digit 0 is written 1. */
  lemma ZeroIsOne(s: string, digits: seq<int>)
    requires |digits| == |s| && AllBelow(digits, 58) && forall i :: 0 <= i < |s| ==> CharValue(s[i]) == Some(digits[i])
    ensures HasNonZero(digits) <==> exists i :: 0 <= i < |s| && s[i] != '1'
  {
    forall i | 0 <= i < |s| ensures digits[i] == 0 <==> s[i] == '1' {
      CharValueInverse(digits[i]);
    }
  }

  lemma {:induction false} CharsOfValues(s: string)
    requires InAlphabet(s)
    ensures Chars(Values(s)) == s
  {
    if |s| > 0 {
      var n := |s| - 1;
      CharsOfValues(s[..n]);
      assert Values(s)[..n] == Values(s[..n]);
      assert s == s[..n] + [s[n]];
    }
  }

  // ---------- round trips ----------

  /** Decoding undoes encoding exactly on the arrays that are empty or not all zero;
      n zero bytes come back as n + 2. */
  lemma BytesRoundTrip(input: seq<int>)
    requires AllBelow(input, 256)
    ensures Decoding(Encoding(input)) == Success(input) <==> input == [] || HasNonZero(input)
    ensures input != [] && !HasNonZero(input) ==>
      && Encoding(input) == Repeat('1', |input| + 1)
      && Decoding(Encoding(input)) == Success(Repeat(0, |input| + 2))
  {
    RecodeRange(input, 256, 58);
    var digits := Recode(input, 256, 58);
    CharsThenValues(digits);
    RecodeRoundTrip(input, 256, 58);
    if input != [] && !HasNonZero(input) {
      RecodeZeros(|input|, input, 256, 58);
      RecodeZeros(|digits|, digits, 58, 256);
    }
  }

  /** Decoding fails exactly on a character outside the alphabet; otherwise encoding the
      bytes gives the trimmed text back exactly when it is empty or has a character other than '1'. */
  lemma TextRoundTrip(text: string)
    ensures Decoding(text).Failure? <==>
      exists i :: 0 <= i < |Trim(text)| && !IsBase58Char(Trim(text)[i])
    ensures Decoding(text).Success? ==>
      (Encoding(Decoding(text).value) == Trim(text) <==>
       Trim(text) == "" || exists i :: 0 <= i < |Trim(text)| && Trim(text)[i] != '1')
  {
    var t := Trim(text);
    if InAlphabet(t) {
      var digits := Values(t);
      CharsOfValues(t);
      ZeroIsOne(t, Values(t));
      RecodeRoundTrip(digits, 58, 256);
      var back := Recode(Recode(digits, 58, 256), 256, 58);
      RecodeRange(Recode(digits, 58, 256), 256, 58);
      CharsThenValues(back);
      CharsThenValues(digits);
    }
  }

  /** No two byte arrays share a text, not even the all-zero ones. */
  lemma EncodingInjective(a: seq<int>, b: seq<int>)
    requires AllBelow(a, 256) && AllBelow(b, 256)
    requires Encoding(a) == Encoding(b)
    ensures a == b
  {
    BytesRoundTrip(a);
    BytesRoundTrip(b);
    if (a == [] || HasNonZero(a)) != (b == [] || HasNonZero(b)) {
      CodeOfZeros(a);
      CodeOfZeros(b);
    }
  }

  lemma CodeOfZeros(a: seq<int>)
    requires AllBelow(a, 256)
    ensures a != [] && !HasNonZero(a) <==> Encoding(a) != "" && forall i :: 0 <= i < |Encoding(a)| ==> Encoding(a)[i] == '1'
  {
    RecodeRoundTrip(a, 256, 58);
    RecodeRange(a, 256, 58);
    CharsThenValues(Recode(a, 256, 58));
  }

  // ---------- wallet addresses ----------

  /** users.utils.ts normalizeWalletAddress. */
  /** Only the digits 1 to 9 and letters other than I, O and l. */
  predicate AddressText(s: string) {
    forall i | 0 <= i < |s| :: '1' <= s[i] <= '9' || 'A' <= s[i] <= 'H' || 'J' <= s[i] <= 'N' || 'P' <= s[i] <= 'Z'
                               || 'a' <= s[i] <= 'k' || 'm' <= s[i] <= 'z'
  }

  function NormalizeWalletAddress(walletAddress: string): (r: Result<string, Error>)
    ensures r.Success? ==> r.value == Trim(walletAddress)
    ensures r == Failure(AddressRequired) <==> Trim(walletAddress) == ""
    ensures r.Success? <==> 32 <= |Trim(walletAddress)| <= 44 && AddressText(Trim(walletAddress))
  {
    var normalized := Trim(walletAddress);
    if normalized == "" then Failure(AddressRequired)
    else if 32 <= |normalized| <= 44 && InAlphabet(normalized) then Success(normalized)
    else Failure(AddressInvalid)
  }

  /** 256^32 <= 58^44, the fact that makes 44 characters enough. */
  lemma KeyFits()
    ensures Pow(256, 32) <= Pow(58, 44)
  {
    assert Pow(256, 8) == 18446744073709551616;
    assert Pow(58, 11) == 24986644000165537792;
    PowAdd(256, 8, 8);
    PowAdd(256, 16, 16);
    PowAdd(58, 11, 11);
    PowAdd(58, 22, 22);
    Squares(Pow(256, 8), Pow(58, 11));
    Squares(Pow(256, 16), Pow(58, 22));
  }

  lemma Squares(a: nat, b: nat)
    requires a <= b
    ensures a * a <= b * b
  {
    MulMonotone(a, a, b);
    MulMonotone(b, a, b);
  }

  lemma {:induction false} ValueBound(s: seq<int>, b: nat)
    requires b >= 2 && AllBelow(s, b)
    ensures 0 <= BE(s, b) < Pow(b, |s|)
    ensures |s| > 0 && s[0] != 0 ==> BE(s, b) >= Pow(b, |s| - 1)
  {
    if |s| > 0 {
      var n := |s| - 1;
      var t := s[..n];
      ValueBound(t, b);
      Scale(b, 0, BE(t, b), Pow(b, n), s[n]);
      PowStep(b, n);
      if s[0] != 0 && n > 0 {
        assert t[0] == s[0];
        MulMonotone(b, Pow(b, n - 1), BE(t, b));
        PowStep(b, n - 1);
      } else if s[0] != 0 {
        assert t == [] && Pow(b, 0) == 1;
      }
    }
  }

  /** The trade between leading zeros and digits: m significant bytes of a 32-byte key take
      at most 12 + m digits, because 58 per zero byte is more than those bytes could add. */
  lemma SignificantDigits(m: nat)
    requires 0 < m <= 32
    ensures Pow(256, m) <= Pow(58, 12 + m)
  {
    KeyFits();
    var z := 32 - m;
    PowAdd(256, m, z);
    PowAdd(58, 12 + m, z);
    PowMonotoneBase(58, 256, z);
    PowPositive(58, z);
    CompareFactors(Pow(256, m), Pow(256, z), Pow(58, 12 + m), Pow(58, z));
  }

  lemma CompareFactors(a: nat, b: nat, c: nat, d: nat)
    requires a * b <= c * d && 1 <= d <= b
    ensures a <= c
  {
    MulMonotone(a, d, b);
    if c + 1 <= a {
      MulMonotone(d, c + 1, a);
      assert false;
    }
  }

  lemma SignificantLength(z: nat, t: seq<int>)
    requires z + |t| == 32 && |t| > 0 && t[0] != 0 && AllBelow(t, 256)
    ensures BE(t, 256) > 0
    ensures |t| <= |Digits(BE(t, 256), 58)| <= 12 + |t|
  {
    var m, v := |t|, BE(t, 256);
    ValueBound(t, 256);
    PowPositive(256, m - 1);
    SignificantDigits(m);
    DigitCountBelow(v, 58, 12 + m);
    PowMonotoneBase(58, 256, m - 1);
    DigitCountAtLeast(v, 58, m);
  }

  lemma KeyDigits(key: seq<int>)
    requires |key| == 32 && AllBelow(key, 256)
    ensures 32 <= |Recode(key, 256, 58)| <= 44
  {
    if HasNonZero(key) {
      var z := LeadingZeros(key);
      var t := key[z..];
      assert key == Repeat(0, z) + t;
      LeadingZerosValue(z, t, 256);
      SignificantLength(z, t);
    } else {
      RecodeZeros(32, key, 256, 58);
    }
  }

  /** Every 32-byte key has a text of 32 to 44 alphabet characters, which normalizeWalletAddress accepts. */
  lemma EncodedKeyAccepted(key: seq<int>)
    requires |key| == 32 && AllBelow(key, 256)
    ensures 32 <= |Encoding(key)| <= 44
    ensures NormalizeWalletAddress(Encoding(key)) == Success(Encoding(key))
  {
    RecodeRange(key, 256, 58);
    CharsThenValues(Recode(key, 256, 58));
    KeyDigits(key);
  }

  // ---------- the in-place conversions ----------

  /** Digits in progress: in range, and without a superfluous top zero. */
  ghost predicate Canonical(digits: seq<int>, base: nat) {
    && |digits| >= 1 && AllBelow(digits, base)
    && (|digits| == 1 || digits[|digits| - 1] != 0)
  }

  /** ECMAScript's conversion to a 32-bit integer, on which & and >> operate. */
  function ToInt32(x: int): int {
    var m := x % 0x1_0000_0000;
    if m >= 0x8000_0000 then m - 0x1_0000_0000 else m
  }

  function MaskByte(x: int): int {
    ToInt32(x) % 256
  }

  function ShiftRight8(x: int): int {
    ToInt32(x) / 256
  }

  /** What is left to add up: finished low digits, and above them the carry and the untouched rest. */
  ghost predicate Weighs(low: seq<int>, carry: int, rest: seq<int>, mul: nat, base: nat, total: int) {
    LE(low, base) + Pow(base, |low|) * (carry + mul * LE(rest, base)) == total
  }

  /** One inner-loop step: replacing digit d by (d * mul + carry) % base keeps the weighted total. */
  lemma CarryStep(low: seq<int>, d: int, tail: seq<int>, carry: int, mul: nat, base: nat, total: int)
    requires base >= 2 && 0 <= d < base && 0 <= carry < mul
    requires Weighs(low, carry, [d] + tail, mul, base, total)
    ensures var value := d * mul + carry;
      && 0 <= value < mul * base && 0 <= value % base < base && 0 <= value / base < mul
      && (d != 0 ==> value % base != 0 || value / base > 0)
      && Weighs(low + [value % base], value / base, tail, mul, base, total)
  {
    var value := d * mul + carry;
    MulMonotone(mul, 0, d);
    MulMonotone(mul, d + 1, base);
    assert value < mul * base;
    assert d != 0 ==> value > 0 by { if d != 0 { MulMonotone(mul, 1, d); } }
    QuotientRange(value, base, mul);
    var q, r := value / base, value % base;
    LEAppend(low, r, base);
    LESplit(d, tail, base);
    PowStep(base, |low|);
    CarryAlgebra(Pow(base, |low|), base, q, r, mul, d, carry, LE(tail, base));
  }

  lemma QuotientRange(value: nat, base: nat, mul: nat)
    requires base >= 2 && value < mul * base
    ensures 0 <= value / base < mul
    ensures value == value % base + base * (value / base)
    ensures value > 0 ==> value % base != 0 || value / base > 0
  {
    DivMod(value, base);
    if value / base >= mul {
      MulMonotone(base, mul, value / base);
      assert false;
    }
  }

  lemma CarryAlgebra(p: int, base: int, q: int, r: int, mul: int, d: int, carry: int, rest: int)
    requires d * mul + carry == r + base * q
    ensures p * r + (base * p) * (q + mul * rest) == p * (carry + mul * (d + base * rest))
  {
    calc {
      p * (carry + mul * (d + base * rest));
      p * (d * mul + carry + base * (mul * rest));
      p * (r + base * (q + mul * rest));
      p * r + (base * p) * (q + mul * rest);
    }
  }

  lemma PushQuotient(carry: nat, base: nat)
    requires base >= 2 && carry > 0
    ensures 0 <= carry % base < base && 0 <= carry / base < carry
    ensures carry / base == 0 ==> carry % base != 0
    ensures carry == carry % base + base * (carry / base)
  {
    DivMod(carry, base);
    var q := carry / base;
    if q > 0 {
      MulMonotone(q, 2, base);
    }
  }

  /** One push: the carry's low digit c becomes the new top digit. */
  lemma PushStep(digits: seq<int>, q: int, c: int, base: nat)
    ensures LE(digits + [c], base) + Pow(base, |digits| + 1) * q
         == LE(digits, base) + Pow(base, |digits|) * (c + base * q)
  {
    LEAppend(digits, c, base);
    PowStep(base, |digits|);
    PushAlgebra(Pow(base, |digits|), base, q, c);
  }

  lemma PushAlgebra(p: int, base: int, q: int, c: int)
    ensures p * c + (base * p) * q == p * (c + base * q)
  {
  }

  lemma MaskExact(x: nat)
    requires x < 0x8000_0000
    ensures MaskByte(x) == x % 256 && ShiftRight8(x) == x / 256
  {
  }

  lemma AppendInput(prefix: seq<int>, x: int, b: nat)
    ensures BE(prefix + [x], b) == BE(prefix, b) * b + x
  {
    assert (prefix + [x])[..|prefix|] == prefix;
  }

  /** The carry loop's invariant: digits below index are final, those from index on are still
      start's, and the weighted total is that of start * mul + input. */
  ghost predicate Carrying(digits: seq<int>, start: seq<int>, index: int, carry: int, input: int, mul: nat, base: nat) {
    && 0 <= index <= |digits| == |start| && 0 <= carry < mul && AllBelow(digits, base)
    && digits[index..] == start[index..]
    && (index > 0 && start[index - 1] != 0 ==> carry > 0 || digits[index - 1] != 0)
    && Weighs(digits[..index], carry, start[index..], mul, base, LE(start, base) * mul + input)
  }

  lemma StartCarrying(start: seq<int>, input: int, mul: nat, base: nat)
    requires Canonical(start, base) && 0 <= input < mul
    ensures Carrying(start, start, 0, input, input, mul, base)
  {
    assert start[..0] == [] && start[0..] == start;
  }

  lemma KeepCarrying(digits: seq<int>, start: seq<int>, index: int, carry: int, input: int, mul: nat, base: nat)
    requires base >= 2 && Carrying(digits, start, index, carry, input, mul, base) && index < |digits|
    ensures 0 <= digits[index] * mul + carry < mul * base
    ensures var value := digits[index] * mul + carry;
      Carrying(digits[index := value % base], start, index + 1, value / base, input, mul, base)
  {
    var d, tail := start[index], start[index + 1..];
    assert digits[index] == digits[index..][0] == d;
    assert start[index..] == [d] + tail;
    CarryStep(digits[..index], d, tail, carry, mul, base, LE(start, base) * mul + input);
    var next := digits[index := (d * mul + carry) % base];
    assert next[..index + 1] == digits[..index] + [(d * mul + carry) % base];
    assert next[index + 1..] == digits[index..][1..];
    assert tail == start[index..][1..];
  }

  /** The push loop's invariant. */
  ghost predicate Pushing(digits: seq<int>, carry: int, total: int, base: nat) {
    && |digits| >= 1 && AllBelow(digits, base) && carry >= 0
    && (carry == 0 ==> |digits| == 1 || digits[|digits| - 1] != 0)
    && LE(digits, base) + Pow(base, |digits|) * carry == total
  }

  lemma StartPushing(digits: seq<int>, start: seq<int>, carry: int, input: int, mul: nat, base: nat)
    requires Canonical(start, base) && Carrying(digits, start, |digits|, carry, input, mul, base)
    ensures Pushing(digits, carry, LE(start, base) * mul + input, base)
  {
    assert start[|digits|..] == [] && digits[..|digits|] == digits;
  }

  lemma KeepPushing(digits: seq<int>, carry: int, total: int, base: nat)
    requires base >= 2 && Pushing(digits, carry, total, base) && carry > 0
    ensures 0 <= carry / base < carry
    ensures Pushing(digits + [carry % base], carry / base, total, base)
  {
    PushQuotient(carry, base);
    PushStep(digits, carry / base, carry % base, base);
  }

  lemma DonePushing(digits: seq<int>, total: int, base: nat)
    requires Pushing(digits, 0, total, base)
    ensures Canonical(digits, base) && LE(digits, base) == total
  {
  }

  /** The body of encodeBase58's byte loop: digits := digits * 256 + byte, in place. */
  method AbsorbByte(start: seq<int>, byte: int) returns (digits: seq<int>)
    requires Canonical(start, 58) && 0 <= byte < 256
    ensures Canonical(digits, 58)
    ensures LE(digits, 58) == LE(start, 58) * 256 + byte
  {
    digits := start;
    var carry := byte;
    StartCarrying(start, byte, 256, 58);
    var index := 0;
    while index < |digits|
      invariant Carrying(digits, start, index, carry, byte, 256, 58)
    {
      var value := digits[index] * 256 + carry;
      KeepCarrying(digits, start, index, carry, byte, 256, 58);
      digits := digits[index := value % 58];
      carry := value / 58;
      index := index + 1;
    }
    StartPushing(digits, start, carry, byte, 256, 58);
    while carry > 0
      invariant Pushing(digits, carry, LE(start, 58) * 256 + byte, 58)
    {
      KeepPushing(digits, carry, LE(start, 58) * 256 + byte, 58);
      digits := digits + [carry % 58];
      carry := carry / 58;
    }
    DonePushing(digits, LE(start, 58) * 256 + byte, 58);
  }

  /** encodeBase58's byte loop: the input's value in radix 58, least significant digit first. */
  method DigitsOf(input: seq<int>) returns (digits: seq<int>)
    requires AllBelow(input, 256)
    ensures BE(input, 256) >= 0
    ensures digits == Digits(BE(input, 256), 58)
  {
    digits := [0];
    ZeroDigit(58);
    for k := 0 to |input|
      invariant Canonical(digits, 58)
      invariant LE(digits, 58) == BE(input[..k], 256)
    {
      AppendInput(input[..k], input[k], 256);
      assert input[..k + 1] == input[..k] + [input[k]];
      digits := AbsorbByte(digits, input[k]);
    }
    assert input[..|input|] == input;
    DigitsUnique(digits, 58);
  }

  lemma ZeroDigit(b: nat)
    requires b >= 2
    ensures Canonical([0], b) && LE([0], b) == 0
  {
    LESplit(0, [], b);
    assert [0] + [] == [0];
  }

  method EncodeBase58(input: seq<int>) returns (encoded: string)
    requires AllBelow(input, 256)
    ensures encoded == Encoding(input)
  {
    if |input| == 0 {
      return "";
    }
    var digits := DigitsOf(input);

    var leadingZeroCount := 0;
    while leadingZeroCount < |input| && input[leadingZeroCount] == 0
      invariant leadingZeroCount <= LeadingZeros(input)
    {
      leadingZeroCount := leadingZeroCount + 1;
    }

    encoded := AppendDigits(Repeat('1', leadingZeroCount), leadingZeroCount, digits);
    EncodingParts(input, leadingZeroCount, digits);
  }

  lemma EncodingParts(input: seq<int>, z: nat, digits: seq<int>)
    requires AllBelow(input, 256) && |input| > 0 && z == LeadingZeros(input)
    requires BE(input, 256) >= 0 && digits == Digits(BE(input, 256), 58)
    ensures AllBelow(Repeat(0, z) + Reverse(digits), 58)
    ensures Encoding(input) == Chars(Repeat(0, z) + Reverse(digits))
  {
  }

  /** encodeBase58's last loop: the characters of the digits, most significant first. */
  method AppendDigits(prefix: string, zeros: nat, digits: seq<int>) returns (encoded: string)
    requires AllBelow(digits, 58) && prefix == Repeat('1', zeros)
    ensures AllBelow(Repeat(0, zeros) + Reverse(digits), 58)
    ensures encoded == Chars(Repeat(0, zeros) + Reverse(digits))
  {
    ghost var result := Repeat(0, zeros) + Reverse(digits);
    forall k | zeros <= k < |result| ensures result[k] == digits[|result| - 1 - k] {
      ReversedAt(zeros, digits, k);
    }
    ZeroChars(zeros);
    assert result[..zeros] == Repeat(0, zeros);
    encoded := AppendBackwards(prefix, digits, result);
  }

  /** Appends the characters of the digits from the last digit to the first. */
  method AppendBackwards(prefix: string, digits: seq<int>, ghost result: seq<int>) returns (encoded: string)
    requires AllBelow(digits, 58) && AllBelow(result, 58) && |digits| <= |result|
    requires prefix == Chars(result[..|result| - |digits|])
    requires forall k :: |result| - |digits| <= k < |result| ==> result[k] == digits[|result| - 1 - k]
    ensures encoded == Chars(result)
  {
    encoded := prefix;
    var index := |digits|;
    while index > 0
      invariant 0 <= index <= |digits|
      invariant encoded == Chars(result[..|result| - index])
    {
      AppendChar(result, |result| - index);
      index := index - 1;
      var symbol := SymbolOf(digits[index]);
      encoded := encoded + [symbol];
    }
    assert result[..|result|] == result;
  }

  lemma ReversedAt(zeros: nat, digits: seq<int>, k: nat)
    requires zeros <= k < zeros + |digits|
    ensures (Repeat(0, zeros) + Reverse(digits))[k] == digits[|digits| + zeros - 1 - k]
  {
    var reversed := Reverse(digits);
    assert (Repeat(0, zeros) + reversed)[k] == reversed[k - zeros];
    assert reversed[k - zeros] == digits[|digits| - 1 - (k - zeros)];
  }

  /** The lookup in the alphabet. */
  method SymbolOf(digit: int) returns (symbol: char)
    requires 0 <= digit < 58
    ensures symbol == Code(digit) as char
  {
    AlphabetCodes(digit);
    symbol := ALPHABET[digit];
  }

  lemma AppendChar(digits: seq<int>, k: nat)
    requires AllBelow(digits, 58) && k < |digits|
    ensures Chars(digits[..k + 1]) == Chars(digits[..k]) + [Code(digits[k]) as char]
  {
    AlphabetCodes(digits[k]);
    assert digits[..k + 1][..k] == digits[..k];
  }

  lemma {:induction false} ZeroChars(n: nat)
    ensures Chars(Repeat(0, n)) == Repeat('1', n)
  {
    if n > 0 {
      ZeroChars(n - 1);
      AlphabetCodes(0);
      assert Repeat(0, n)[..n - 1] == Repeat(0, n - 1);
    }
  }

  /** The body of decodeBase58's character loop: bytes := bytes * 58 + value, in place. */
  method AbsorbChar(start: seq<int>, value: int) returns (bytes: seq<int>)
    requires Canonical(start, 256) && 0 <= value < 58
    ensures Canonical(bytes, 256)
    ensures LE(bytes, 256) == LE(start, 256) * 58 + value
  {
    var carry;
    bytes, carry := MultiplyBytes(start, value);
    StartPushing(bytes, start, carry, value, 58, 256);
    bytes := PushCarry(bytes, carry, LE(start, 256) * 58 + value);
  }

  /** Multiplies every byte by 58, passing the carry on from byte to byte. */
  method MultiplyBytes(start: seq<int>, value: int) returns (bytes: seq<int>, carry: int)
    requires Canonical(start, 256) && 0 <= value < 58
    ensures Carrying(bytes, start, |bytes|, carry, value, 58, 256)
  {
    bytes, carry := start, value;
    StartCarrying(start, value, 58, 256);
    var index := 0;
    while index < |bytes|
      invariant Carrying(bytes, start, index, carry, value, 58, 256)
    {
      var byteValue := bytes[index] * 58 + carry;
      KeepCarrying(bytes, start, index, carry, value, 58, 256);
      MaskExact(byteValue);
      bytes := bytes[index := MaskByte(byteValue)];
      carry := ShiftRight8(byteValue);
      index := index + 1;
    }
  }

  /** Pushes what is left of the carry, one byte at a time. */
  method PushCarry(start: seq<int>, input: int, ghost total: int) returns (bytes: seq<int>)
    requires input < 58 && Pushing(start, input, total, 256)
    ensures Canonical(bytes, 256) && LE(bytes, 256) == total
  {
    bytes := start;
    var carry := input;
    while carry > 0
      invariant carry < 58 && Pushing(bytes, carry, total, 256)
    {
      KeepPushing(bytes, carry, total, 256);
      MaskExact(carry);
      bytes := bytes + [MaskByte(carry)];
      carry := ShiftRight8(carry);
    }
    DonePushing(bytes, total, 256);
  }

  /** decodeBase58's character loop: the value in radix 256, least significant byte first,
      or the error at the first character outside the alphabet. */
  method BytesOf(trimmed: string) returns (result: Result<seq<int>, Error>)
    ensures result.Failure? <==> !InAlphabet(trimmed)
    ensures result.Failure? ==> result.error == InvalidCharacter
    ensures result.Success? ==> BE(Values(trimmed), 58) >= 0
    ensures result.Success? ==> result.value == Digits(BE(Values(trimmed), 58), 256)
  {
    var bytes := [0];
    ZeroDigit(256);
    for k := 0 to |trimmed|
      invariant InAlphabet(trimmed[..k])
      invariant Canonical(bytes, 256)
      invariant LE(bytes, 256) == BE(Values(trimmed[..k]), 58)
    {
      var value := CharValue(trimmed[k]);
      if value.None? {
        return Failure(InvalidCharacter);
      }
      AppendValue(trimmed, k);
      bytes := AbsorbChar(bytes, value.value);
    }
    assert trimmed[..|trimmed|] == trimmed;
    DigitsUnique(bytes, 256);
    return Success(bytes);
  }

  lemma AppendValue(t: string, k: nat)
    requires k < |t| && InAlphabet(t[..k]) && IsBase58Char(t[k])
    ensures InAlphabet(t[..k + 1])
    ensures BE(Values(t[..k + 1]), 58) == BE(Values(t[..k]), 58) * 58 + CharValue(t[k]).value
  {
    assert t[..k + 1][..k] == t[..k];
    AppendInput(Values(t[..k]), CharValue(t[k]).value, 58);
  }

  lemma DecodingParts(text: string, z: nat, bytes: seq<int>)
    requires Trim(text) != "" && InAlphabet(Trim(text)) && z == LeadingZeros(Values(Trim(text)))
    requires BE(Values(Trim(text)), 58) >= 0 && bytes == Digits(BE(Values(Trim(text)), 58), 256)
    ensures Decoding(text) == Success(Repeat(0, z) + Reverse(bytes))
  {
  }

  method CountOnes(trimmed: string) returns (count: nat)
    requires InAlphabet(trimmed)
    ensures count == LeadingZeros(Values(trimmed))
  {
    ghost var digits := Values(trimmed);
    count := 0;
    while count < |trimmed| && trimmed[count] == '1'
      invariant count <= LeadingZeros(digits)
    {
      CharValueInverse(digits[count]);
      count := count + 1;
    }
    if count < |trimmed| {
      CharValueInverse(digits[count]);
    }
  }

  method DecodeBase58(input: string) returns (result: Result<seq<int>, Error>)
    ensures result == Decoding(input)
  {
    var trimmed := Trim(input);
    if trimmed == "" {
      return Success([]);
    }
    var attempt := BytesOf(trimmed);
    if attempt.Failure? {
      return attempt;
    }
    var bytes := attempt.value;
    var leadingZeroCount := CountOnes(trimmed);
    var decoded := BigEndian(leadingZeroCount, bytes);
    DecodingParts(input, leadingZeroCount, bytes);
    return Success(decoded[..]);
  }

  /** decodeBase58's last loops: the zero-filled result array, bytes written from its end. */
  method BigEndian(zeros: nat, bytes: seq<int>) returns (decoded: array<int>)
    ensures fresh(decoded)
    ensures decoded[..] == Repeat(0, zeros) + Reverse(bytes)
  {
    decoded := new int[zeros + |bytes|](_ => 0);
    var n := decoded.Length;
    for index := 0 to |bytes|
      invariant forall i :: 0 <= i < n - index ==> decoded[i] == 0
      invariant forall i :: n - index <= i < n ==> decoded[i] == bytes[n - 1 - i]
    {
      decoded[n - 1 - index] := bytes[index];
    }
  }
}
