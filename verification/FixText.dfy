/** Bytes, decimal digits and the layout of a FIX message. */
module FixText {
  type Byte = c: char | c as int < 256

  type Bytes = seq<Byte>

  const SOH: Byte := 1 as char

  const U64: int := 0x1_0000_0000_0000_0000

  /** Unsigned 64-bit arithmetic. */
  function Wrap(a: int): nat {
    a % U64
  }

  /** The value of a signed char. */
  function SignedValue(c: Byte): int {
    if c as int < 128 then c as int else c as int - 256
  }

  predicate IsDigit(c: Byte) {
    '0' <= c <= '9'
  }

  function Digit(d: int): Byte
    requires 0 <= d < 10
  {
    (d + 48) as char
  }

  /** n in decimal, without leading zeros. */
  function Digits(n: nat): Bytes {
    if n < 10 then [Digit(n)] else Digits(n / 10) + [Digit(n % 10)]
  }

  function DigitSum(n: nat): nat {
    if n < 10 then n else DigitSum(n / 10) + n % 10
  }

  function DigitValue(c: Byte): nat {
    if IsDigit(c) then c as int - 48 else 0
  }

  /** What a run of digits means. */
  function Value(s: Bytes): nat {
    if s == [] then 0 else Value(s[..|s| - 1]) * 10 + DigitValue(s[|s| - 1])
  }

  function Pow10(k: nat): nat {
    if k == 0 then 1 else 10 * Pow10(k - 1)
  }

  lemma DigitExact(d: nat)
    requires d < 10
    ensures Digit(d) == "0123456789"[d] && IsDigit(Digit(d)) && DigitValue(Digit(d)) == d
  {
  }

  lemma {:induction false} DigitsAreDigits(n: nat)
    ensures |Digits(n)| >= 1 && forall i :: 0 <= i < |Digits(n)| ==> IsDigit(Digits(n)[i])
  {
    if n >= 10 { DigitsAreDigits(n / 10); }
  }

  lemma {:induction false} ValueOfDigits(n: nat)
    ensures Value(Digits(n)) == n
  {
    DigitsAreDigits(n);
    if n >= 10 {
      ValueOfDigits(n / 10);
      assert Digits(n)[..|Digits(n)| - 1] == Digits(n / 10);
    } else {
      assert Digits(n)[..0] == [];
    }
  }

  lemma {:induction false} DigitsInjective(a: nat, b: nat)
    ensures Digits(a) == Digits(b) <==> a == b
  {
    ValueOfDigits(a);
    ValueOfDigits(b);
  }

  /** A number has at most k digits exactly when it is below the k-th power of ten. */
  lemma {:induction false} DigitCount(n: nat, k: nat)
    requires k > 0
    ensures |Digits(n)| <= k <==> n < Pow10(k)
    decreases k
  {
    DigitsAreDigits(n);
    if k > 1 {
      if n >= 10 { DigitCount(n / 10, k - 1); } else { PowGrows(k); }
    } else {
      assert Pow10(1) == 10;
      if n >= 10 { DigitsAreDigits(n / 10); }
    }
  }

  lemma {:induction false} PowGrows(k: nat)
    requires k > 0
    ensures Pow10(k) >= 10
    decreases k
  {
    if k > 1 { PowGrows(k - 1); }
  }

  function ByteSum(s: Bytes): nat {
    if s == [] then 0 else ByteSum(s[..|s| - 1]) + s[|s| - 1] as int
  }

  lemma {:induction false} SumOfBoth(a: Bytes, b: Bytes)
    ensures ByteSum(a + b) == ByteSum(a) + ByteSum(b)
    decreases |b|
  {
    if b == [] {
      assert a + b == a;
    } else {
      assert (a + b)[..|a + b| - 1] == a + b[..|b| - 1];
      SumOfBoth(a, b[..|b| - 1]);
    }
  }

  /** The end of the run of digits that starts at i. */
  function DigitsEnd(buf: Bytes, i: nat): (e: nat)
    requires i <= |buf|
    ensures i <= e <= |buf|
    decreases |buf| - i
  {
    if i < |buf| && IsDigit(buf[i]) then DigitsEnd(buf, i + 1) else i
  }

  lemma {:induction false} DigitsEndIs(buf: Bytes, i: nat, e: nat)
    requires i <= e < |buf| && !IsDigit(buf[e]) && forall j :: i <= j < e ==> IsDigit(buf[j])
    ensures DigitsEnd(buf, i) == e
    decreases e - i
  {
    if i < e { DigitsEndIs(buf, i + 1, e); }
  }

  // ---------------------------------------------------------------- messages

  datatype Version = Version(major: nat, minor: nat)

  datatype Message = Message(version: Version, body: Bytes)

  predicate OneDigit(v: Version) {
    v.major < 10 && v.minor < 10
  }

  function Header(v: Version): (h: Bytes)
    requires OneDigit(v)
    ensures |h| == 12
  {
    ['8', '=', 'F', 'I', 'X', '.', Digit(v.major), '.', Digit(v.minor), SOH, '9', '=']
  }

  function Zeros(n: nat): (z: Bytes)
    ensures |z| == n && forall i :: 0 <= i < n ==> z[i] == '0'
  {
    if n == 0 then [] else Zeros(n - 1) + ['0']
  }

  /** At least four digits. */
  function Padded(n: nat): Bytes {
    Zeros(if |Digits(n)| < 4 then 4 - |Digits(n)| else 0) + Digits(n)
  }

  function Trailer(sum: nat): (t: Bytes)
    requires sum < 256
    ensures |t| == 7
  {
    ['1', '0', '=', Digit(sum / 10 / 10 % 10), Digit(sum / 10 % 10), Digit(sum % 10), SOH]
  }

  /** Everything before the checksum field. */
  function Summed(m: Message): Bytes
    requires OneDigit(m.version)
  {
    Header(m.version) + Padded(|m.body|) + [SOH] + m.body
  }

  /** A message: the four-digit length is the body's byte count, the three checksum digits the byte sum modulo 256. */
  function Encode(m: Message): Bytes
    requires OneDigit(m.version)
  {
    Summed(m) + Trailer(ByteSum(Summed(m)) % 256)
  }

  predicate AllOneDigit(ms: seq<Message>) {
    forall i :: 0 <= i < |ms| ==> OneDigit(ms[i].version)
  }

  function EncodeAll(ms: seq<Message>): Bytes
    requires AllOneDigit(ms)
  {
    if ms == [] then [] else Encode(ms[0]) + EncodeAll(ms[1..])
  }

  // ---------------------------------------------------------------- what the printer leaves

  /** The header with room for the length. */
  function Reserved(v: Version): (h: Bytes)
    requires OneDigit(v)
    ensures |h| == 17
  {
    Header(v) + ['0', '0', '0', '0', SOH]
  }

  /** Decimal digits written backwards from place `pos`, over whatever is there. */
  function Patched(s: Bytes, pos: nat, n: nat): Bytes
    requires |Digits(n)| <= pos <= |s|
  {
    s[..pos - |Digits(n)|] + Digits(n) + s[pos..]
  }

  /** A message as it is committed, the length patched in over the zeros and its digits added to the sum. */
  function Framed(m: Message): Bytes
    requires OneDigit(m.version) && |m.body| < Pow10(16)
  {
    var s := Reserved(m.version) + m.body;
    DigitCount(|m.body|, 16);
    Patched(s, 16, |m.body|) + Trailer((ByteSum(s) + DigitSum(|m.body|)) % 256)
  }

  lemma {:induction false} SumOfDigits(n: nat)
    ensures ByteSum(Digits(n)) == 48 * |Digits(n)| + DigitSum(n)
  {
    if n >= 10 {
      SumOfDigits(n / 10);
      SumOfBoth(Digits(n / 10), [Digit(n % 10)]);
      assert [Digit(n % 10)][..0] == [];
    } else {
      assert Digits(n)[..0] == [];
    }
  }

  lemma {:induction false} SumOfZeros(n: nat)
    ensures ByteSum(Zeros(n)) == 48 * n
  {
    if n > 0 {
      SumOfZeros(n - 1);
      assert Zeros(n)[..n - 1] == Zeros(n - 1);
    }
  }

  /** With four digits or fewer the patch replaces zeros only. */
  lemma {:induction false} PatchFits(m: Message)
    requires OneDigit(m.version) && |m.body| < 10000
    ensures |m.body| < Pow10(16) && |Digits(|m.body|)| <= 4
    ensures Patched(Reserved(m.version) + m.body, 16, |m.body|) == Summed(m)
  {
    var n := |m.body|;
    FourDigits(n);
    var k := |Digits(n)|;
    var s, z := Reserved(m.version) + m.body, Zeros(4 - k);
    assert s[..16 - k] == Header(m.version) + z;
    assert s[16..] == [SOH] + m.body;
    assert Header(m.version) + z + Digits(n) + ([SOH] + m.body) == Header(m.version) + (z + Digits(n)) + [SOH] + m.body;
  }

  lemma FourDigits(n: nat)
    ensures |Digits(n)| <= 4 <==> n < 10000
    ensures n < 10000 ==> n < Pow10(16)
    ensures n < Pow10(16) <==> |Digits(n)| <= 16
  {
    DigitCount(n, 4);
    DigitCount(n, 16);
    assert Pow10(4) == 10 * (10 * (10 * Pow10(1)));
  }

  /** The length is patched after the sum was taken, and adding the digits' values makes up for that. */
  lemma {:induction false} PatchedSum(m: Message)
    requires OneDigit(m.version) && |m.body| < 10000
    ensures ByteSum(Summed(m)) == ByteSum(Reserved(m.version) + m.body) + DigitSum(|m.body|)
  {
    hide ByteSum, DigitSum, Digits;
    var n, h := |m.body|, Header(m.version);
    FourDigits(n);
    var z := Zeros(4 - |Digits(n)|);
    SumOfDigits(n);
    SumOfZeros(4 - |Digits(n)|);
    SumOfZeros(4);
    assert Zeros(4) == ['0', '0', '0', '0'];
    SumOfBoth(h + Padded(n) + [SOH], m.body);
    SumOfBoth(h + Padded(n), [SOH]);
    SumOfBoth(h, Padded(n));
    SumOfBoth(z, Digits(n));
    assert Reserved(m.version) == h + Zeros(4) + [SOH];
    SumOfBoth(Reserved(m.version), m.body);
    SumOfBoth(h + Zeros(4), [SOH]);
    SumOfBoth(h, Zeros(4));
  }

  /** What is committed is the message, length and checksum included, exactly when the body is under 10000 bytes. */
  lemma {:induction false} FramedExact(m: Message)
    requires OneDigit(m.version) && |m.body| < Pow10(16)
    ensures Framed(m) == Encode(m) <==> |m.body| < 10000
  {
    hide Digits, ByteSum, DigitSum, Pow10;
    FourDigits(|m.body|);
    if |m.body| < 10000 {
      PatchFits(m);
      PatchedSum(m);
    } else {
      assert |Padded(|m.body|)| > 4;
    }
  }

  // ---------------------------------------------------------------- what a reader of the bytes sees

  predicate AllDigits(s: Bytes) {
    forall i :: 0 <= i < |s| ==> '0' <= s[i] <= '9'
  }

  /** A text that ends in a checksum field whose three digits are the sum of all bytes before the field, modulo 256. */
  predicate CheckSumOk(s: Bytes) {
    |s| >= 7 &&
    var n := |s| - 7;
    && s[n..n + 3] == "10=" && AllDigits(s[n + 3..n + 6]) && s[n + 6] == 1 as char
    && Value(s[n + 3..n + 6]) == ByteSum(s[..n]) % 256
  }

  lemma ThreeDigits(a: Byte, b: Byte, c: Byte)
    requires IsDigit(a) && IsDigit(b) && IsDigit(c)
    ensures Value([a, b, c]) == (a as int - 48) * 100 + (b as int - 48) * 10 + (c as int - 48)
  {
    assert [a, b, c][..2] == [a, b] && [a, b][..1] == [a] && [a][..0] == [];
    assert Value([a]) == DigitValue(a) && Value([a, b]) == DigitValue(a) * 10 + DigitValue(b);
  }

  /** The checksum field reads as the sum. */
  lemma {:induction false} TrailerMeaning(sum: nat)
    requires sum < 256
    ensures var t := Trailer(sum);
      && t[..3] == "10=" && AllDigits(t[3..6]) && t[6] == 1 as char && Value(t[3..6]) == sum
  {
    var t := Trailer(sum);
    ThreeDigits(t[3], t[4], t[5]);
    assert t[3..6] == [t[3], t[4], t[5]];
  }

  lemma {:induction false} CheckSumBehind(s: Bytes, sum: nat)
    requires sum < 256
    ensures CheckSumOk(s + Trailer(sum)) <==> sum == ByteSum(s) % 256
  {
    hide ByteSum, Value, Trailer;
    TrailerMeaning(sum);
    var z, t := s + Trailer(sum), Trailer(sum);
    assert z[..|s|] == s && z[|s|..|s| + 3] == t[..3] && z[|s| + 3..|s| + 6] == t[3..6] && z[|s| + 6] == t[6];
  }

  /** The bytes of the k places before the end of the reserved length. */
  function Overwritten(v: Version, k: nat): nat
    requires OneDigit(v) && k <= 16
  {
    if k == 0 then 0 else Reserved(v)[16 - k] as int + Overwritten(v, k - 1)
  }

  lemma {:induction false} OverwrittenIs(v: Version, k: nat)
    requires OneDigit(v) && k <= 16
    ensures ByteSum(Reserved(v)[16 - k..16]) == Overwritten(v, k)
    decreases k
  {
    if k > 0 {
      var s := Reserved(v)[16 - k..16];
      OverwrittenIs(v, k - 1);
      SumOfBoth([s[0]], s[1..]);
      assert [s[0]] + s[1..] == s && s[1..] == Reserved(v)[16 - (k - 1)..16];
      assert [s[0]][..0] == [];
    }
  }

  lemma OverwrittenStep(v: Version, k: nat, sum: int, c: int)
    requires OneDigit(v) && 1 <= k <= 16 && Overwritten(v, k - 1) == sum && Reserved(v)[16 - k] as int == c
    ensures Overwritten(v, k) == sum + c
  {
  }

  lemma OverwrittenZeros(v: Version, k: nat)
    requires OneDigit(v) && k <= 4
    ensures Overwritten(v, k) == 48 * k
    decreases k
  {
    if k > 0 {
      OverwrittenZeros(v, k - 1);
      OverwrittenStep(v, k, 48 * (k - 1), 48);
    }
  }

  lemma OverwrittenVersion(v: Version)
    requires OneDigit(v)
    ensures Overwritten(v, 5) == 253 && Overwritten(v, 6) == 310 && Overwritten(v, 7) == 311
    ensures Overwritten(v, 8) == 359 + v.minor && Overwritten(v, 9) == 405 + v.minor
    ensures Overwritten(v, 10) == 453 + v.minor + v.major
  {
    hide Overwritten;
    OverwrittenZeros(v, 4);
    OverwrittenStep(v, 5, 192, '=' as int);
    OverwrittenStep(v, 6, 253, '9' as int);
    OverwrittenStep(v, 7, 310, 1);
    OverwrittenStep(v, 8, 311, 48 + v.minor);
    OverwrittenStep(v, 9, 359 + v.minor, '.' as int);
    OverwrittenStep(v, 10, 405 + v.minor, 48 + v.major);
  }

  lemma OverwrittenName(v: Version)
    requires OneDigit(v)
    ensures var x := 453 + v.minor + v.major;
      && Overwritten(v, 11) == x + 46 && Overwritten(v, 12) == x + 134 && Overwritten(v, 13) == x + 207
      && Overwritten(v, 14) == x + 277 && Overwritten(v, 15) == x + 338 && Overwritten(v, 16) == x + 394
  {
    hide Overwritten;
    OverwrittenVersion(v);
    var x := 453 + v.minor + v.major;
    OverwrittenStep(v, 11, x, '.' as int);
    OverwrittenStep(v, 12, x + 46, 'X' as int);
    OverwrittenStep(v, 13, x + 134, 'I' as int);
    OverwrittenStep(v, 14, x + 207, 'F' as int);
    OverwrittenStep(v, 15, x + 277, '=' as int);
    OverwrittenStep(v, 16, x + 338, '8' as int);
  }

  /** Up to four digits replace zeros; more of them change the sum by something else than their values. */
  lemma {:induction false} OverwrittenSums(v: Version, k: nat)
    requires OneDigit(v) && 1 <= k <= 16
    ensures (48 * k - Overwritten(v, k)) % 256 == 0 <==> k <= 4
  {
    hide Overwritten;
    if k <= 4 {
      OverwrittenZeros(v, k);
    } else {
      OverwrittenVersion(v);
      OverwrittenName(v);
      SmallDifference(48 * k - Overwritten(v, k));
    }
  }

  lemma SmallDifference(d: int)
    requires -256 < d < 256
    ensures d % 256 == 0 <==> d == 0
  {
  }

  lemma {:induction false} PatchChangesSum(s: Bytes, k: nat, n: nat)
    requires k == |Digits(n)| <= 16 <= |s|
    ensures ByteSum(Patched(s, 16, n)) == ByteSum(s) - ByteSum(s[16 - k..16]) + 48 * k + DigitSum(n)
  {
    var a, b, c := s[..16 - k], s[16 - k..16], s[16..];
    SumOfDigits(n);
    SumOfBoth(a + b, c);
    SumOfBoth(a, b);
    assert s == a + b + c;
    SumOfBoth(a + Digits(n), c);
    SumOfBoth(a, Digits(n));
  }

  lemma SameRemainder(a: int, b: int, d: int)
    requires b == a + d
    ensures a % 256 == b % 256 <==> d % 256 == 0
  {
  }

  /** The checksum of a committed message is right exactly when its body is under 10000 bytes. */
  lemma {:induction false} CheckSumExact(m: Message)
    requires OneDigit(m.version) && |m.body| < Pow10(16)
    ensures CheckSumOk(Framed(m)) <==> |m.body| < 10000
  {
    hide ByteSum, DigitSum, Digits, Pow10, CheckSumOk, Overwritten;
    var n, s := |m.body|, Reserved(m.version) + m.body;
    FourDigits(n);
    DigitsAreDigits(n);
    var k := |Digits(n)|;
    PatchChangesSum(s, k, n);
    assert s[16 - k..16] == Reserved(m.version)[16 - k..16];
    OverwrittenIs(m.version, k);
    OverwrittenSums(m.version, k);
    CheckSumBehind(Patched(s, 16, n), (ByteSum(s) + DigitSum(n)) % 256);
    SameRemainder(ByteSum(s) + DigitSum(n), ByteSum(Patched(s, 16, n)), 48 * k - Overwritten(m.version, k));
  }

  /** A message as a reader sees it, byte for byte. */
  lemma {:induction false} MessageLayout(m: Message) returns (length: Bytes, sum: Bytes)
    requires OneDigit(m.version)
    ensures Encode(m) ==
      "8=FIX." + Digits(m.version.major) + "." + Digits(m.version.minor) + [1 as char] + "9=" + length + [1 as char]
      + m.body + "10=" + sum + [1 as char]
    ensures AllDigits(length) && |length| >= 4 && length == Padded(|m.body|)
    ensures AllDigits(sum) && |sum| == 3 && CheckSumOk(Encode(m))
  {
    var t := Trailer(ByteSum(Summed(m)) % 256);
    length, sum := Padded(|m.body|), t[3..6];
    DigitsAreDigits(|m.body|);
    TrailerMeaning(ByteSum(Summed(m)) % 256);
    CheckSumBehind(Summed(m), ByteSum(Summed(m)) % 256);
    assert t == t[..3] + t[3..6] + [t[6]];
    HeaderLayout(m.version);
    assert Header(m.version) + length + [SOH] + m.body + (t[..3] + t[3..6] + [t[6]])
      == Header(m.version) + length + [1 as char] + m.body + "10=" + sum + [1 as char];
  }

  lemma HeaderLayout(v: Version)
    requires OneDigit(v)
    ensures Header(v) == "8=FIX." + Digits(v.major) + "." + Digits(v.minor) + [1 as char] + "9="
  {
  }
}
