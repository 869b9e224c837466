/** Decimal digits in a text. */
module HttpDigits {
  predicate IsNum(c: char) {
    '0' <= c <= '9'
  }

  predicate IsHex(c: char) {
    IsNum(c) || 'A' <= c <= 'F' || 'a' <= c <= 'f'
  }

  /** The decimal value of the digits of a text, whatever stands between them. */
  function Decimal(s: string): nat {
    if s == [] then 0
    else if IsNum(s[|s| - 1]) then Decimal(s[..|s| - 1]) * 10 + (s[|s| - 1] as int - '0' as int)
    else Decimal(s[..|s| - 1])
  }

  lemma {:induction false} PrefixIsSmaller(s: string, n: nat)
    requires n <= |s|
    ensures Decimal(s[..n]) <= Decimal(s)
    decreases |s|
  {
    if n < |s| {
      assert s[..|s| - 1][..n] == s[..n];
      PrefixIsSmaller(s[..|s| - 1], n);
    } else {
      assert s[..n] == s;
    }
  }

  /** A number in decimal, as it is written. */
  function DecimalText(n: nat): (s: string)
    ensures s != []
  {
    if n < 10 then ["0123456789"[n]] else DecimalText(n / 10) + ["0123456789"[n % 10]]
  }

  lemma OfNumeral(d: nat)
    requires d < 10
    ensures var c := "0123456789"[d]; IsNum(c) && c as int - '0' as int == d
  {
  }

  lemma DecimalLast(s: string, c: char)
    ensures Decimal(s + [c]) == if IsNum(c) then Decimal(s) * 10 + (c as int - '0' as int) else Decimal(s)
  {
    assert (s + [c])[..|s|] == s;
  }

  /** Writing a number and reading it gives it back, whatever stands behind it that is not a digit. */
  lemma {:induction false} DecimalTextRead(n: nat, rest: string)
    requires forall i :: 0 <= i < |rest| ==> !IsNum(rest[i])
    ensures Decimal(DecimalText(n) + rest) == n && forall i :: 0 <= i < |DecimalText(n)| ==> IsNum(DecimalText(n)[i])
    decreases |rest|, n
  {
    var s := DecimalText(n);
    if rest != [] {
      DecimalTextRead(n, rest[..|rest| - 1]);
      DecimalLast(s + rest[..|rest| - 1], rest[|rest| - 1]);
      assert s + rest == s + rest[..|rest| - 1] + [rest[|rest| - 1]];
    } else {
      assert s + [] == s;
      OfNumeral(n % 10);
      if n < 10 {
        DecimalLast([], s[0]);
        assert s == [] + [s[0]];
      } else {
        DecimalTextRead(n / 10, []);
        assert DecimalText(n / 10) + [] == DecimalText(n / 10);
        DecimalLast(DecimalText(n / 10), s[|s| - 1]);
      }
    }
  }
}

/** The unsigned 64-bit arithmetic of Content-Length and of chunk sizes. */
module HttpLengths {
  import opened Basics
  import opened HttpDigits

  const U64: int := 0x1_0000_0000_0000_0000
  const ULLONG_MAX: int := U64 - 1

  function HexDigit(c: char): (d: nat)
    requires IsHex(c)
    ensures d < 16
  {
    if c <= '9' then c as int - '0' as int
    else if c <= 'F' then c as int - 'A' as int + 10
    else c as int - 'a' as int + 10
  }

  /** A byte outside ASCII. */
  predicate High(c: char) {
    c as int >= 0x80
  }

  /** The table of digits: the value of a hexadecimal digit, nothing for any other character of ASCII. The table has
      entries for these only, and what it leaves out is zero. */
  function Unhex(c: char): (d: Option<nat>)
    ensures d.Some? ==> d.value < 16
  {
    if IsHex(c) then Some(HexDigit(c)) else if High(c) then Some(0) else None
  }

  /** Multiply and add in 64 bits. */
  function TimesPlus(v: nat, base: nat, d: nat): nat {
    (v * base + d) % U64
  }

  /** One more digit on a value: refused when the value is over a conservative limit. */
  function OneMore(v: nat, base: nat, d: nat): Option<nat>
    requires base == 10 || base == 16
  {
    if (ULLONG_MAX - base) / base < v then None else Some(TimesPlus(v, base, d))
  }

  /** The greatest value that is not refused. */
  function Greatest(base: nat): nat
    requires base == 10 || base == 16
  {
    (ULLONG_MAX - base) / base * base + base - 1
  }

  /** A digit is taken exactly when the value it makes, on unbounded numbers, is not over the greatest; then nothing
      wraps, and the result is never the value that stands for no length. */
  lemma OneMoreExact(v: nat, base: nat, d: nat)
    requires (base == 10 || base == 16) && d < base
    ensures OneMore(v, base, d) == if v * base + d <= Greatest(base) then Some(v * base + d) else None
    ensures Greatest(base) < ULLONG_MAX
  {
    if base == 10 {
      assert (ULLONG_MAX - 10) / 10 == 1844674407370955160;
    } else {
      assert (ULLONG_MAX - 16) / 16 == 0xFFF_FFFF_FFFF_FFFE;
    }
  }

  lemma GreatestValues()
    ensures Greatest(10) == 18446744073709551609 && Greatest(16) == U64 - 17
  {
    assert (ULLONG_MAX - 10) / 10 == 1844674407370955160;
    assert (ULLONG_MAX - 16) / 16 == 0xFFF_FFFF_FFFF_FFFE;
  }

  // ---------------------------------------------------------------- Content-Length

  /** A digit, and then digits and spaces. */
  predicate WellFormed(s: string) {
    s != [] && IsNum(s[0]) && forall i :: 0 <= i < |s| ==> IsNum(s[i]) || s[i] == ' '
  }

  /** What a header value says: nothing if it is empty, no length if it is refused. */
  datatype Outcome = Unset | Refused | Length(value: nat)

  /** Reads a header value. It is accepted exactly when it is well formed and its value, however many digits it has,
      is at most 18446744073709551609; then the result is that value. */
  method ReadContentLength(s: string) returns (r: Outcome)
    ensures r.Unset? <==> s == []
    ensures s != [] ==>
      r == if WellFormed(s) && Decimal(s) <= 18446744073709551609 then Length(Decimal(s)) else Refused
    ensures r.Length? ==> r.value < ULLONG_MAX
  {
    GreatestValues();
    if s == [] {
      return Unset;
    }
    if !IsNum(s[0]) {
      return Refused;
    }
    var v := s[0] as int - '0' as int;
    assert s[..1][..0] == [];
    var i := 1;
    while i < |s|
      invariant 1 <= i <= |s| && v == Decimal(s[..i]) <= Greatest(10)
      invariant forall j :: 0 <= j < i ==> IsNum(s[j]) || s[j] == ' '
    {
      assert s[..i + 1][..i] == s[..i];
      if s[i] == ' ' {
        i := i + 1;
        continue;
      }
      if !IsNum(s[i]) {
        return Refused;
      }
      var d := s[i] as int - '0' as int;
      var t := TimesPlus(v, 10, d);
      OneMoreExact(v, 10, d);
      PrefixIsSmaller(s, i + 1);
      if (ULLONG_MAX - 10) / 10 < v {
        return Refused;
      }
      v := t;
      i := i + 1;
    }
    assert s[..i] == s;
    return Length(v);
  }

  // ---------------------------------------------------------------- chunk sizes

  /** Hexadecimal digits, and what they mean. */
  predicate AllHex(s: string) {
    forall i :: 0 <= i < |s| ==> IsHex(s[i])
  }

  function HexValue(s: string): nat
    requires AllHex(s)
  {
    if s == [] then 0 else HexValue(s[..|s| - 1]) * 16 + HexDigit(s[|s| - 1])
  }

  predicate AnyHigh(s: string) {
    exists i :: 0 <= i < |s| && High(s[i])
  }

  /** What the table takes for digits, and what it makes of them. */
  predicate InTable(s: string) {
    forall i :: 0 <= i < |s| ==> Unhex(s[i]).Some?
  }

  function TableValue(s: string): nat
    requires InTable(s)
  {
    if s == [] then 0 else TableValue(s[..|s| - 1]) * 16 + Unhex(s[|s| - 1]).value
  }

  lemma {:induction false} TableOfHex(s: string)
    requires AllHex(s)
    ensures InTable(s) && TableValue(s) == HexValue(s)
    decreases |s|
  {
    if s != [] { TableOfHex(s[..|s| - 1]); }
  }

  /** The number that a text is, if it is one. */
  function HexNumber(s: string): Option<nat> {
    if s != [] && AllHex(s) then Some(HexValue(s)) else None
  }

  /** What the table makes of a text is the number that the text is, exactly when no byte is outside ASCII. */
  lemma {:induction false} TableExact(s: string)
    requires InTable(s) && s != []
    ensures HexNumber(s) == Some(TableValue(s)) <==> !AnyHigh(s)
  {
    if AllHex(s) {
      TableOfHex(s);
    } else {
      var i :| 0 <= i < |s| && !IsHex(s[i]);
      assert Unhex(s[i]).Some? && High(s[i]);
    }
  }

  /** The hexadecimal digits are these, and each means its place. */
  lemma HexDigitExact(c: char)
    ensures IsHex(c) <==> c in "0123456789abcdef" || c in "0123456789ABCDEF"
    ensures IsHex(c) ==> c == "0123456789abcdef"[HexDigit(c)] || c == "0123456789ABCDEF"[HexDigit(c)]
  {
  }

  /** A number in hexadecimal, as it is written. */
  function HexText(n: nat): (s: string)
    ensures s != []
  {
    if n < 16 then ["0123456789abcdef"[n]] else HexText(n / 16) + ["0123456789abcdef"[n % 16]]
  }

  lemma OfDigit(d: nat)
    requires d < 16
    ensures var c := "0123456789abcdef"[d]; IsHex(c) && HexDigit(c) == d
  {
  }

  /** Writing a number and reading it gives it back. */
  lemma {:induction false} HexTextRead(n: nat)
    ensures AllHex(HexText(n)) && HexValue(HexText(n)) == n
  {
    var s := HexText(n);
    OfDigit(n % 16);
    if n < 16 {
      assert s[..0] == [];
    } else {
      HexTextRead(n / 16);
      assert s[..|s| - 1] == HexText(n / 16);
    }
  }

  /** Reading digits one after another onto a value. */
  function HexRead(v: nat, s: string): Option<nat>
    requires InTable(s)
  {
    if s == [] then Some(v)
    else match HexRead(v, s[..|s| - 1])
      case None => None
      case Some(w) => OneMore(w, 16, Unhex(s[|s| - 1]).value)
  }

  /** A run of what the table takes for digits is read exactly when its value is below 2^64 - 16, and then as its
      value. */
  lemma {:induction false} HexReadExact(s: string)
    requires InTable(s) && s != []
    ensures HexRead(Unhex(s[0]).value, s[1..]) == if TableValue(s) <= U64 - 17 then Some(TableValue(s)) else None
    decreases |s|
  {
    GreatestValues();
    if |s| == 1 {
      assert s[..0] == [];
    } else {
      var before := s[..|s| - 1];
      HexReadExact(before);
      assert s[1..][..|s| - 2] == before[1..];
      OneMoreExact(TableValue(before), 16, Unhex(s[|s| - 1]).value);
    }
  }
}
