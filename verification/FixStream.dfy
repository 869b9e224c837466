/** Printing FIX messages into a buffer. */
module FixPrinting {
  import opened FixText

  /** The running sum is right modulo 256. */
  predicate Tallies(sum: int, s: Bytes) {
    0 <= sum < U64 && (sum - ByteSum(s)) % 256 == 0
  }

  lemma {:induction false} TallyOne(sum: int, s: Bytes, c: Byte, x: int)
    requires Tallies(sum, s) && (x == c as int || x == SignedValue(c))
    ensures Tallies(Wrap(sum + x), s + [c])
  {
    assert (s + [c])[..|s|] == s;
    assert ByteSum(s + [c]) == ByteSum(s) + c as int;
    WrapKeepsLow(sum + x);
    SameLow(sum, ByteSum(s), x);
    LowOfOne(Wrap(sum + x), ByteSum(s), c, x);
  }

  lemma LowOfOne(w: int, b: int, c: Byte, x: int)
    requires w % 256 == (b + x) % 256 && (x == c as int || x == SignedValue(c))
    ensures (w - (b + c as int)) % 256 == 0
  {
  }

  lemma TalliesMeaning(sum: int, s: Bytes, more: int)
    requires Tallies(sum, s)
    ensures Wrap(sum + more) % 256 == (ByteSum(s) + more) % 256
  {
    WrapKeepsLow(sum + more);
    SameLow(sum, ByteSum(s), more);
  }

  lemma WrapKeepsLow(a: int)
    ensures Wrap(a) % 256 == a % 256
  {
    var q, r := a / U64, a % U64;
    assert a == 256 * (q * 0x100_0000_0000_0000) + r;
    SameLow(a, r, 0);
  }

  lemma SameLow(a: int, b: int, more: int)
    requires (a - b) % 256 == 0
    ensures (a + more) % 256 == (b + more) % 256
  {
  }

  lemma WrapAdds(a: int, b: int)
    ensures Wrap(Wrap(a) + b) == Wrap(a + b)
  {
  }

  lemma PrefixSlice(s: Bytes, more: Bytes, a: nat, b: nat)
    requires a <= b <= |s|
    ensures (s + more)[a..b] == s[a..b]
  {
  }

  /** Storage with a write position: bytes before it are committed, bytes behind it are prepared. */
  class Buffer {
    var mem: Bytes
    var rpos: nat
    var wpos: nat

    ghost predicate Valid()
      reads this
    {
      rpos <= wpos <= |mem|
    }

    ghost predicate Room(n: nat)
      reads this
    {
      wpos + n <= |mem|
    }

    function Data(): Bytes
      reads this
      requires Valid()
    {
      mem[rpos..wpos]
    }

    ghost function Prepared(n: nat): (s: Bytes)
      reads this
      requires Room(n)
      ensures |s| == n
    {
      mem[wpos..wpos + n]
    }

    constructor ()
      ensures Valid() && Data() == []
    {
      mem, rpos, wpos := [], 0, 0;
    }

    method Prepare(size: nat, ghost n: nat)
      requires Valid() && Room(n)
      modifies this`mem
      ensures Valid() && Room(size) && Room(n) && Data() == old(Data()) && Prepared(n) == old(Prepared(n))
    {
      var unused := |mem| - wpos;
      if size > unused {
        PrefixSlice(mem, Zeros(size - unused), rpos, wpos);
        PrefixSlice(mem, Zeros(size - unused), wpos, wpos + n);
        mem := mem + Zeros(size - unused);
      }
    }

    /** Stores one byte at place i behind the write position. */
    method Put(i: nat, c: Byte, ghost n: nat)
      requires Valid() && Room(n) && i < n
      modifies this`mem
      ensures Valid() && |mem| == old(|mem|) && Data() == old(Data()) && Prepared(n) == old(Prepared(n))[i := c]
    {
      mem := mem[wpos + i := c];
    }

    /** Copies s to place i behind the write position. */
    method Copy(i: nat, s: Bytes)
      requires Valid() && Room(i + |s|)
      modifies this`mem
      ensures Valid() && |mem| == old(|mem|) && Data() == old(Data())
      ensures Prepared(i + |s|) == old(Prepared(i)) + s
    {
      mem := mem[..wpos + i] + s + mem[wpos + i + |s|..];
    }

    method Commit(count: nat)
      requires Valid() && Room(count)
      modifies this`wpos
      ensures Valid() && Data() == old(Data()) + old(Prepared(count))
    {
      wpos := wpos + count;
    }
  }

  lemma SevenPut(s: Bytes, p: nat, a: Byte, b: Byte, c: Byte, d: Byte, e: Byte, f: Byte, g: Byte)
    requires |s| == p + 7
    ensures s[p + 6 := g][p + 5 := f][p + 4 := e][p + 3 := d][p + 2 := c][p + 1 := b][p := a]
      == s[..p] + [a, b, c, d, e, f, g]
  {
  }

  /** Digits added one by one, from the last to the first. */
  function DigitsAdded(sum: nat, n: nat): nat
    decreases n
  {
    if n < 10 then Wrap(sum + n) else DigitsAdded(Wrap(sum + n % 10), n / 10)
  }

  lemma {:induction false} DigitsAddedIs(sum: nat, n: nat)
    ensures DigitsAdded(sum, n) == Wrap(sum + DigitSum(n))
    decreases n
  {
    if n >= 10 {
      DigitsAddedIs(Wrap(sum + n % 10), n / 10);
      WrapAdds(sum + n % 10, DigitSum(n / 10));
    }
  }

  /** The digits of n, from the last to the first, put at the places before `pos`. */
  function DigitsPut(s: Bytes, pos: nat, n: nat): (z: Bytes)
    requires |Digits(n)| <= pos <= |s|
    ensures |z| == |s|
    decreases n
  {
    DigitsAreDigits(n);
    var z := s[pos - 1 := Digit(n % 10)];
    if n < 10 then z else DigitsPut(z, pos - 1, n / 10)
  }

  lemma {:induction false} DigitsPutIsPatched(s: Bytes, pos: nat, n: nat)
    requires |Digits(n)| <= pos <= |s|
    ensures DigitsPut(s, pos, n) == Patched(s, pos, n)
    decreases n
  {
    DigitsAreDigits(n);
    var z := s[pos - 1 := Digit(n % 10)];
    if n >= 10 {
      DigitsPutIsPatched(z, pos - 1, n / 10);
      assert z[pos - 1..] == [Digit(n % 10)] + s[pos..];
    }
  }

  /** What patching the length and writing the checksum make of a message's text. */
  lemma CommittedBytes(m: Message, text: Bytes, sum: nat)
    requires OneDigit(m.version) && |m.body| < Pow10(16) && text == Reserved(m.version) + m.body && Tallies(sum, text)
    ensures |Digits(|m.body|)| <= 16
    ensures Framed(m) == Patched(text, 16, |m.body|) + Trailer(Wrap(sum + DigitSum(|m.body|)) % 256)
  {
    DigitCount(|m.body|, 16);
    TalliesMeaning(sum, text, DigitSum(|m.body|));
  }

  lemma PlainBytes(text: Bytes, sum: nat)
    requires Tallies(sum, text)
    ensures Trailer(sum % 256) == Trailer(ByteSum(text) % 256)
  {
    TalliesMeaning(sum, text, 0);
    WrapKeepsLow(sum);
  }

  class FixStream {
    const out: Buffer
    var pcount: nat
    var sum: nat
    var bloff: nat
    ghost var text: Bytes              // written since the last reset
    ghost var version: Version

    /** What was written since the last reset is prepared in the buffer, with room for the checksum. */
    ghost predicate Writing()
      reads this, out
    {
      && out.Valid() && pcount == |text| && Tallies(sum, text)
      && (pcount > 0 ==> out.Room(pcount + 7)) && out.Room(pcount) && out.Prepared(pcount) == text
      && (bloff != 0 ==> bloff == 17 && OneDigit(version) && Reserved(version) <= text)
    }

    ghost function Body(): Bytes
      reads this
      requires bloff <= |text|
    {
      text[bloff..]
    }

    constructor (buf: Buffer)
      requires buf.Valid()
      ensures Writing() && out == buf && text == [] && bloff == 0
    {
      out, pcount, sum, bloff, text := buf, 0, 0, 0, [];
    }

    /** One character. */
    method Overflow(c: Byte)
      requires Writing()
      modifies this`pcount, this`sum, this`text, out`mem
      ensures Writing() && text == old(text) + [c] && out.Data() == old(out.Data())
    {
      out.Prepare(pcount + 1 + 7, pcount);
      out.Copy(pcount, [c]);
      TallyOne(sum, text, c, c as int);
      pcount := pcount + 1;
      sum := Wrap(sum + c as int);
      text := text + [c];
    }

    /** A run of characters. */
    method Xsputn(s: Bytes)
      requires Writing()
      modifies this`pcount, this`sum, this`text, out`mem
      ensures Writing() && text == old(text) + s && out.Data() == old(out.Data())
    {
      out.Prepare(pcount + |s| + 7, pcount);
      out.Copy(pcount, s);
      pcount := pcount + |s|;
      AddToSum(s);
      text := text + s;
    }

    /** Characters one by one. */
    method PutEach(s: Bytes)
      requires Writing()
      modifies this`pcount, this`sum, this`text, out`mem
      ensures Writing() && text == old(text) + s && out.Data() == old(out.Data())
    {
      var i := 0;
      ghost var before := text;
      while i < |s|
        invariant i <= |s| && Writing() && text == before + s[..i] && out.Data() == old(out.Data())
      {
        assert before + s[..i] + [s[i]] == before + s[..i + 1];
        Overflow(s[i]);
        i := i + 1;
      }
      assert s[..|s|] == s;
    }

    method AddToSum(s: Bytes)
      requires Tallies(sum, text)
      modifies this`sum
      ensures Tallies(sum, text + s)
    {
      var i := 0;
      assert text + s[..0] == text;
      while i < |s|
        invariant i <= |s| && Tallies(sum, text + s[..i])
      {
        TallyOne(sum, text + s[..i], s[i], SignedValue(s[i]));
        assert text + s[..i + 1] == text + s[..i] + [s[i]];
        sum := Wrap(sum + SignedValue(s[i]));
        i := i + 1;
      }
      assert s[..|s|] == s;
    }

    method ClearText()
      requires out.Valid()
      modifies this`pcount, this`sum, this`text
      ensures text == [] && pcount == 0 && sum == 0
    {
      pcount, sum, text := 0, 0, [];
    }

    /** A stream with no header and no length to patch. */
    method ResetPlain()
      requires out.Valid()
      modifies this
      ensures Writing() && text == [] && bloff == 0
    {
      ClearText();
      bloff := 0;
    }

    method WriteBegin(v: Version)
      requires Writing() && text == [] && bloff == 0 && OneDigit(v)
      modifies this`pcount, this`sum, this`text, out`mem
      ensures Writing() && out.Data() == old(out.Data())
      ensures text == ['8', '=', 'F', 'I', 'X', '.', Digit(v.major), '.', Digit(v.minor)]
    {
      Xsputn(['8', '=', 'F', 'I', 'X', '.']);
      Overflow(Digit(v.major));
      Xsputn(['.']);
      Overflow(Digit(v.minor));
    }

    /** Starts a message: the header, with zeros in place of the length. */
    method Reset(v: Version)
      requires out.Valid() && OneDigit(v)
      modifies this, out`mem
      ensures Writing() && bloff == 17 && version == v && text == Reserved(v) && Body() == []
      ensures out.Data() == old(out.Data())
    {
      ResetPlain();
      WriteBegin(v);
      Xsputn([SOH, '9', '=', '0', '0', '0', '0', SOH]);
      bloff := pcount;
      version := v;
    }

    /** Writes the digits of n backwards from place `pos` of the text, and adds their values to the sum. */
    method SetBodyLength(pos: nat, n: nat)
      requires out.Valid() && out.Room(pcount + 7) && |Digits(n)| <= pos <= pcount
      modifies this`sum, out`mem
      ensures out.Valid() && out.Room(pcount + 7) && out.Data() == old(out.Data())
      ensures sum == Wrap(old(sum) + DigitSum(n))
      ensures out.Prepared(pcount) == Patched(old(out.Prepared(pcount)), pos, n)
    {
      DigitsPutIsPatched(out.Prepared(pcount), pos, n);
      DigitsAddedIs(sum, n);
      ghost var goal, total := DigitsPut(out.Prepared(pcount), pos, n), DigitsAdded(sum, n);
      var it, len := PutDigit(pos, n);
      while len > 0
        invariant out.Valid() && |out.mem| == old(|out.mem|) && out.Data() == old(out.Data())
        invariant len > 0 ==> |Digits(len)| <= it <= pcount
        invariant goal == if len > 0 then DigitsPut(out.Prepared(pcount), it, len) else out.Prepared(pcount)
        invariant total == if len > 0 then DigitsAdded(sum, len) else sum
        decreases len
      {
        it, len := PutDigit(it, len);
      }
    }

    /** The last digit of n goes in front of place `at`, and its value into the sum. */
    method PutDigit(at: nat, n: nat) returns (it: nat, len: nat)
      requires out.Valid() && out.Room(pcount + 7) && |Digits(n)| <= at <= pcount
      modifies this`sum, out`mem
      ensures out.Valid() && |out.mem| == old(|out.mem|) && out.Data() == old(out.Data())
      ensures it == at - 1 && len == n / 10 && (len > 0 ==> |Digits(len)| <= it)
      ensures DigitsPut(old(out.Prepared(pcount)), at, n) ==
        if len > 0 then DigitsPut(out.Prepared(pcount), it, len) else out.Prepared(pcount)
      ensures DigitsAdded(old(sum), n) == if len > 0 then DigitsAdded(sum, len) else sum
    {
      DigitsAreDigits(n);
      var d := n % 10;
      sum := Wrap(sum + d);
      it := at - 1;
      out.Put(it, Digit(d), pcount);
      len := n / 10;
    }

    /** Writes the checksum field behind the text. */
    method PutCheckSum()
      requires out.Valid() && out.Room(pcount + 7)
      modifies out`mem
      ensures out.Valid() && out.Room(pcount + 7) && out.Data() == old(out.Data())
      ensures out.Prepared(pcount + 7) == old(out.Prepared(pcount)) + Trailer(sum % 256)
    {
      ghost var all := pcount + 7;
      ghost var s := out.Prepared(all);
      assert s[..pcount] == out.Prepared(pcount);
      var n := sum % 256;
      SevenPut(s, pcount, '1', '0', '=', Digit(n / 10 / 10 % 10), Digit(n / 10 % 10), Digit(n % 10), SOH);
      out.Put(pcount + 6, SOH, all);
      out.Put(pcount + 5, Digit(n % 10), all);
      n := n / 10;
      out.Put(pcount + 4, Digit(n % 10), all);
      n := n / 10;
      out.Put(pcount + 3, Digit(n % 10), all);
      out.Put(pcount + 2, '=', all);
      out.Put(pcount + 1, '0', all);
      out.Put(pcount, '1', all);
    }

    method CommitText()
      requires out.Valid() && (pcount > 0 ==> out.Room(pcount + 7)) && out.Room(pcount)
      modifies out`mem, out`wpos
      ensures out.Valid()
      ensures out.Data() ==
        old(out.Data()) + if pcount > 0 then old(out.Prepared(pcount)) + Trailer(sum % 256) else []
    {
      if pcount > 0 {
        PutCheckSum();
        out.Commit(pcount + 7);
      }
    }

    method CommitFramed(ghost body: Bytes)
      requires Writing() && bloff > 0 && body == Body() && |body| < Pow10(16)
      modifies this`sum, out`mem, out`wpos
      ensures out.Valid() && out.Data() == old(out.Data()) + Framed(Message(version, body))
    {
      hide Framed, Patched, Trailer, Digits, DigitSum, ByteSum, Pow10;
      assert text == Reserved(version) + body;
      CommittedBytes(Message(version, body), text, sum);
      SetBodyLength(bloff - 1, pcount - bloff);
      CommitText();
    }

    method CommitPlain()
      requires Writing()
      modifies out`mem, out`wpos
      ensures out.Valid()
      ensures out.Data() == old(out.Data()) + if text == [] then [] else text + Trailer(ByteSum(text) % 256)
    {
      PlainBytes(text, sum);
      CommitText();
    }

    /** Completes what was written and makes it available. A message gets its length first. */
    method Commit()
      requires Writing() && (bloff > 0 ==> |Body()| < Pow10(16))
      modifies this`sum, out`mem, out`wpos
      ensures out.Valid()
      ensures bloff > 0 ==> out.Data() == old(out.Data()) + Framed(Message(version, Body()))
      ensures bloff == 0 ==>
        out.Data() == old(out.Data()) + if text == [] then [] else text + Trailer(ByteSum(text) % 256)
      ensures text != [] ==>
        (CheckSumOk(out.Data()[|old(out.Data())|..]) <==> bloff == 0 || |Body()| < 10000)
    {
      hide Framed, Trailer, ByteSum, CheckSumOk, Pow10;
      ghost var before := out.Data();
      if bloff > 0 {
        CommitFramed(Body());
        CheckSumExact(Message(version, Body()));
        assert out.Data()[|before|..] == Framed(Message(version, Body()));
      } else {
        CommitPlain();
        CheckSumBehind(text, ByteSum(text) % 256);
        assert text != [] ==> out.Data()[|before|..] == text + Trailer(ByteSum(text) % 256);
      }
    }
  }
}
