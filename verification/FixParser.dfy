/** Cutting a byte stream into FIX messages, as it arrives. */
module FixParsing {
  import opened Basics
  import opened FixText

  /** What the bytes of a message say about its body: too few bytes, a bad length field, or the body's place and size.
      */
  datatype Scan = Need | Bad | Found(offset: nat, bodyLen: nat)

  /** The length field as it is written. */
  function ReadLength(buf: Bytes): Scan {
    if |buf| <= 12 then Need
    else
      var e := DigitsEnd(buf, 12);
      if e == |buf| then Need
      else if buf[e] != SOH then Bad
      else Found(e + 1, Value(buf[12..e]))
  }

  /** What the length field comes to when its digits reach to place e. */
  lemma {:induction false} LengthFieldExact(buf: Bytes, e: nat)
    requires 12 <= e <= |buf| && AllDigits(buf[12..e]) && (e < |buf| ==> !('0' <= buf[e] <= '9'))
    ensures ReadLength(buf) ==
      if |buf| == 12 || e == |buf| then Need
      else if buf[e] == 1 as char then Found(e + 1, Value(buf[12..e])) else Bad
  {
    forall i | 12 <= i < e ensures IsDigit(buf[i]) { assert buf[12..e][i - 12] == buf[i]; }
    if e < |buf| { DigitsEndIs(buf, 12, e); } else { DigitsToTheEnd(buf, 12); }
  }

  lemma {:induction false} DigitsToTheEnd(buf: Bytes, i: nat)
    requires i <= |buf| && forall j :: i <= j < |buf| ==> IsDigit(buf[j])
    ensures DigitsEnd(buf, i) == |buf|
    decreases |buf| - i
  {
    if i < |buf| { DigitsToTheEnd(buf, i + 1); }
  }

  /** A length in 64 bits. */
  function Narrowed(s: Scan): Scan {
    match s
    case Found(offset, n) => Found(offset, n % U64)
    case _ => s
  }

  /** The length field as the code reads it. */
  function ScanLength(buf: Bytes): Scan {
    Narrowed(ReadLength(buf))
  }

  /** A message handed over. The version numbers are read off two signed bytes, digits or not. The code hands over the
      place and the length of the body; an overrun is a body that would reach past the address space. */
  datatype Delivery =
    | Delivery(major: int, minor: int, body: Bytes)
    | Overrun(major: int, minor: int, offset: nat, bodyLen: nat)

  /** How the loop over messages ends: with a message that is not all there, with the exception, or not at all,
      because the size of a message is zero and the loop does not move on. */
  datatype End = Short | Thrown | Endless

  datatype Decoded = Decoded(messages: seq<Delivery>, consumed: nat, end: End)

  /** The size of a message, in 64 bits. */
  function Frame(s: Scan): nat
    requires s.Found?
  {
    (s.offset + s.bodyLen + 7) % U64
  }

  predicate Whole(buf: Bytes, s: Scan) {
    s.Found? && 12 < s.offset <= |buf| && Frame(s) <= |buf|
  }

  function First(buf: Bytes, s: Scan): Delivery
    requires Whole(buf, s)
  {
    var major, minor := SignedValue(buf[6]) - 48, SignedValue(buf[8]) - 48;
    if s.offset + s.bodyLen + 7 < U64 then Delivery(major, minor, buf[s.offset..s.offset + s.bodyLen])
    else Overrun(major, minor, s.offset, s.bodyLen)
  }

  /** A message of n bytes, and then what d says. */
  function Then(m: Delivery, n: nat, d: Decoded): Decoded {
    Decoded([m] + d.messages, n + d.consumed, d.end)
  }

  /** All the whole messages at the front of buf, for a given way of reading the length. */
  function DecodeWith(scan: Bytes -> Scan, buf: Bytes): (d: Decoded)
    ensures d.consumed <= |buf|
    decreases |buf|
  {
    var s := scan(buf);
    if !Whole(buf, s) then Decoded([], 0, if s.Bad? then Thrown else Short)
    else if Frame(s) == 0 then Decoded([], 0, Endless)
    else
      Then(First(buf, s), Frame(s), DecodeWith(scan, buf[Frame(s)..]))
  }

  function Decode(buf: Bytes): Decoded {
    DecodeWith(ScanLength, buf)
  }

  // ---------------------------------------------------------------- more bytes

  lemma {:induction false} SameDigitsEnd(a: Bytes, b: Bytes, i: nat)
    requires i <= |a| && DigitsEnd(a, i) < |a|
    ensures DigitsEnd(a + b, i) == DigitsEnd(a, i)
    decreases |a| - i
  {
    if IsDigit(a[i]) { SameDigitsEnd(a, b, i + 1); }
  }

  /** Bytes that arrive later do not change what was read. */
  lemma {:induction false} ScanIsStable(a: Bytes, b: Bytes)
    requires !ReadLength(a).Need?
    ensures ReadLength(a + b) == ReadLength(a) && ScanLength(a + b) == ScanLength(a)
  {
    SameDigitsEnd(a, b, 12);
    var e := DigitsEnd(a, 12);
    assert (a + b)[12..e] == a[12..e];
  }

  ghost predicate Stable(scan: Bytes -> Scan) {
    forall a, b :: !scan(a).Need? ==> scan(a + b) == scan(a)
  }

  /** Nothing whole is there, or the loop stays where it is. */
  predicate Stops(buf: Bytes, s: Scan) {
    !Whole(buf, s) || Frame(s) == 0
  }

  function StopEnd(buf: Bytes, s: Scan): End {
    if Whole(buf, s) then Endless else if s.Bad? then Thrown else Short
  }

  lemma DecodeStop(scan: Bytes -> Scan, buf: Bytes, s: Scan)
    requires s == scan(buf) && Stops(buf, s)
    ensures DecodeWith(scan, buf) == Decoded([], 0, StopEnd(buf, s))
  {
  }

  lemma DecodeStep(scan: Bytes -> Scan, buf: Bytes, s: Scan)
    requires s == scan(buf) && !Stops(buf, s)
    ensures DecodeWith(scan, buf) == Then(First(buf, s), Frame(s), DecodeWith(scan, buf[Frame(s)..]))
  {
  }

  lemma StopThen(scan: Bytes -> Scan, a: Bytes, b: Bytes, s: Scan)
    requires s == scan(a) && Stops(a, s) && (!s.Need? ==> scan(a + b) == s)
    ensures var d := DecodeWith(scan, a);
      DecodeWith(scan, a + b) == if d.end.Short? then After(d, DecodeWith(scan, a[d.consumed..] + b)) else d
  {
    hide DecodeWith, First;
    DecodeStop(scan, a, s);
    if StopEnd(a, s).Short? {
      assert a[0..] == a;
    } else {
      DecodeStop(scan, a + b, s);
    }
  }

  /** Decoding what is there, and then what is left together with what comes next, is decoding the whole. */
  lemma {:induction false} DecodeInTwo(scan: Bytes -> Scan, a: Bytes, b: Bytes)
    requires Stable(scan)
    ensures var d := DecodeWith(scan, a);
      DecodeWith(scan, a + b) == if d.end.Short? then After(d, DecodeWith(scan, a[d.consumed..] + b)) else d
    decreases |a|
  {
    hide DecodeWith, First, SignedValue;
    var s := scan(a);
    if Stops(a, s) {
      StopThen(scan, a, b, s);
    } else {
      FirstOfBoth(a, b, s);
      DecodeStep(scan, a, s);
      DecodeStep(scan, a + b, s);
      var n, rest := Frame(s), a[Frame(s)..];
      var r := DecodeWith(scan, rest);
      assert (a + b)[n..] == rest + b;
      DecodeInTwo(scan, rest, b);
      if r.end.Short? {
        assert rest[r.consumed..] == a[n + r.consumed..];
        AfterOne(First(a, s), n, r, DecodeWith(scan, rest[r.consumed..] + b));
      }
    }
  }

  lemma AfterOne(m: Delivery, n: nat, d: Decoded, e: Decoded)
    ensures After(Then(m, n, d), e) == Then(m, n, After(d, e))
  {
  }

  lemma FirstOfBoth(a: Bytes, b: Bytes, s: Scan)
    requires Whole(a, s)
    ensures Whole(a + b, s) && First(a + b, s) == First(a, s)
  {
    if s.offset + s.bodyLen + 7 < U64 {
      assert (a + b)[s.offset..s.offset + s.bodyLen] == a[s.offset..s.offset + s.bodyLen];
    }
  }

  function After(d: Decoded, e: Decoded): Decoded {
    Decoded(d.messages + e.messages, d.consumed + e.consumed, e.end)
  }

  /** What a parser that is fed piece by piece has delivered, and what it still holds. */
  datatype Session = Session(pending: Bytes, delivered: seq<Delivery>, consumed: nat, end: End)

  function Receive(scan: Bytes -> Scan, s: Session, piece: Bytes): Session {
    if !s.end.Short? then s
    else
      var d := DecodeWith(scan, s.pending + piece);
      Session((s.pending + piece)[d.consumed..], s.delivered + d.messages, s.consumed + d.consumed, d.end)
  }

  function ReceiveAll(scan: Bytes -> Scan, pieces: seq<Bytes>): Session {
    if pieces == [] then Session([], [], 0, Short)
    else Receive(scan, ReceiveAll(scan, pieces[..|pieces| - 1]), pieces[|pieces| - 1])
  }

  /** A session that got the bytes `all` has done what decoding them at once does, and holds the rest. */
  predicate Fits(s: Session, all: Bytes, d: Decoded) {
    && s.delivered == d.messages && s.consumed == d.consumed <= |all| && s.end == d.end
    && (d.end.Short? ==> s.pending == all[d.consumed..])
  }

  lemma {:induction false} OnePieceMore(scan: Bytes -> Scan, s: Session, all: Bytes, piece: Bytes)
    requires Stable(scan) && Fits(s, all, DecodeWith(scan, all))
    ensures Fits(Receive(scan, s, piece), all + piece, DecodeWith(scan, all + piece))
  {
    hide DecodeWith;
    DecodeInTwo(scan, all, piece);
    if s.end.Short? {
      var d := DecodeWith(scan, s.pending + piece);
      assert (all + piece)[s.consumed..] == s.pending + piece;
      assert (all + piece)[s.consumed + d.consumed..] == (s.pending + piece)[d.consumed..];
    }
  }

  lemma {:induction false} CutsDoNotMatterTo(scan: Bytes -> Scan, pieces: seq<Bytes>)
    requires Stable(scan) && scan([]).Need?
    ensures Fits(ReceiveAll(scan, pieces), Joined(pieces), DecodeWith(scan, Joined(pieces)))
    decreases |pieces|
  {
    if pieces == [] {
    } else {
      var before, piece := pieces[..|pieces| - 1], pieces[|pieces| - 1];
      CutsDoNotMatterTo(scan, before);
      OnePieceMore(scan, ReceiveAll(scan, before), Joined(before), piece);
    }
  }

  /** However a stream is cut into pieces, the messages delivered, the bytes consumed and how the loop ends depend on
      the stream only. */
  lemma {:induction false} CutsDoNotMatter(pieces: seq<Bytes>)
    ensures Fits(ReceiveAll(ScanLength, pieces), Joined(pieces), Decode(Joined(pieces)))
  {
    forall a, b | !ScanLength(a).Need? ensures ScanLength(a + b) == ScanLength(a) { ScanIsStable(a, b); }
    CutsDoNotMatterTo(ScanLength, pieces);
  }

  // ---------------------------------------------------------------- lengths that do not fit

  /** The messages that the bytes really are: lengths are numbers of any size. */
  function Messages(buf: Bytes): (d: Decoded)
    ensures d.consumed <= |buf|
    decreases |buf|
  {
    match ReadLength(buf)
    case Need => Decoded([], 0, Short)
    case Bad => Decoded([], 0, Thrown)
    case Found(offset, n) =>
      if offset + n + 7 > |buf| then Decoded([], 0, Short)
      else
        var m := Delivery(SignedValue(buf[6]) - 48, SignedValue(buf[8]) - 48, buf[offset..offset + n]);
        Then(m, offset + n + 7, Messages(buf[offset + n + 7..]))
  }

  /** Each length met makes a size that fits 64 bits, or one of which 64 bits still leave more than there is. */
  predicate LengthsFit(buf: Bytes)
    decreases |buf|
  {
    match ReadLength(buf)
    case Found(offset, n) =>
      if offset + n + 7 <= |buf| then LengthsFit(buf[offset + n + 7..])
      else offset + n + 7 < U64 || (offset + n + 7) % U64 > |buf|
    case _ => true
  }

  lemma NarrowedFrame(offset: nat, n: nat)
    ensures Frame(Found(offset, n % U64)) == (offset + n + 7) % U64
  {
    var q, r := n / U64, n % U64;
    assert offset + n + 7 == (offset + r + 7) + U64 * q;
    WrapMultiple(offset + r + 7, q);
  }

  lemma WrapMultiple(a: nat, q: nat)
    ensures (a + U64 * q) % U64 == a % U64
  {
  }

  lemma ThenApart(m: Delivery, n: nat, d: Decoded, e: Decoded)
    ensures Then(m, n, d) == Then(m, n, e) <==> d == e
  {
    assert Then(m, n, d).messages[1..] == d.messages && Then(m, n, e).messages[1..] == e.messages;
  }

  lemma NoWrap(a: nat)
    requires a < U64
    ensures a % U64 == a
  {
  }

  lemma ReadInside(buf: Bytes)
    ensures ReadLength(buf).Found? ==> 12 < ReadLength(buf).offset <= |buf|
  {
  }

  lemma MessagesStep(buf: Bytes, s: Scan, size: nat, m: Delivery)
    requires s == ReadLength(buf) && s.Found? && size == s.offset + s.bodyLen + 7 <= |buf|
    requires m == Delivery(SignedValue(buf[6]) - 48, SignedValue(buf[8]) - 48, buf[s.offset..s.offset + s.bodyLen])
    ensures Messages(buf) == Then(m, size, Messages(buf[size..]))
  {
    hide ReadLength, SignedValue;
  }

  /** A message that is there: its length fits, and both hand over the same. */
  lemma WholeCase(buf: Bytes, s: Scan, size: nat)
    requires |buf| < U64 && s == ReadLength(buf) && s.Found? && size == s.offset + s.bodyLen + 7 <= |buf|
    ensures !Stops(buf, s) && s == ScanLength(buf) && Frame(s) == size
    ensures Messages(buf) == Then(First(buf, s), size, Messages(buf[size..]))
  {
    hide Messages, ReadLength, SignedValue;
    ReadInside(buf);
    NoWrap(s.bodyLen);
    NoWrap(size);
    MessagesStep(buf, s, size, First(buf, s));
  }

  lemma NotThere(buf: Bytes, s: Scan)
    requires s == ReadLength(buf) && s.Found? && s.offset + s.bodyLen + 7 > |buf|
    ensures 12 < s.offset <= |buf| && Messages(buf) == Decoded([], 0, Short)
  {
    hide DigitsEnd, Value;
  }

  lemma FitsWhenThere(buf: Bytes, s: Scan, size: nat)
    requires s == ReadLength(buf) && s.Found? && size == s.offset + s.bodyLen + 7 <= |buf|
    ensures LengthsFit(buf) <==> LengthsFit(buf[size..])
  {
    hide Messages, ReadLength;
  }

  lemma FitsWhenNotThere(buf: Bytes, s: Scan, n: nat)
    requires s == ReadLength(buf) && s.Found? && n == s.offset + s.bodyLen + 7 > |buf|
    ensures LengthsFit(buf) <==> n < U64 || n % U64 > |buf|
  {
    hide Messages, DigitsEnd, Value;
  }

  /** A message that is not there. */
  lemma LongCase(buf: Bytes, s: Scan, n: nat)
    requires |buf| < U64 && s == ReadLength(buf) && s.Found? && n == s.offset + s.bodyLen + 7 > |buf|
    ensures Decode(buf) == Messages(buf) <==> LengthsFit(buf)
  {
    hide DecodeWith, Messages, First, LengthsFit, ReadLength;
    NotThere(buf, s);
    FitsWhenNotThere(buf, s, n);
    NarrowedFrame(s.offset, s.bodyLen);
    if n < U64 { NoWrap(n); }
    var z := ScanLength(buf);
    if Stops(buf, z) { DecodeStop(ScanLength, buf, z); } else { DecodeStep(ScanLength, buf, z); }
  }

  /** The code delivers the messages that the bytes are exactly when the lengths fit. */
  lemma {:induction false} ExactWhenLengthsFit(buf: Bytes)
    requires |buf| < U64
    ensures Decode(buf) == Messages(buf) <==> LengthsFit(buf)
    decreases |buf|
  {
    hide First, DigitsEnd, Value;
    var s := ReadLength(buf);
    if s.Found? && s.offset + s.bodyLen + 7 > |buf| {
      LongCase(buf, s, s.offset + s.bodyLen + 7);
    } else if s.Found? {
      OneMoreExact(buf, s, s.offset + s.bodyLen + 7);
      ExactWhenLengthsFit(buf[s.offset + s.bodyLen + 7..]);
    }
  }

  lemma OneMoreExact(buf: Bytes, s: Scan, size: nat)
    requires |buf| < U64 && s == ReadLength(buf) && s.Found? && size == s.offset + s.bodyLen + 7 <= |buf|
    ensures Decode(buf) == Messages(buf) <==> Decode(buf[size..]) == Messages(buf[size..])
    ensures LengthsFit(buf) <==> LengthsFit(buf[size..])
  {
    hide DecodeWith, Messages, First, ReadLength, LengthsFit;
    FitsWhenThere(buf, s, size);
    WholeCase(buf, s, size);
    DecodeStep(ScanLength, buf, s);
    ThenApart(First(buf, s), size, Decode(buf[size..]), Messages(buf[size..]));
  }

  // ---------------------------------------------------------------- messages that were printed

  function Delivered(m: Message): Delivery {
    Delivery(m.version.major, m.version.minor, m.body)
  }

  function AllDelivered(ms: seq<Message>): seq<Delivery> {
    if ms == [] then [] else [Delivered(ms[0])] + AllDelivered(ms[1..])
  }

  lemma {:induction false} ValueOfZeros(k: nat, s: Bytes)
    ensures Value(Zeros(k) + s) == Value(s)
    decreases |s|, k
  {
    var z := Zeros(k) + s;
    if s != [] {
      assert z[..|z| - 1] == Zeros(k) + s[..|s| - 1];
      ValueOfZeros(k, s[..|s| - 1]);
    } else if k > 0 {
      assert z == Zeros(k - 1) + ['0'];
      assert z[..|z| - 1] == Zeros(k - 1) + [];
      ValueOfZeros(k - 1, s);
    }
  }

  lemma {:induction false} PaddedValue(n: nat)
    ensures |Padded(n)| >= 4 && forall i :: 0 <= i < |Padded(n)| ==> IsDigit(Padded(n)[i])
    ensures Value(Padded(n)) == n
  {
    ValueOfDigits(n);
    DigitsAreDigits(n);
    ValueOfZeros(if |Digits(n)| < 4 then 4 - |Digits(n)| else 0, Digits(n));
  }

  /** A header, some digits and the terminator are read as the digits' value. */
  lemma {:induction false} ScanOf(h: Bytes, ds: Bytes, rest: Bytes)
    requires |h| == 12 && ds != [] && forall i :: 0 <= i < |ds| ==> IsDigit(ds[i])
    ensures ReadLength(h + ds + [SOH] + rest) == Found(13 + |ds|, Value(ds))
  {
    var buf := h + ds + [SOH] + rest;
    DigitsEndIs(buf, 12, 12 + |ds|);
    assert buf[12..12 + |ds|] == ds;
  }

  lemma FirstOf(h: Bytes, p: Bytes, body: Bytes, t: Bytes, more: Bytes)
    requires |h| == 12 && |t| == 7 && 13 + |p| + |body| + 7 < U64
    ensures var buf, s := h + p + [SOH] + (body + t + more), Found(13 + |p|, |body|);
      && Whole(buf, s) && Frame(s) == 13 + |p| + |body| + 7 && buf[Frame(s)..] == more
      && First(buf, s) == Delivery(SignedValue(h[6]) - 48, SignedValue(h[8]) - 48, body)
  {
    var buf, o := h + p + [SOH] + (body + t + more), 13 + |p|;
    assert buf[o..o + |body|] == body;
  }

  lemma {:induction false} DecodeEncoded(m: Message, more: Bytes)
    requires OneDigit(m.version) && |Encode(m)| < U64
    ensures var d, e := Decode(more), Decode(Encode(m) + more);
      e == Decoded([Delivered(m)] + d.messages, |Encode(m)| + d.consumed, d.end)
  {
    hide DecodeWith, Encode, First, Frame, Whole, ReadLength;
    var size := EncodedFirst(m, more);
    var buf, s := Encode(m) + more, Found(size - 7 - |m.body|, |m.body|);
    NoWrap(|m.body|);
    DecodeStep(ScanLength, buf, s);
  }

  /** The message in front of what follows it. */
  lemma {:induction false} EncodedFirst(m: Message, more: Bytes) returns (size: nat)
    requires OneDigit(m.version) && |Encode(m)| < U64
    ensures size == |Encode(m)| && size >= |m.body| + 7 && |m.body| < U64
    ensures var buf, s := Encode(m) + more, Found(size - 7 - |m.body|, |m.body|);
      && ReadLength(buf) == s && Whole(buf, s) && Frame(s) == size && buf[size..] == more
      && First(buf, s) == Delivered(m)
  {
    var h, p := Header(m.version), Padded(|m.body|);
    var t := Trailer(ByteSum(Summed(m)) % 256);
    size := |Encode(m)|;
    PaddedValue(|m.body|);
    assert Encode(m) + more == h + p + [SOH] + (m.body + t + more);
    ScanOf(h, p, m.body + t + more);
    FirstOf(h, p, m.body, t, more);
  }

  /** What the printer encodes the parser delivers, and nothing is left over. */
  lemma {:induction false} DecodeUndoesEncode(ms: seq<Message>)
    requires AllOneDigit(ms) && forall i :: 0 <= i < |ms| ==> |Encode(ms[i])| < U64
    ensures Decode(EncodeAll(ms)) == Decoded(AllDelivered(ms), |EncodeAll(ms)|, Short)
    decreases |ms|
  {
    if ms != [] {
      DecodeUndoesEncode(ms[1..]);
      DecodeEncoded(ms[0], EncodeAll(ms[1..]));
    }
  }

  lemma ShortMessage(m: Message)
    requires OneDigit(m.version) && |m.body| < 10000
    ensures |Encode(m)| == 24 + |m.body| < U64
  {
    FourDigits(|m.body|);
  }

  function FrameAll(ms: seq<Message>): Bytes
    requires AllOneDigit(ms) && forall i :: 0 <= i < |ms| ==> |ms[i].body| < Pow10(16)
  {
    if ms == [] then [] else Framed(ms[0]) + FrameAll(ms[1..])
  }

  lemma {:induction false} FrameAllIsEncodeAll(ms: seq<Message>)
    requires AllOneDigit(ms) && forall i :: 0 <= i < |ms| ==> |ms[i].body| < 10000 < Pow10(16)
    ensures FrameAll(ms) == EncodeAll(ms)
    decreases |ms|
  {
    if ms != [] {
      FramedExact(ms[0]);
      FrameAllIsEncodeAll(ms[1..]);
    }
  }

  /** The round trip: any messages the printer commits, presented in any pieces, are delivered as they were, and
      exactly the bytes written are consumed. */
  lemma {:induction false} RoundTrip(ms: seq<Message>, pieces: seq<Bytes>)
    requires AllOneDigit(ms) && forall i :: 0 <= i < |ms| ==> |ms[i].body| < 10000 < Pow10(16)
    requires Joined(pieces) == FrameAll(ms)
    ensures ReceiveAll(ScanLength, pieces) == Session([], AllDelivered(ms), |FrameAll(ms)|, Short)
  {
    FrameAllIsEncodeAll(ms);
    forall i | 0 <= i < |ms| ensures |Encode(ms[i])| < U64 { ShortMessage(ms[i]); }
    DecodeUndoesEncode(ms);
    CutsDoNotMatter(pieces);
  }

  /** The value of the last k digits of n. */
  function LowValue(n: nat, k: nat): nat {
    if k == 0 then 0 else LowValue(n / 10, k - 1) * 10 + n % 10
  }

  lemma LowFour(n: nat)
    ensures LowValue(n, 4) == n % 10000
  {
    assert LowValue(n, 4) == LowValue(n / 10, 3) * 10 + n % 10;
    assert LowValue(n / 10, 3) == LowValue(n / 10 / 10, 2) * 10 + n / 10 % 10;
    assert LowValue(n / 10 / 10, 2) == LowValue(n / 10 / 10 / 10, 1) * 10 + n / 10 / 10 % 10;
    assert LowValue(n / 10 / 10 / 10, 1) == n / 10 / 10 / 10 % 10;
  }

  lemma {:induction false} LowDigits(n: nat, k: nat)
    requires k < |Digits(n)|
    ensures Value(Digits(n)[|Digits(n)| - k..]) == LowValue(n, k)
    decreases k
  {
    var s := Digits(n)[|Digits(n)| - k..];
    if k > 0 {
      LowDigits(n / 10, k - 1);
      assert s[..k - 1] == Digits(n / 10)[|Digits(n / 10)| - (k - 1)..];
    }
  }

  /** A longer body runs the length's digits over the `9=` before it, and the parser reads the last four of them. */
  lemma {:induction false} LongBodyMisread(m: Message, more: Bytes)
    requires OneDigit(m.version) && 10000 <= |m.body| < Pow10(16)
    ensures ReadLength(Framed(m) + more) == Found(17, |m.body| % 10000)
  {
    hide ReadLength, ByteSum, DigitSum, Digits, Pow10;
    FourDigits(|m.body|);
    ReservedTail(m);
    var t := Trailer((ByteSum(Reserved(m.version) + m.body) + DigitSum(|m.body|)) % 256);
    LongPatch(Reserved(m.version) + m.body, |m.body|, m.body, t, more);
  }

  lemma LongPatch(s: Bytes, n: nat, body: Bytes, t: Bytes, more: Bytes)
    requires 4 <= |Digits(n)| <= 16 <= |s| && s[16..] == [SOH] + body
    ensures ReadLength(Patched(s, 16, n) + t + more) == Found(17, n % 10000)
  {
    DigitsAreDigits(n);
    ScanLong(s, Digits(n), body, t, more);
    LastFour(n);
  }

  lemma ReservedTail(m: Message)
    requires OneDigit(m.version)
    ensures (Reserved(m.version) + m.body)[16..] == [SOH] + m.body
  {
  }

  lemma LastFour(n: nat)
    requires |Digits(n)| >= 4
    ensures Value(Digits(n)[|Digits(n)| - 4..]) == n % 10000
  {
    LowFour(n);
    if |Digits(n)| > 4 {
      LowDigits(n, 4);
    } else {
      FourDigits(n);
      ValueOfDigits(n);
      assert Digits(n)[0..] == Digits(n);
    }
  }

  lemma ScanLong(s: Bytes, ds: Bytes, body: Bytes, t: Bytes, more: Bytes)
    requires 4 <= |ds| <= 16 <= |s| && s[16..] == [SOH] + body && forall i :: 0 <= i < |ds| ==> IsDigit(ds[i])
    ensures ReadLength(s[..16 - |ds|] + ds + s[16..] + t + more) == Found(17, Value(ds[|ds| - 4..]))
  {
    LongLayout(s, ds, body, t, more);
    ScanOf(LongHeader(s, ds), ds[|ds| - 4..], body + t + more);
  }

  function LongHeader(s: Bytes, ds: Bytes): Bytes
    requires 4 <= |ds| <= 16 <= |s|
  {
    s[..16 - |ds|] + ds[..|ds| - 4]
  }

  lemma LongLayout(s: Bytes, ds: Bytes, body: Bytes, t: Bytes, more: Bytes)
    requires 4 <= |ds| <= 16 <= |s| && s[16..] == [SOH] + body
    ensures s[..16 - |ds|] + ds + s[16..] + t + more == LongHeader(s, ds) + ds[|ds| - 4..] + [SOH] + (body + t + more)
  {
    assert ds == ds[..|ds| - 4] + ds[|ds| - 4..];
  }

  lemma NothingThere()
    ensures Decode([]) == Decoded([], 0, Short)
  {
  }

  lemma ShortFirst(buf: Bytes, s: Scan)
    requires Whole(buf, s) && s.offset + s.bodyLen + 7 < U64
    ensures First(buf, s).Delivery? && |First(buf, s).body| == s.bodyLen
  {
  }

  /** One committed message comes back whole exactly when its body is under 10000 bytes. */
  lemma {:induction false} RoundTripExact(m: Message)
    requires OneDigit(m.version) && |m.body| < Pow10(16)
    ensures Decode(Framed(m)) == Decoded([Delivered(m)], |Framed(m)|, Short) <==> |m.body| < 10000
  {
    hide DecodeWith, Framed, Encode, First, ReadLength;
    if |m.body| < 10000 {
      FramedExact(m);
      ShortMessage(m);
      DecodeEncoded(m, []);
      assert Encode(m) + [] == Encode(m);
      NothingThere();
    } else {
      LongBodyMisread(m, []);
      assert Framed(m) + [] == Framed(m);
      var buf, s := Framed(m), Found(17, |m.body| % 10000);
      if Stops(buf, s) {
        DecodeStop(ScanLength, buf, s);
      } else {
        DecodeStep(ScanLength, buf, s);
        ShortFirst(buf, s);
        assert Decode(buf).messages[0] == First(buf, s);
      }
    }
  }

  // ---------------------------------------------------------------- lengths near 2^64

  function HugeText(v: Version, n: nat): Bytes
    requires OneDigit(v)
  {
    Header(v) + Digits(n) + [SOH]
  }

  lemma {:induction false} HugeScan(v: Version, n: nat)
    requires OneDigit(v) && U64 - 40 <= n < U64
    ensures var buf, s := HugeText(v, n), Found(33, n);
      |buf| == 33 && ReadLength(buf) == ScanLength(buf) == s && Frame(s) == n + 40 - U64
    ensures n <= U64 - 7 ==>
      Whole(HugeText(v, n), Found(33, n)) && First(HugeText(v, n), Found(33, n)) == Overrun(v.major, v.minor, 33, n)
  {
    TwentyDigits(n);
    DigitsAreDigits(n);
    ValueOfDigits(n);
    ScanOf(Header(v), Digits(n), []);
    assert HugeText(v, n) + [] == HugeText(v, n);
  }

  /** A length within 40 bytes of 2^64 behind a header of 12 bytes: the message it announces can never be there, but the
      code hands over a body that reaches past everything, or, for 2^64 - 40, hands it over again and again. */
  lemma {:induction false} HugeLength(v: Version, n: nat)
    requires OneDigit(v) && U64 - 40 <= n <= U64 - 7
    ensures var buf := HugeText(v, n);
      && Messages(buf) == Decoded([], 0, Short)
      && if n == U64 - 40 then Decode(buf) == Decoded([], 0, Endless)
         else Decode(buf).messages != [] && Decode(buf).messages[0] == Overrun(v.major, v.minor, 33, n)
  {
    hide HugeText, ReadLength, First;
    HugeScan(v, n);
    var buf, s := HugeText(v, n), Found(33, n);
    if n == U64 - 40 { DecodeStop(ScanLength, buf, s); } else { DecodeStep(ScanLength, buf, s); }
  }

  lemma TwentyDigits(n: nat)
    requires U64 - 40 <= n < U64
    ensures |Digits(n)| == 20
  {
    assert Pow10(5) == 100_000;
    assert Pow10(10) == 10_000_000_000;
    assert Pow10(15) == 1_000_000_000_000_000;
    assert Pow10(19) == 10_000_000_000_000_000_000;
    DigitCount(n, 19);
    DigitCount(n, 20);
  }

  /** In particular 18446744073709551600, where the code then moves on by 24 bytes. */
  lemma {:induction false} HugeLengthInput(v: Version)
    requires OneDigit(v)
    ensures Decode(HugeText(v, 18446744073709551600)) ==
      Decoded([Overrun(v.major, v.minor, 33, 18446744073709551600)], 24, Short)
  {
    hide HugeText, First, DecodeWith;
    var n := 18446744073709551600;
    HugeScan(v, n);
    var buf, s := HugeText(v, n), Found(33, n);
    DecodeStep(ScanLength, buf, s);
    DecodeStop(ScanLength, buf[24..], Need);
  }

  // ---------------------------------------------------------------- the parser

  /** `scan` reads lengths the way ScanLength does. */
  ghost predicate Reads(scan: Bytes -> Scan) {
    forall b {:trigger ScanLength(b)} :: scan(b) == ScanLength(b)
  }

  lemma WrapDigit(n: nat, d: nat)
    ensures (n % U64 * 10 % U64 + d) % U64 == (n * 10 + d) % U64
  {
    var q, r := n / U64, n % U64;
    assert n * 10 + d == (r * 10 + d) + U64 * (q * 10);
    WrapMultiple(r * 10 + d, q * 10);
  }

  class FixParser {
    var offset: nat
    var bodyLen: nat
    ghost var delivered: seq<Delivery>

    /** Between calls a scan that was finished is remembered; `buf` is what the caller will present again. */
    ghost predicate Remembers(buf: Bytes)
      reads this
    {
      offset != 0 ==> ScanLength(buf) == Found(offset, bodyLen)
    }

    constructor ()
      ensures delivered == [] && offset == 0 && Remembers([])
    {
      offset, bodyLen, delivered := 0, 0, [];
    }

    method Clear()
      modifies this`offset, this`bodyLen
      ensures offset == 0 && bodyLen == 0
    {
      offset, bodyLen := 0, 0;
    }

    method OnMessage(m: Delivery)
      modifies this`delivered
      ensures delivered == old(delivered) + [m]
    {
      delivered := delivered + [m];
    }

    /** `bad` stands for the exception. */
    method ParseBodyLen(buf: Bytes) returns (found: bool, bad: bool)
      requires offset == 0
      modifies this`offset, this`bodyLen
      ensures found == ScanLength(buf).Found? && bad == ScanLength(buf).Bad?
      ensures if found then ScanLength(buf) == Found(offset, bodyLen) && 12 < offset <= |buf|
              else offset == 0 && bodyLen == old(bodyLen)
    {
      var len := |buf|;
      if len <= 12 {
        return false, false;
      }
      var it, n := 12, 0;
      if IsDigit(buf[it]) {
        n := buf[it] as int - 48;
        it := it + 1;
        assert buf[12..it][..0] == [] && buf[12..it] == [buf[12]];
        while true
          invariant 12 < it <= len && forall j :: 12 <= j < it ==> IsDigit(buf[j])
          invariant offset == 0 && bodyLen == old(bodyLen)
          invariant n == Value(buf[12..it]) % U64 && DigitsEnd(buf, 12) == DigitsEnd(buf, it)
          decreases len - it
        {
          if it == len {
            assert DigitsEnd(buf, it) == it && ScanLength(buf) == Need;
            return false, false;
          }
          if !IsDigit(buf[it]) {
            break;
          }
          assert buf[12..it + 1][..it - 12] == buf[12..it];
          WrapDigit(Value(buf[12..it]), DigitValue(buf[it]));
          n := n * 10 % U64;
          n := (n + (buf[it] as int - 48)) % U64;
          it := it + 1;
        }
      }
      assert DigitsEnd(buf, 12) == it && n == Value(buf[12..it]) % U64;
      if buf[it] != SOH {
        return false, true;
      }
      offset := it + 1;
      bodyLen := n;
      return true, false;
    }

    /** Bytes that arrive do not spoil what is remembered. */
    lemma RemembersMore(buf: Bytes, more: Bytes)
      requires Remembers(buf)
      ensures Remembers(buf + more)
    {
      if offset != 0 { ScanIsStable(buf, more); }
    }

    /** One whole message, and the length of the next. */
    method DeliverOne(buf: Bytes, len: nat, ghost scan: Bytes -> Scan) returns (rest: Bytes, found: bool, bad: bool)
      requires Reads(scan) && Whole(buf, Found(offset, bodyLen)) && len == Frame(Found(offset, bodyLen))
      modifies this
      ensures rest == buf[len..] && delivered == old(delivered) + [First(buf, Found(old(offset), old(bodyLen)))]
      ensures found == scan(rest).Found? && bad == scan(rest).Bad?
      ensures if found then scan(rest) == Found(offset, bodyLen) && 12 < offset <= |rest| else offset == 0
    {
      OnMessage(First(buf, Found(offset, bodyLen)));
      rest := buf[len..];
      Clear();
      found, bad := ParseBodyLen(rest);
    }

    /** The loop over messages that are there, once the length of the first is known. `Endless` stands for a loop that
        stays where it is, delivering the same bytes for ever. */
    method DeliverAll(buf: Bytes, ghost scan: Bytes -> Scan) returns (sum: nat, end: End)
      requires Reads(scan) && scan(buf) == Found(offset, bodyLen) && 12 < offset <= |buf|
      modifies this
      ensures var d := DecodeWith(scan, buf);
        sum == d.consumed && end == d.end && delivered == old(delivered) + d.messages
      ensures offset != 0 ==> scan(buf[sum..]) == Found(offset, bodyLen)
    {
      hide DecodeWith, First, ReadLength;
      sum, end := 0, Short;
      var rest := buf;
      while true
        invariant sum <= |buf| && rest == buf[sum..] && end == Short
        invariant scan(rest) == Found(offset, bodyLen) && 12 < offset <= |rest|
        invariant Ahead(delivered, sum, DecodeWith(scan, rest)) == Ahead(old(delivered), 0, DecodeWith(scan, buf))
        decreases |rest|
      {
        var len := (offset + bodyLen + 7) % U64;
        if |rest| < len {
          DecodeStop(scan, rest, Found(offset, bodyLen));
          break;
        }
        if len == 0 {
          DecodeStop(scan, rest, Found(offset, bodyLen));
          return sum, Endless;
        }
        OneDelivered(scan, rest, Found(offset, bodyLen), delivered, sum);
        assert buf[sum..][len..] == buf[sum + len..];
        var found, bad;
        rest, found, bad := DeliverOne(rest, len, scan);
        sum := sum + len;
        if !found {
          DecodeStop(scan, rest, scan(rest));
          return sum, if bad then Thrown else Short;
        }
      }
    }

    /** Delivers the messages at the front of buf and says how many bytes they take. The caller drops those and
        presents the rest again with whatever follows it. */
    method Parse(buf: Bytes) returns (sum: nat, end: End)
      requires Remembers(buf)
      modifies this
      ensures sum == Decode(buf).consumed && end == Decode(buf).end
      ensures delivered == old(delivered) + Decode(buf).messages
      ensures Remembers(buf[sum..])
    {
      if offset == 0 {
        var found, bad := ParseBodyLen(buf);
        if !found {
          return 0, if bad then Thrown else Short;
        }
      }
      ScanInside(buf);
      sum, end := DeliverAll(buf, ScanLength);
    }
  }

  lemma ScanInside(buf: Bytes)
    ensures ScanLength(buf).Found? ==> 12 < ScanLength(buf).offset <= |buf|
  {
    ReadInside(buf);
  }

  /** What is delivered and passed over when d is still to come. */
  function Ahead(done: seq<Delivery>, sum: nat, d: Decoded): Decoded {
    Decoded(done + d.messages, sum + d.consumed, d.end)
  }

  lemma OneDelivered(scan: Bytes -> Scan, buf: Bytes, s: Scan, done: seq<Delivery>, sum: nat)
    requires scan(buf) == s && Whole(buf, s) && Frame(s) > 0
    ensures Ahead(done, sum, DecodeWith(scan, buf)) ==
      Ahead(done + [First(buf, s)], sum + Frame(s), DecodeWith(scan, buf[Frame(s)..]))
  {
    hide DecodeWith, First;
    DecodeStep(scan, buf, s);
    Regroup(done, [First(buf, s)], DecodeWith(scan, buf[Frame(s)..]).messages);
  }

  // ---------------------------------------------------------------- a parser that is fed

  lemma {:induction false} StoppedStays(scan: Bytes -> Scan, pieces: seq<Bytes>, i: nat)
    requires i <= |pieces| && !ReceiveAll(scan, pieces[..i]).end.Short?
    ensures ReceiveAll(scan, pieces) == ReceiveAll(scan, pieces[..i])
    decreases |pieces|
  {
    if i == |pieces| {
      assert pieces[..i] == pieces;
    } else {
      var before := pieces[..|pieces| - 1];
      assert before[..i] == pieces[..i];
      StoppedStays(scan, before, i);
    }
  }

  /** The caller's side: what is left over is presented again with the next piece. Whatever the pieces, the messages
      are those of the whole stream. */
  method PresentAll(p: FixParser, pieces: seq<Bytes>) returns (pending: Bytes, end: End)
    requires p.offset == 0
    modifies p
    ensures var d := Decode(Joined(pieces));
      && p.delivered == old(p.delivered) + d.messages && end == d.end
      && (end.Short? ==> pending == Joined(pieces)[d.consumed..] && p.Remembers(pending))
  {
    hide DecodeWith, ReadLength;
    pending, end := [], Short;
    ghost var s := ReceiveAll(ScanLength, []);
    var i := 0;
    while i < |pieces| && end.Short?
      invariant i <= |pieces| && s == ReceiveAll(ScanLength, pieces[..i])
      invariant s.end == end && p.delivered == old(p.delivered) + s.delivered
      invariant end.Short? ==> pending == s.pending && p.Remembers(pending)
    {
      assert pieces[..i + 1][..i] == pieces[..i];
      s := Receive(ScanLength, s, pieces[i]);
      p.RemembersMore(pending, pieces[i]);
      pending := pending + pieces[i];
      var sum;
      sum, end := p.Parse(pending);
      pending := pending[sum..];
      i := i + 1;
    }
    if i < |pieces| {
      StoppedStays(ScanLength, pieces, i);
    } else {
      assert pieces[..i] == pieces;
    }
    CutsDoNotMatter(pieces);
  }

  /** Committed messages, presented in any pieces, come out of the parser as they went into the stream. */
  method PresentMessages(p: FixParser, pieces: seq<Bytes>, ghost ms: seq<Message>) returns (pending: Bytes, end: End)
    requires p.offset == 0
    requires AllOneDigit(ms) && forall i :: 0 <= i < |ms| ==> |ms[i].body| < 10000 < Pow10(16)
    requires Joined(pieces) == FrameAll(ms)
    modifies p
    ensures end == Short && pending == [] && p.delivered == old(p.delivered) + AllDelivered(ms)
  {
    RoundTrip(ms, pieces);
    CutsDoNotMatter(pieces);
    pending, end := PresentAll(p, pieces);
  }
}
