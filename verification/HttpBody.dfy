/** What follows the headers of a message, byte by byte: chunks, a body of known length, or a body up to the end. */
module HttpBodies {
  import opened Basics
  import opened HttpDigits
  import opened HttpLengths

  const MAX_HEADER_SIZE: int := 80 * 1024

  const CR: char := '\r'
  const LF: char := '\n'

  datatype Fault = Overflow | Strict | InvalidChunkSize | InvalidContentLength | UnexpectedContentLength
                 | ClosedConnection | InvalidEofState

  /** `Beyond` is where a next message or a trailer field starts. */
  datatype State =
    HeadersAlmostDone | ChunkSizeStart | ChunkSize | ChunkParameters | ChunkSizeAlmostDone | HeaderFieldStart
  | ChunkData | ChunkDataAlmostDone | ChunkDataDone | BodyIdentity | BodyIdentityEof
  | StartReq | Dead | Beyond | Failed(fault: Fault)

  /** Callbacks, with the body one byte at a time. */
  datatype Event = HeadersComplete | ChunkHeader(size: nat) | BodyByte(c: char) | ChunkComplete | MessageComplete

  datatype Machine = Machine(
    state: State,
    length: nat,              // content_length
    nread: nat,
    chunked: bool,
    hasLength: bool,
    trailing: bool,
    keepAlive: bool,          // what the Connection headers and the version say
    toEof: bool)              // whether a message with no length ends at the end of input

  predicate CountsHeader(s: State) {
    match s
    case HeadersAlmostDone | ChunkSizeStart | ChunkSize | ChunkParameters => true
    case ChunkSizeAlmostDone | HeaderFieldStart => true
    case StartReq | Dead => true
    case _ => false
  }

  function NewMessage(m: Machine): State {
    if m.keepAlive then StartReq else Dead
  }

  /** Which way the body goes, once the headers are read. */
  function HeadersDone(m: Machine): (Machine, seq<Event>) {
    var z := m.(nread := 0);
    if m.chunked then (z.(state := ChunkSizeStart), [HeadersComplete])
    else if m.length == 0 then (z.(state := NewMessage(m)), [HeadersComplete, MessageComplete])
    else if m.length != ULLONG_MAX then (z.(state := BodyIdentity), [HeadersComplete])
    else if !m.toEof then (z.(state := NewMessage(m)), [HeadersComplete, MessageComplete])
    else (z.(state := BodyIdentityEof), [HeadersComplete])
  }

  function AlmostDone(m: Machine, ch: char): (Machine, seq<Event>) {
    if ch != LF then (m.(state := Failed(Strict)), [])
    else if m.trailing then (m.(state := NewMessage(m)), [ChunkComplete, MessageComplete])
    else if m.chunked && m.hasLength then (m.(state := Failed(UnexpectedContentLength)), [])
    else HeadersDone(m)
  }

  function SizeDigit(m: Machine, ch: char): Machine {
    if ch == CR then m.(state := ChunkSizeAlmostDone)
    else match Unhex(ch)
      case None =>
        if ch == ';' || ch == ' ' then m.(state := ChunkParameters) else m.(state := Failed(InvalidChunkSize))
      case Some(d) =>
        match OneMore(m.length, 16, d)
        case None => m.(state := Failed(InvalidContentLength))
        case Some(v) => m.(length := v)
  }

  function SizeLineEnd(m: Machine, ch: char): (Machine, seq<Event>) {
    if ch != LF then (m.(state := Failed(Strict)), [])
    else if m.length == 0 then (m.(nread := 0, trailing := true, state := HeaderFieldStart), [ChunkHeader(0)])
    else (m.(nread := 0, state := ChunkData), [ChunkHeader(m.length)])
  }

  /** One byte of body, of which `length` are still to come. */
  function DataByte(m: Machine, ch: char): (Machine, seq<Event>) {
    var n := if m.length > 0 then m.length - 1 else 0;
    if n > 0 then (m.(length := n), [BodyByte(ch)])
    else if m.state.ChunkData? then (m.(length := 0, state := ChunkDataAlmostDone), [BodyByte(ch)])
    else (m.(length := 0, state := NewMessage(m)), [BodyByte(ch), MessageComplete])
  }

  function Control(m: Machine, ch: char): (Machine, seq<Event>) {
    match m.state
    case HeadersAlmostDone => AlmostDone(m, ch)
    case ChunkSizeStart =>
      (match Unhex(ch)
       case None => (m.(state := Failed(InvalidChunkSize)), [])
       case Some(d) => (m.(length := d, state := ChunkSize), []))
    case ChunkSize => (SizeDigit(m, ch), [])
    case ChunkParameters => (if ch == CR then m.(state := ChunkSizeAlmostDone) else m, [])
    case ChunkSizeAlmostDone => SizeLineEnd(m, ch)
    case HeaderFieldStart =>
      if ch == CR then (m.(state := HeadersAlmostDone), [])
      else if ch == LF then AlmostDone(m, ch)
      else (m.(state := Beyond), [])
    case ChunkDataAlmostDone => (m.(state := if ch == CR then ChunkDataDone else Failed(Strict)), [])
    case ChunkDataDone =>
      if ch == LF then (m.(nread := 0, state := ChunkSizeStart), [ChunkComplete]) else (m.(state := Failed(Strict)), [])
    case StartReq => (if ch == CR || ch == LF then m else m.(state := Beyond), [])
    case Dead => (if ch == CR || ch == LF then m else m.(state := Failed(ClosedConnection)), [])
    case _ => (m, [])
  }

  /** One byte. */
  function Step(m: Machine, ch: char): (Machine, seq<Event>) {
    match m.state
    case ChunkData | BodyIdentity => DataByte(m, ch)
    case BodyIdentityEof => (m, [BodyByte(ch)])
    case Beyond | Failed(_) => (m, [])
    case _ =>
      if !CountsHeader(m.state) then Control(m, ch)
      else if m.nread + 1 > MAX_HEADER_SIZE then (m.(nread := m.nread + 1, state := Failed(Overflow)), [])
      else Control(m.(nread := m.nread + 1), ch)
  }

  /** A machine and what it has reported. */
  datatype Run = Run(machine: Machine, events: seq<Event>)

  function Next(r: Run, ch: char): Run {
    var (m, es) := Step(r.machine, ch);
    Run(m, r.events + es)
  }

  function Bytes(r: Run, text: string): Run {
    if text == [] then r else Next(Bytes(r, text[..|text| - 1]), text[|text| - 1])
  }

  lemma {:induction false} BytesInTwo(r: Run, a: string, b: string)
    ensures Bytes(r, a + b) == Bytes(Bytes(r, a), b)
    decreases |b|
  {
    if b == [] {
      assert a + b == a;
    } else {
      assert (a + b)[..|a + b| - 1] == a + b[..|b| - 1];
      BytesInTwo(r, a, b[..|b| - 1]);
    }
  }

  function BodyBytes(s: string): seq<Event> {
    seq(|s|, i requires 0 <= i < |s| => BodyByte(s[i]))
  }

  lemma BodyBytesMore(s: string, ch: char)
    ensures BodyBytes(s + [ch]) == BodyBytes(s) + [BodyByte(ch)]
  {
  }

  lemma StuckNext(r: Run, ch: char)
    requires r.machine.state.Failed? || r.machine.state.Beyond?
    ensures Next(r, ch) == r
  {
    assert Step(r.machine, ch) == (r.machine, []);
    assert r.events + [] == r.events;
  }

  /** A failed parser stays as it is, and so does one that has reached the end of this model. */
  lemma {:induction false} Stuck(r: Run, s: string)
    requires r.machine.state.Failed? || r.machine.state.Beyond?
    ensures Bytes(r, s) == r
    decreases |s|
  {
    if s != [] {
      Stuck(r, s[..|s| - 1]);
      StuckNext(r, s[|s| - 1]);
    }
  }

  lemma OneByte(r: Run, s: string, ch: char)
    ensures Bytes(r, s + [ch]) == Next(Bytes(r, s), ch)
  {
    assert (s + [ch])[..|s|] == s;
  }

  lemma EofNext(r: Run, ch: char)
    requires r.machine.state.BodyIdentityEof?
    ensures Next(r, ch) == Run(r.machine, r.events + [BodyByte(ch)])
  {
  }

  /** A body that ends with the input. */
  lemma {:induction false} EofData(r: Run, s: string)
    requires r.machine.state.BodyIdentityEof?
    ensures Bytes(r, s) == Run(r.machine, r.events + BodyBytes(s))
    decreases |s|
  {
    hide Next, Step;
    if s == [] {
      assert BodyBytes(s) == [];
    } else {
      var before, ch := s[..|s| - 1], s[|s| - 1];
      EofData(r, before);
      EofMore(r, before, ch);
      assert s == before + [ch];
    }
  }

  lemma EofMore(r: Run, s: string, ch: char)
    requires r.machine.state.BodyIdentityEof? && Bytes(r, s) == Run(r.machine, r.events + BodyBytes(s))
    ensures Bytes(r, s + [ch]) == Run(r.machine, r.events + BodyBytes(s + [ch]))
  {
    OneByte(r, s, ch);
    EofNext(Run(r.machine, r.events + BodyBytes(s)), ch);
    BodyBytesMore(s, ch);
    Regroup(r.events, BodyBytes(s), [BodyByte(ch)]);
  }

  // ---------------------------------------------------------------- bodies of known length

  predicate ReadsData(s: State) {
    s.ChunkData? || s.BodyIdentity?
  }

  /** Part of the data still due. */
  lemma {:induction false} SomeData(r: Run, s: string)
    requires ReadsData(r.machine.state) && |s| < r.machine.length
    ensures Bytes(r, s) == Run(r.machine.(length := r.machine.length - |s|), r.events + BodyBytes(s))
    decreases |s|
  {
    if s == [] {
      assert BodyBytes(s) == [];
    } else {
      SomeData(r, s[..|s| - 1]);
      assert BodyBytes(s) == BodyBytes(s[..|s| - 1]) + [BodyByte(s[|s| - 1])];
    }
  }

  lemma LastByte(r: Run, ch: char)
    requires ReadsData(r.machine.state) && r.machine.length == 1
    ensures Next(r, ch) ==
      if r.machine.state.ChunkData?
      then Run(r.machine.(length := 0, state := ChunkDataAlmostDone), r.events + [BodyByte(ch)])
      else Run(r.machine.(length := 0, state := NewMessage(r.machine)), r.events + [BodyByte(ch), MessageComplete])
  {
  }

  /** All of the data still due. */
  lemma {:induction false} AllData(r: Run, s: string)
    requires ReadsData(r.machine.state) && |s| == r.machine.length > 0
    ensures Bytes(r, s) ==
      if r.machine.state.ChunkData?
      then Run(r.machine.(length := 0, state := ChunkDataAlmostDone), r.events + BodyBytes(s))
      else Run(r.machine.(length := 0, state := NewMessage(r.machine)), r.events + BodyBytes(s) + [MessageComplete])
  {
    hide Bytes, Next, Step;
    var n := |s| - 1;
    assert s == s[..n] + [s[n]];
    SomeData(r, s[..n]);
    OneByte(r, s[..n], s[n]);
    LastByte(Bytes(r, s[..n]), s[n]);
    BodyBytesMore(s[..n], s[n]);
    assert r.events + BodyBytes(s[..n]) + [BodyByte(s[n]), MessageComplete]
      == r.events + BodyBytes(s) + [MessageComplete];
    assert r.events + BodyBytes(s[..n]) + [BodyByte(s[n])] == r.events + BodyBytes(s);
  }

  /** A message as its headers leave it: the blank line's last byte is still to come. */
  function Ready(chunked: bool, length: nat, keepAlive: bool, toEof: bool, nread: nat): Machine {
    Machine(HeadersAlmostDone, length, nread, chunked, length != ULLONG_MAX, false, keepAlive, toEof)
  }

  /** A body with a Content-Length of N is delivered as exactly N bytes, and then the message is complete. */
  lemma {:induction false} ContentLengthBody(body: string, keepAlive: bool, toEof: bool, nread: nat)
    requires nread < MAX_HEADER_SIZE && 0 < |body| < ULLONG_MAX
    ensures var m := Ready(false, |body|, keepAlive, toEof, nread);
      var r := Bytes(Run(m, []), [LF] + body);
      && r.events == [HeadersComplete] + BodyBytes(body) + [MessageComplete]
      && r.machine.state == (if keepAlive then StartReq else Dead)
  {
    var m := Ready(false, |body|, keepAlive, toEof, nread);
    BytesInTwo(Run(m, []), [LF], body);
    assert [LF][..0] == [];
    assert Bytes(Run(m, []), []) == Run(m, []);
    var r := Bytes(Run(m, []), [LF]);
    assert r == Next(Run(m, []), LF);
    assert r.events == [HeadersComplete];
    AllData(r, body);
  }

  /** A message that has no body: its length is zero, or nothing tells its length and it does not go on to the end of
      the input. It is complete with its headers. */
  lemma NoBody(r: Run)
    requires var m := r.machine;
      && m.state == HeadersAlmostDone && !m.chunked && !m.trailing && m.nread < MAX_HEADER_SIZE
      && (m.length == 0 || (m.length == ULLONG_MAX && !m.toEof))
    ensures Bytes(r, [LF]) ==
      Run(r.machine.(state := if r.machine.keepAlive then StartReq else Dead, nread := 0),
          r.events + [HeadersComplete, MessageComplete])
  {
    OneByte(r, [], LF);
    assert [] + [LF] == [LF];
  }

  /** A message whose length nothing tells and that goes on to the end of the input: all that follows is body. */
  lemma {:induction false} BodyToTheEnd(r: Run, body: string)
    requires var m := r.machine;
      && m.state == HeadersAlmostDone && !m.chunked && !m.trailing && m.nread < MAX_HEADER_SIZE
      && m.length == ULLONG_MAX && m.toEof
    ensures Bytes(r, [LF] + body) ==
      Run(r.machine.(state := BodyIdentityEof, nread := 0), r.events + [HeadersComplete] + BodyBytes(body))
  {
    var r1 := Run(r.machine.(state := BodyIdentityEof, nread := 0), r.events + [HeadersComplete]);
    OneByte(r, [], LF);
    assert [] + [LF] == [LF];
    EofData(r1, body);
    BytesInTwo(r, [LF], body);
  }

  /** A message that says both that it is chunked and how long it is. */
  lemma ChunkedWithLength(r: Run)
    requires var m := r.machine;
      m.state == HeadersAlmostDone && m.chunked && m.hasLength && !m.trailing && m.nread < MAX_HEADER_SIZE
    ensures Bytes(r, [LF]).machine.state == Failed(UnexpectedContentLength) && Bytes(r, [LF]).events == r.events
  {
    OneByte(r, [], LF);
    assert [] + [LF] == [LF];
  }

  /** Where a line must end, or a size must begin, nothing else will do; and behind the last message on a connection
      only line ends are put up with. */
  lemma FramingIsStrict(m: Machine, ch: char)
    requires m.nread < 81920
    ensures m.state == HeadersAlmostDone && ch != LF ==> Step(m, ch).0.state == Failed(Strict)
    ensures m.state == ChunkSizeStart ==>
      Step(m, ch).0.state == if IsHex(ch) || High(ch) then ChunkSize else Failed(InvalidChunkSize)
    ensures m.state == ChunkSize && !IsHex(ch) && !High(ch) ==>
      Step(m, ch).0.state == if ch == '\r' then ChunkSizeAlmostDone else if ch == ';' || ch == ' ' then ChunkParameters
                             else Failed(InvalidChunkSize)
    ensures m.state == ChunkSizeAlmostDone ==>
      Step(m, ch).0.state ==
        if ch != '\n' then Failed(Strict) else if m.length == 0 then HeaderFieldStart else ChunkData
    ensures m.state == ChunkDataAlmostDone ==>
      Step(m, ch).0.state == if ch == '\r' then ChunkDataDone else Failed(Strict)
    ensures m.state == ChunkDataDone ==> Step(m, ch).0.state == if ch == '\n' then ChunkSizeStart else Failed(Strict)
    ensures m.state == Dead ==>
      Step(m, ch).0.state == if ch == '\r' || ch == '\n' then Dead else Failed(ClosedConnection)
    ensures m.state == StartReq ==> Step(m, ch).0.state == if ch == '\r' || ch == '\n' then StartReq else Beyond
  {
  }

  predicate InHeader(s: State) {
    s in {HeadersAlmostDone, ChunkSizeStart, ChunkSize, ChunkParameters, ChunkSizeAlmostDone, HeaderFieldStart,
          StartReq, Dead}
  }

  /** Bytes outside bodies are counted, and the 81921st in a row fails, whatever it is. */
  lemma HeadersAreBounded(m: Machine, ch: char)
    requires m.nread >= 81920
    ensures InHeader(m.state) ==> Step(m, ch) == (m.(nread := m.nread + 1, state := Failed(Overflow)), [])
    ensures !InHeader(m.state) && m.state != Failed(Overflow) ==> Step(m, ch).0.state != Failed(Overflow)
    ensures !InHeader(m.state) ==>
      Step(m, ch).0.nread == if m.state == ChunkDataDone && ch == '\n' then 0 else m.nread
  {
  }

  /** No byte before that does. */
  lemma HeadersAreCounted(m: Machine, ch: char)
    requires InHeader(m.state) && m.nread < 81920
    ensures Step(m, ch).0.state != Failed(Overflow)
    ensures m.state in {ChunkSizeStart, ChunkSize, ChunkParameters, StartReq, Dead} ==>
      Step(m, ch).0.nread == m.nread + 1
  {
    hide AlmostDone, SizeDigit, SizeLineEnd, Unhex;
    var z := m.(nread := m.nread + 1);
    BlankLineNeverOverflows(z, ch);
    SizeNeverOverflows(z, ch);
    SizeEndNeverOverflows(z, ch);
  }

  lemma BlankLineNeverOverflows(m: Machine, ch: char)
    requires m.state != Failed(Overflow)
    ensures AlmostDone(m, ch).0.state != Failed(Overflow)
  {
  }

  lemma SizeNeverOverflows(m: Machine, ch: char)
    requires m.state != Failed(Overflow)
    ensures SizeDigit(m, ch).state != Failed(Overflow) && SizeDigit(m, ch).nread == m.nread
  {
    hide Unhex, OneMore;
  }

  lemma SizeEndNeverOverflows(m: Machine, ch: char)
    requires m.state != Failed(Overflow)
    ensures SizeLineEnd(m, ch).0.state != Failed(Overflow)
  {
  }

  /** Behind the headers, the size line of a chunk and the end of its data the count begins anew. */
  lemma CountBeginsAnew(m: Machine)
    requires m.nread < 81920
    requires m.state == HeadersAlmostDone ==> !m.trailing && !(m.chunked && m.hasLength)
    ensures m.state in {HeadersAlmostDone, ChunkSizeAlmostDone, ChunkDataDone} ==> Step(m, '\n').0.nread == 0
  {
  }

  /** The trailer of a chunked message: only an empty one is read here, to its end; a field is beyond. */
  lemma TrailerIsEmpty(m: Machine, ch: char)
    requires m.nread < 81920 && m.state == HeaderFieldStart && m.trailing
    ensures Step(m, ch) ==
      var z := m.(nread := m.nread + 1);
      if ch == '\r' then (z.(state := HeadersAlmostDone), [])
      else if ch == '\n' then (z.(state := if m.keepAlive then StartReq else Dead), [ChunkComplete, MessageComplete])
      else (z.(state := Beyond), [])
  {
  }

  // ---------------------------------------------------------------- chunked bodies

  /** A chunk: a size in digits, extensions after a semicolon or a space, and the data. */
  datatype Chunk = Chunk(size: string, extensions: string, data: string)

  predicate ExtensionsOk(e: string) {
    e == [] || ((e[0] == ';' || e[0] == ' ') && CR !in e)
  }

  predicate SizeLineOk(size: string, extensions: string) {
    && size != [] && InTable(size) && TableValue(size) <= U64 - 17 && ExtensionsOk(extensions)
    && |size| + |extensions| + 2 <= MAX_HEADER_SIZE
  }

  predicate ChunkOk(c: Chunk) {
    SizeLineOk(c.size, c.extensions) && TableValue(c.size) == |c.data| > 0
  }

  function SizeLine(size: string, extensions: string): string {
    size + extensions + [CR, LF]
  }

  function EncodeChunk(c: Chunk): string {
    SizeLine(c.size, c.extensions) + (c.data + [CR, LF])
  }

  function EncodeChunks(cs: seq<Chunk>): string {
    if cs == [] then [] else EncodeChunk(cs[0]) + EncodeChunks(cs[1..])
  }

  function ChunkEvents(c: Chunk): seq<Event> {
    [ChunkHeader(|c.data|)] + BodyBytes(c.data) + [ChunkComplete]
  }

  function ChunksEvents(cs: seq<Chunk>): seq<Event> {
    if cs == [] then [] else ChunkEvents(cs[0]) + ChunksEvents(cs[1..])
  }

  lemma {:induction false} TablePrefixSmaller(s: string)
    requires InTable(s) && s != []
    ensures TableValue(s[..|s| - 1]) <= TableValue(s)
    ensures TableValue(s) == TableValue(s[..|s| - 1]) * 16 + Unhex(s[|s| - 1]).value
  {
  }

  predicate AtSize(m: Machine) {
    m.state == ChunkSizeStart && m.nread == 0
  }

  predicate Plain(s: string) {
    forall i :: 0 <= i < |s| ==> s[i] != ';' && s[i] != ' ' && s[i] != CR
  }

  /** One more byte that is neither a line end nor the start of extensions. */
  lemma PlainNext(r: Run, ch: char)
    requires r.machine.state == ChunkSize && ch != ';' && ch != ' ' && ch != CR
    ensures var m := r.machine;
      var over := m.nread + 1 > MAX_HEADER_SIZE || Unhex(ch).None? || m.length * 16 + Unhex(ch).value > U64 - 17;
      if over then Next(r, ch).machine.state.Failed?
      else Next(r, ch) == Run(m.(nread := m.nread + 1, length := m.length * 16 + Unhex(ch).value), r.events)
  {
    GreatestValues();
    if Unhex(ch).Some? { OneMoreExact(r.machine.length, 16, Unhex(ch).value); }
  }

  lemma PlainFirst(r: Run, ch: char)
    requires AtSize(r.machine)
    ensures if Unhex(ch).None? then Next(r, ch).machine.state.Failed?
            else Next(r, ch) == Run(r.machine.(state := ChunkSize, nread := 1, length := Unhex(ch).value), r.events)
  {
  }

  /** Bytes before the extensions: all of them digits of a value that fits, or the parser fails. */
  lemma {:induction false} PlainRead(r: Run, s: string)
    requires AtSize(r.machine) && s != [] && Plain(s)
    ensures if InTable(s) && TableValue(s) <= U64 - 17 && |s| <= MAX_HEADER_SIZE
            then Bytes(r, s) == Run(r.machine.(state := ChunkSize, length := TableValue(s), nread := |s|), r.events)
            else Bytes(r, s).machine.state.Failed?
    decreases |s|
  {
    var before, ch := s[..|s| - 1], s[|s| - 1];
    hide Next, Unhex;
    assert InTable(s) <==> InTable(before) && Unhex(ch).Some?;
    if InTable(s) { TablePrefixSmaller(s); }
    if before == [] {
      assert Bytes(r, before) == r;
      PlainFirst(r, ch);
    } else {
      PlainRead(r, before);
      if Bytes(r, before).machine.state.Failed? {
        StuckNext(Bytes(r, before), ch);
      } else {
        PlainNext(Bytes(r, before), ch);
      }
    }
  }

  lemma TableIsPlain(s: string)
    requires InTable(s)
    ensures Plain(s)
  {
  }

  /** The extensions of a size line. */
  lemma {:induction false} Extensions(r: Run, e: string)
    requires r.machine.state == ChunkSize && ExtensionsOk(e) && r.machine.nread + |e| <= MAX_HEADER_SIZE
    ensures Bytes(r, e) == Run(r.machine.(state := if e == [] then ChunkSize else ChunkParameters,
                                          nread := r.machine.nread + |e|), r.events)
    decreases |e|
  {
    if e != [] {
      var before := e[..|e| - 1];
      assert before == [] || before[0] == e[0];
      Extensions(r, before);
    }
  }

  lemma Compose(r: Run, a: string, r1: Run, b: string, r2: Run)
    requires Bytes(r, a) == r1 && Bytes(r1, b) == r2
    ensures Bytes(r, a + b) == r2
  {
    BytesInTwo(r, a, b);
  }

  /** Two bytes. */
  lemma TwoBytes(r: Run, a: char, b: char)
    ensures Bytes(r, [a, b]) == Next(Next(r, a), b)
  {
    OneByte(r, [], a);
    OneByte(r, [a], b);
    assert [] + [a] == [a] && [a] + [b] == [a, b];
  }

  /** A size line is over. */
  function AfterSizeLine(r: Run, v: nat): Run {
    if v == 0 then Run(r.machine.(state := HeaderFieldStart, length := 0, nread := 0, trailing := true),
                       r.events + [ChunkHeader(0)])
    else Run(r.machine.(state := ChunkData, length := v, nread := 0), r.events + [ChunkHeader(v)])
  }

  lemma SizeEnds(r: Run)
    requires (r.machine.state == ChunkSize || r.machine.state == ChunkParameters) && r.machine.nread < MAX_HEADER_SIZE
    ensures Next(r, CR) == Run(r.machine.(state := ChunkSizeAlmostDone, nread := r.machine.nread + 1), r.events)
  {
  }

  lemma SizeLineFeed(r: Run)
    requires r.machine.state == ChunkSizeAlmostDone && r.machine.nread < MAX_HEADER_SIZE
    ensures Next(r, LF) == AfterSizeLine(r, r.machine.length)
  {
  }

  lemma SizeLineEnds(r: Run)
    requires r.machine.state == ChunkSize || r.machine.state == ChunkParameters
    requires r.machine.nread + 2 <= MAX_HEADER_SIZE
    ensures Bytes(r, [CR, LF]) == AfterSizeLine(r, r.machine.length)
  {
    TwoBytes(r, CR, LF);
    SizeEnds(r);
    SizeLineFeed(Next(r, CR));
  }

  /** A whole size line. */
  lemma {:induction false} SizeLineRead(r: Run, size: string, e: string)
    requires AtSize(r.machine) && SizeLineOk(size, e)
    ensures Bytes(r, SizeLine(size, e)) == AfterSizeLine(r, TableValue(size))
  {
    hide Bytes, Next, TableValue, InTable, Plain, ExtensionsOk;
    var v := TableValue(size);
    TableIsPlain(size);
    PlainRead(r, size);
    var r1 := Run(r.machine.(state := ChunkSize, length := v, nread := |size|), r.events);
    Extensions(r1, e);
    var s2 := if e == [] then ChunkSize else ChunkParameters;
    var r2 := Run(r1.machine.(state := s2, nread := |size| + |e|), r.events);
    SizeLineEnds(r2);
    Compose(r1, e, r2, [CR, LF], AfterSizeLine(r2, v));
    Compose(r, size, r1, e + [CR, LF], AfterSizeLine(r2, v));
    Regroup(size, e, [CR, LF]);
  }

  // ---------------------------------------------------------------- any size line

  /** What stands before the extensions of a size line. */
  function SizePart(t: string): (s: string)
    ensures s <= t
  {
    if t == [] || t[0] == ';' || t[0] == ' ' then [] else [t[0]] + SizePart(t[1..])
  }

  lemma {:induction false} SizePartEnds(t: string)
    ensures var s := SizePart(t);
      && (forall i :: 0 <= i < |s| ==> s[i] != ';' && s[i] != ' ')
      && (|s| < |t| ==> t[|s|] == ';' || t[|s|] == ' ')
    decreases |t|
  {
    if t != [] && t[0] != ';' && t[0] != ' ' { SizePartEnds(t[1..]); }
  }

  /** The size lines that are accepted, without their line end. */
  predicate LineAccepted(t: string) {
    var s := SizePart(t);
    s != [] && InTable(s) && TableValue(s) <= U64 - 17 && |t| + 2 <= MAX_HEADER_SIZE
  }

  /** Extensions that are too long. */
  lemma {:induction false} ExtensionsFail(r: Run, e: string)
    requires r.machine.state == ChunkSize && ExtensionsOk(e)
    requires r.machine.nread <= MAX_HEADER_SIZE < r.machine.nread + |e|
    ensures Bytes(r, e).machine.state.Failed?
    decreases |e|
  {
    var before, ch := e[..|e| - 1], e[|e| - 1];
    assert before == [] || before[0] == e[0];
    if r.machine.nread + |before| <= MAX_HEADER_SIZE {
      Extensions(r, before);
    } else {
      ExtensionsFail(r, before);
      StuckNext(Bytes(r, before), ch);
    }
  }

  /** A line end that no longer fits. */
  lemma {:induction false} LineEndFails(r: Run)
    requires r.machine.state == ChunkSize || r.machine.state == ChunkParameters
    requires r.machine.nread <= MAX_HEADER_SIZE < r.machine.nread + 2
    ensures Bytes(r, [CR, LF]).machine.state.Failed?
  {
    TwoBytes(r, CR, LF);
    if r.machine.nread < MAX_HEADER_SIZE { SizeEnds(r); } else { StuckNext(Next(r, CR), LF); }
  }

  lemma {:induction false} LineTooLong(r: Run, e: string)
    requires r.machine.state == ChunkSize && ExtensionsOk(e)
    requires r.machine.nread <= MAX_HEADER_SIZE < r.machine.nread + |e| + 2
    ensures Bytes(r, e + [CR, LF]).machine.state.Failed?
  {
    hide Step, Next;
    BytesInTwo(r, e, [CR, LF]);
    if r.machine.nread + |e| <= MAX_HEADER_SIZE {
      Extensions(r, e);
      LineEndFails(Bytes(r, e));
    } else {
      ExtensionsFail(r, e);
      Stuck(Bytes(r, e), [CR, LF]);
    }
  }

  /** A line without a size. */
  lemma {:induction false} NoSize(r: Run, e: string)
    requires AtSize(r.machine) && ExtensionsOk(e)
    ensures Bytes(r, e + [CR, LF]).machine.state.Failed?
  {
    var t := e + [CR, LF];
    PlainFirst(r, t[0]);
    OneByte(r, [], t[0]);
    BytesInTwo(r, [t[0]], t[1..]);
    assert [] + [t[0]] == [t[0]] && t == [t[0]] + t[1..];
    Stuck(Next(r, t[0]), t[1..]);
  }

  /** The size lines, and what becomes of them: the line is accepted, with the size that the table makes of it, or the
      parser fails. */
  lemma {:induction false} SizeLineExact(r: Run, t: string)
    requires AtSize(r.machine) && CR !in t
    ensures var z := Bytes(r, t + [CR, LF]);
      if LineAccepted(t) then z == AfterSizeLine(r, TableValue(SizePart(t))) else z.machine.state.Failed?
  {
    hide Bytes, Next, AfterSizeLine, TableValue, InTable, SizePart;
    var s, e := SizePart(t), t[|SizePart(t)|..];
    SizePartEnds(t);
    assert t == s + e && ExtensionsOk(e) && Plain(s);
    Regroup(s, e, [CR, LF]);
    if LineAccepted(t) {
      SizeLineRead(r, s, e);
    } else if s == [] {
      assert t == e;
      NoSize(r, e);
    } else {
      PlainRead(r, s);
      BytesInTwo(r, s, e + [CR, LF]);
      var m := Bytes(r, s);
      if m.machine.state.Failed? { Stuck(m, e + [CR, LF]); } else { LineTooLong(m, e); }
    }
  }

  /** An accepted size line has the length that stands there in hexadecimal exactly when no byte of its size is outside
      ASCII. */
  lemma {:induction false} LengthIsHexadecimal(t: string)
    requires LineAccepted(t)
    ensures HexNumber(SizePart(t)) == Some(TableValue(SizePart(t))) <==> !AnyHigh(SizePart(t))
  {
    TableExact(SizePart(t));
  }

  const HIGH: char := 0x80 as char

  lemma HighTexts()
    ensures LineAccepted([HIGH]) && SizePart([HIGH]) == [HIGH] && TableValue([HIGH]) == 0
    ensures LineAccepted(['1', HIGH]) && SizePart(['1', HIGH]) == ['1', HIGH] && TableValue(['1', HIGH]) == 16
    ensures HexNumber([HIGH]) == None && HexNumber(['1', HIGH]) == None
  {
    var a, b: string := [HIGH], ['1', HIGH];
    assert a[..0] == [] && b[..1] == ['1'] && b[..1][..0] == [];
    assert b[1..] == a && a[1..] == [];
    assert SizePart(a) == a && SizePart(b) == b;
    assert TableValue(a) == 0 && TableValue(b[..1]) == 1;
    assert !IsHex(a[0]) && !IsHex(b[1]);
  }

  /** Two size lines with a byte that is no digit: the first one ends the body, the second one starts a chunk of 16
      bytes. */
  lemma {:induction false} HighByteLines(r: Run)
    requires AtSize(r.machine)
    ensures Bytes(r, [HIGH, CR, LF]) == AfterSizeLine(r, 0) && HexNumber([HIGH]) == None
    ensures Bytes(r, ['1', HIGH, CR, LF]) == AfterSizeLine(r, 16) && HexNumber(['1', HIGH]) == None
  {
    hide Bytes, AfterSizeLine, LineAccepted, SizePart, TableValue, HexNumber;
    var a, b: string := [HIGH], ['1', HIGH];
    HighTexts();
    SizeLineExact(r, a);
    SizeLineExact(r, b);
    assert a + [CR, LF] == [HIGH, CR, LF] && b + [CR, LF] == ['1', HIGH, CR, LF];
  }

  // ---------------------------------------------------------------- whole chunks

  /** The line end behind the data of a chunk. */
  lemma DataEnds(r: Run)
    requires r.machine.state == ChunkDataAlmostDone
    ensures Bytes(r, [CR, LF]) == Run(r.machine.(state := ChunkSizeStart, nread := 0), r.events + [ChunkComplete])
  {
    TwoBytes(r, CR, LF);
  }

  /** The reports of a chunk, one by one. */
  lemma ChunkEventsAre(c: Chunk)
    ensures var es := ChunkEvents(c);
      && |es| == |c.data| + 2 && es[0] == ChunkHeader(|c.data|) && es[|c.data| + 1] == ChunkComplete
      && forall i :: 0 <= i < |c.data| ==> es[i + 1] == BodyByte(c.data[i])
  {
  }

  lemma JoinEvents(es: seq<Event>, c: Chunk)
    ensures es + [ChunkHeader(|c.data|)] + BodyBytes(c.data) + [ChunkComplete] == es + ChunkEvents(c)
  {
  }

  /** A whole chunk. */
  lemma {:induction false} ChunkRead(r: Run, c: Chunk)
    requires AtSize(r.machine) && ChunkOk(c)
    ensures Bytes(r, EncodeChunk(c)) == Run(r.machine.(length := 0), r.events + ChunkEvents(c))
  {
    SizeLineRead(r, c.size, c.extensions);
    var r1 := AfterSizeLine(r, |c.data|);
    AllData(r1, c.data);
    var r2 := Run(r1.machine.(length := 0, state := ChunkDataAlmostDone), r1.events + BodyBytes(c.data));
    DataEnds(r2);
    var r3 := Run(r2.machine.(state := ChunkSizeStart, nread := 0), r2.events + [ChunkComplete]);
    Compose(r1, c.data, r2, [CR, LF], r3);
    Compose(r, SizeLine(c.size, c.extensions), r1, c.data + [CR, LF], r3);
    JoinEvents(r.events, c);
  }

  /** The machine before the size line of another chunk. */
  function AnotherSize(m: Machine, cs: seq<Chunk>): Machine {
    if cs == [] then m else m.(length := 0)
  }

  lemma {:induction false} ChunksRead(r: Run, cs: seq<Chunk>)
    requires AtSize(r.machine) && forall i :: 0 <= i < |cs| ==> ChunkOk(cs[i])
    ensures Bytes(r, EncodeChunks(cs)) == Run(AnotherSize(r.machine, cs), r.events + ChunksEvents(cs))
    decreases |cs|
  {
    if cs == [] {
      assert r.events + [] == r.events;
    } else {
      var r1 := Run(r.machine.(length := 0), r.events + ChunkEvents(cs[0]));
      ChunkRead(r, cs[0]);
      ChunksRead(r1, cs[1..]);
      Compose(r, EncodeChunk(cs[0]), r1, EncodeChunks(cs[1..]),
              Run(AnotherSize(r1.machine, cs[1..]), r1.events + ChunksEvents(cs[1..])));
      Regroup(r.events, ChunkEvents(cs[0]), ChunksEvents(cs[1..]));
    }
  }

  /** A chunked body: chunks, a last chunk of size zero, no trailer fields. */
  function ChunkedBody(cs: seq<Chunk>, size: string, e: string): string {
    EncodeChunks(cs) + (SizeLine(size, e) + [CR, LF])
  }

  predicate ChunkedOk(cs: seq<Chunk>, size: string, e: string) {
    (forall i :: 0 <= i < |cs| ==> ChunkOk(cs[i])) && SizeLineOk(size, e) && TableValue(size) == 0
  }

  /** The last chunk, and the blank line. */
  lemma {:induction false} LastChunkRead(r: Run, size: string, e: string)
    requires AtSize(r.machine) && SizeLineOk(size, e) && TableValue(size) == 0
    ensures var z := Bytes(r, SizeLine(size, e) + [CR, LF]);
      && z.machine.state == NewMessage(r.machine)
      && z.events == r.events + [ChunkHeader(0), ChunkComplete, MessageComplete]
  {
    hide Bytes, InTable, TableValue, Unhex;
    SizeLineRead(r, size, e);
    var r1 := AfterSizeLine(r, 0);
    TwoBytes(r1, CR, LF);
    BytesInTwo(r, SizeLine(size, e), [CR, LF]);
    assert r.events + [ChunkHeader(0)] + [ChunkComplete, MessageComplete]
      == r.events + [ChunkHeader(0), ChunkComplete, MessageComplete];
  }

  /** The blank line behind the headers of a chunked message. */
  lemma ChunkedStarts(m: Machine)
    requires m.state == HeadersAlmostDone && m.chunked && !m.hasLength && !m.trailing && m.nread < MAX_HEADER_SIZE
    ensures Bytes(Run(m, []), [LF]) == Run(m.(state := ChunkSizeStart, nread := 0), [HeadersComplete])
  {
    OneByte(Run(m, []), [], LF);
    assert [] + [LF] == [LF];
  }

  lemma {:induction false} ChunkedRun(m: Machine, cs: seq<Chunk>, size: string, e: string)
    requires m.state == HeadersAlmostDone && m.chunked && !m.hasLength && !m.trailing && m.nread < MAX_HEADER_SIZE
    requires ChunkedOk(cs, size, e)
    ensures var z := Bytes(Run(m, []), [LF] + ChunkedBody(cs, size, e));
      && z.events == [HeadersComplete] + ChunksEvents(cs) + [ChunkHeader(0), ChunkComplete, MessageComplete]
      && z.machine.state == (if m.keepAlive then StartReq else Dead)
  {
    var r := Run(m, []);
    var r1 := Run(m.(state := ChunkSizeStart, nread := 0), [HeadersComplete]);
    var r2 := Run(AnotherSize(r1.machine, cs), r1.events + ChunksEvents(cs));
    ChunkedStarts(m);
    ChunksRead(r1, cs);
    LastChunkRead(r2, size, e);
    BytesInTwo(r1, EncodeChunks(cs), SizeLine(size, e) + [CR, LF]);
    BytesInTwo(r, [LF], ChunkedBody(cs, size, e));
  }

  /** All the data of the chunks, one after another. */
  function AllDataOf(cs: seq<Chunk>): string {
    if cs == [] then [] else cs[0].data + AllDataOf(cs[1..])
  }

  function BodyOf(es: seq<Event>): string {
    if es == [] then []
    else BodyOf(es[..|es| - 1]) + if es[|es| - 1].BodyByte? then [es[|es| - 1].c] else []
  }

  lemma {:induction false} BodyOfBoth(a: seq<Event>, b: seq<Event>)
    ensures BodyOf(a + b) == BodyOf(a) + BodyOf(b)
    decreases |b|
  {
    if b == [] {
      assert a + b == a;
    } else {
      assert (a + b)[..|a + b| - 1] == a + b[..|b| - 1];
      BodyOfBoth(a, b[..|b| - 1]);
    }
  }

  lemma {:induction false} BodyOfBytes(s: string)
    ensures BodyOf(BodyBytes(s)) == s
    decreases |s|
  {
    if s != [] {
      assert BodyBytes(s)[..|s| - 1] == BodyBytes(s[..|s| - 1]);
      BodyOfBytes(s[..|s| - 1]);
    }
  }

  lemma NotBody(e: Event)
    requires !e.BodyByte?
    ensures BodyOf([e]) == []
  {
    assert [e][..0] == [];
  }

  lemma BodyOfChunk(c: Chunk)
    ensures BodyOf(ChunkEvents(c)) == c.data
  {
    BodyOfBoth([ChunkHeader(|c.data|)] + BodyBytes(c.data), [ChunkComplete]);
    BodyOfBoth([ChunkHeader(|c.data|)], BodyBytes(c.data));
    BodyOfBytes(c.data);
    NotBody(ChunkHeader(|c.data|));
    NotBody(ChunkComplete);
  }

  /** The body that is reported for chunks is their data. */
  lemma {:induction false} BodyOfChunks(cs: seq<Chunk>)
    ensures BodyOf(ChunksEvents(cs)) == AllDataOf(cs)
    decreases |cs|
  {
    if cs != [] {
      BodyOfBoth(ChunkEvents(cs[0]), ChunksEvents(cs[1..]));
      BodyOfChunk(cs[0]);
      BodyOfChunks(cs[1..]);
    }
  }
}
