/** The parser's loop over a buffer, which reads bodies in bulk and reports them in spans. */
module HttpParsing {
  import opened Basics
  import opened HttpLengths
  import opened HttpBodies

  datatype Callback = OnHeadersComplete | OnChunkHeader(size: nat) | OnBody(span: string) | OnChunkComplete
                    | OnMessageComplete

  function Flat(c: Callback): seq<Event> {
    match c
    case OnHeadersComplete => [HeadersComplete]
    case OnChunkHeader(n) => [ChunkHeader(n)]
    case OnBody(span) => BodyBytes(span)
    case OnChunkComplete => [ChunkComplete]
    case OnMessageComplete => [MessageComplete]
  }

  /** Callbacks, with spans taken apart. */
  function Flattened(cs: seq<Callback>): seq<Event> {
    if cs == [] then [] else Flattened(cs[..|cs| - 1]) + Flat(cs[|cs| - 1])
  }

  lemma OneCallback(cs: seq<Callback>, c: Callback)
    ensures Flattened(cs + [c]) == Flattened(cs) + Flat(c)
  {
    assert (cs + [c])[..|cs|] == cs;
  }

  /** The spans of body that were reported, one after another. */
  function Spans(cs: seq<Callback>): string {
    if cs == [] then []
    else Spans(cs[..|cs| - 1]) + if cs[|cs| - 1].OnBody? then cs[|cs| - 1].span else []
  }

  /** The body is the spans put together. */
  lemma {:induction false} SpansAreBody(cs: seq<Callback>)
    ensures BodyOf(Flattened(cs)) == Spans(cs)
    decreases |cs|
  {
    if cs != [] {
      var c := cs[|cs| - 1];
      SpansAreBody(cs[..|cs| - 1]);
      BodyOfBoth(Flattened(cs[..|cs| - 1]), Flat(c));
      match c
      case OnBody(span) => BodyOfBytes(span);
      case OnHeadersComplete => NotBody(HeadersComplete);
      case OnChunkHeader(n) => NotBody(ChunkHeader(n));
      case OnChunkComplete => NotBody(ChunkComplete);
      case OnMessageComplete => NotBody(MessageComplete);
    }
  }

  predicate InChunks(s: State) {
    match s
    case ChunkSizeStart | ChunkSize | ChunkParameters | ChunkSizeAlmostDone | ChunkData | ChunkDataAlmostDone
       | ChunkDataDone | HeaderFieldStart => true
    case _ => false
  }

  /** What the code asserts in its states, apart from the count of header bytes. */
  predicate LengthSound(m: Machine) {
    && m.length <= ULLONG_MAX
    && (InChunks(m.state) ==> m.chunked)
    && (m.state.ChunkSize? || m.state.ChunkParameters? || m.state.ChunkSizeAlmostDone? ==> m.length <= U64 - 17)
    && (ReadsData(m.state) ==> 0 < m.length < ULLONG_MAX)
    && (m.state.ChunkDataAlmostDone? ==> m.length == 0)
  }

  /** What the code asserts in its states. */
  predicate Sound(m: Machine) {
    LengthSound(m) && (m.state.ChunkSizeStart? ==> m.nread == 0)
  }

  lemma AlmostDoneIsSound(m: Machine, ch: char)
    requires LengthSound(m)
    ensures Sound(AlmostDone(m, ch).0)
  {
  }

  lemma SizeDigitIsSound(m: Machine, ch: char)
    requires LengthSound(m) && m.state.ChunkSize?
    ensures Sound(SizeDigit(m, ch))
  {
    GreatestValues();
    match Unhex(ch) {
      case None =>
      case Some(d) => OneMoreExact(m.length, 16, d);
    }
  }

  lemma ControlIsSound(m: Machine, ch: char)
    requires LengthSound(m) && !ReadsData(m.state) && !m.state.BodyIdentityEof? && (CountsHeader(m.state) || Sound(m))
    requires !m.state.Beyond? && !m.state.Failed?
    ensures Sound(Control(m, ch).0)
  {
    hide Unhex, SizeDigit, AlmostDone;
    if m.state.HeadersAlmostDone? || m.state.HeaderFieldStart? {
      AlmostDoneIsSound(m, ch);
    } else if m.state.ChunkSize? {
      SizeDigitIsSound(m, ch);
    }
  }

  /** No byte leads to a state in which an assertion fails. */
  lemma {:induction false} StepIsSound(m: Machine, ch: char)
    requires Sound(m)
    ensures Sound(Step(m, ch).0)
  {
    hide Step, Control;
    var counted := m.(nread := m.nread + 1);
    StepIs(m, ch);
    if !ReadsData(m.state) && !m.state.BodyIdentityEof? && !m.state.Beyond? && !m.state.Failed? {
      ControlIsSound(if CountsHeader(m.state) then counted else m, ch);
    }
  }

  /** The four kinds of step. */
  lemma StepIs(m: Machine, ch: char)
    ensures var counted := m.(nread := m.nread + 1);
      Step(m, ch).0 ==
        if ReadsData(m.state) then DataByte(m, ch).0
        else if m.state.BodyIdentityEof? || m.state.Beyond? || m.state.Failed? then m
        else if !CountsHeader(m.state) then Control(m, ch).0
        else if m.nread + 1 > MAX_HEADER_SIZE then counted.(state := Failed(Overflow))
        else Control(counted, ch).0
  {
    hide Control, DataByte;
  }

  lemma {:induction false} BytesAreSound(r: Run, s: string)
    requires Sound(r.machine)
    ensures Sound(Bytes(r, s).machine)
    decreases |s|
  {
    if s != [] {
      BytesAreSound(r, s[..|s| - 1]);
      StepIsSound(Bytes(r, s[..|s| - 1]).machine, s[|s| - 1]);
    }
  }

  /** A byte that is not body is counted, and then dealt with. */
  function HeaderOutcome(r: Run, ch: char): Run {
    var m := r.machine;
    var counted := if CountsHeader(m.state) then m.(nread := m.nread + 1) else m;
    if CountsHeader(m.state) && m.nread + 1 > MAX_HEADER_SIZE then Run(counted.(state := Failed(Overflow)), r.events)
    else Run(Control(counted, ch).0, r.events + Control(counted, ch).1)
  }

  lemma HeaderNext(r: Run, ch: char)
    requires !ReadsData(r.machine.state) && !r.machine.state.BodyIdentityEof?
    ensures Next(r, ch) == HeaderOutcome(r, ch)
  {
    hide SizeDigit, AlmostDone, SizeLineEnd, Unhex, DataByte;
    assert r.events + [] == r.events;
  }

  /** What reading data in bulk comes to. */
  function DataOutcome(r: Run, s: string): Run {
    var m := r.machine;
    if |s| < m.length then Run(m.(length := m.length - |s|), r.events + BodyBytes(s))
    else if m.state.ChunkData? then Run(m.(length := 0, state := ChunkDataAlmostDone), r.events + BodyBytes(s))
    else Run(m.(length := 0, state := NewMessage(m)), r.events + BodyBytes(s) + [MessageComplete])
  }

  lemma DataTaken(r: Run, s: string)
    requires ReadsData(r.machine.state) && 0 < |s| <= r.machine.length
    ensures Bytes(r, s) == DataOutcome(r, s)
  {
    if |s| < r.machine.length { SomeData(r, s); } else { AllData(r, s); }
  }

  class HttpParser {
    var state: State
    var length: nat
    var nread: nat
    const chunked: bool
    const hasLength: bool
    var trailing: bool
    const keepAlive: bool
    const toEof: bool
    var calls: seq<Callback>

    function AsMachine(): Machine
      reads this
    {
      Machine(state, length, nread, chunked, hasLength, trailing, keepAlive, toEof)
    }

    ghost function AsRun(): Run
      reads this
    {
      Run(AsMachine(), Flattened(calls))
    }

    constructor (chunked: bool, length: nat, hasLength: bool, keepAlive: bool, toEof: bool, nread: nat)
      requires length <= ULLONG_MAX
      ensures AsMachine() == Machine(HeadersAlmostDone, length, nread, chunked, hasLength, false, keepAlive, toEof)
      ensures calls == [] && Sound(AsMachine())
    {
      state, this.length, this.nread, trailing, calls := HeadersAlmostDone, length, nread, false, [];
      this.chunked, this.hasLength, this.keepAlive, this.toEof := chunked, hasLength, keepAlive, toEof;
    }

    method Call(c: Callback)
      modifies this`calls
      ensures calls == old(calls) + [c] && Flattened(calls) == Flattened(old(calls)) + Flat(c)
    {
      OneCallback(calls, c);
      calls := calls + [c];
    }

    method StartNewMessage()
      modifies this`state
      ensures state == NewMessage(AsMachine())
    {
      state := if keepAlive then StartReq else Dead;
    }

    method MessageDone()
      modifies this`state, this`calls
      ensures var m := old(AsMachine());
        AsRun() == Run(m.(state := NewMessage(m)), old(AsRun()).events + [MessageComplete])
    {
      StartNewMessage();
      Call(OnMessageComplete);
    }

    method FinishHeaders()
      modifies this
      ensures var (m, es) := HeadersDone(old(AsMachine())); AsRun() == Run(m, old(AsRun()).events + es)
    {
      Call(OnHeadersComplete);
      nread := 0;
      if chunked {
        state := ChunkSizeStart;
      } else if length == 0 {
        MessageDone();
      } else if length != ULLONG_MAX {
        state := BodyIdentity;
      } else if !toEof {
        MessageDone();
      } else {
        state := BodyIdentityEof;
      }
    }

    method BlankLineEnd(ch: char)
      modifies this
      ensures var (m, es) := AlmostDone(old(AsMachine()), ch); AsRun() == Run(m, old(AsRun()).events + es)
    {
      if ch != LF {
        state := Failed(Strict);
      } else if trailing {
        Call(OnChunkComplete);
        MessageDone();
      } else if chunked && hasLength {
        state := Failed(UnexpectedContentLength);
      } else {
        FinishHeaders();
      }
    }

    method SizeByte(ch: char)
      modifies this`state, this`length
      ensures AsMachine() == SizeDigit(old(AsMachine()), ch)
    {
      if ch == CR {
        state := ChunkSizeAlmostDone;
        return;
      }
      var d := Unhex(ch);
      if d.None? {
        state := if ch == ';' || ch == ' ' then ChunkParameters else Failed(InvalidChunkSize);
        return;
      }
      var t := TimesPlus(length, 16, d.value);
      if (ULLONG_MAX - 16) / 16 < length {
        state := Failed(InvalidContentLength);
        return;
      }
      length := t;
    }

    method SizeLineFeed(ch: char)
      modifies this
      ensures var (m, es) := SizeLineEnd(old(AsMachine()), ch); AsRun() == Run(m, old(AsRun()).events + es)
    {
      if ch != LF {
        state := Failed(Strict);
        return;
      }
      nread := 0;
      if length == 0 {
        trailing := true;
        state := HeaderFieldStart;
      } else {
        state := ChunkData;
      }
      Call(OnChunkHeader(length));
    }

    /** A byte that is not body. */
    method ControlByte(ch: char)
      requires !ReadsData(state) && !state.BodyIdentityEof?
      modifies this
      ensures var (m, es) := Control(old(AsMachine()), ch); AsRun() == Run(m, old(AsRun()).events + es)
    {
      hide SizeDigit, SizeLineEnd, Flattened, Unhex;
      match state {
        case HeadersAlmostDone =>
          BlankLineEnd(ch);
        case ChunkSizeStart =>
          var d := Unhex(ch);
          if d.None? { state := Failed(InvalidChunkSize); } else { length, state := d.value, ChunkSize; }
        case ChunkSize =>
          SizeByte(ch);
        case ChunkParameters =>
          if ch == CR { state := ChunkSizeAlmostDone; }
        case ChunkSizeAlmostDone =>
          SizeLineFeed(ch);
        case HeaderFieldStart =>
          if ch == CR { state := HeadersAlmostDone; }
          else if ch == LF { state := HeadersAlmostDone; BlankLineEnd(ch); }
          else { state := Beyond; }
        case ChunkDataAlmostDone =>
          state := if ch == CR then ChunkDataDone else Failed(Strict);
        case ChunkDataDone =>
          if ch == LF { nread, state := 0, ChunkSizeStart; Call(OnChunkComplete); } else { state := Failed(Strict); }
        case StartReq =>
          if ch != CR && ch != LF { state := Beyond; }
        case Dead =>
          if ch != CR && ch != LF { state := Failed(ClosedConnection); }
        case _ =>
      }
    }

    /** Counts a byte of a header. */
    method CountByte() returns (over: bool)
      requires CountsHeader(state)
      modifies this`nread, this`state
      ensures over == (old(nread) + 1 > MAX_HEADER_SIZE)
      ensures var counted := old(AsMachine()).(nread := old(nread) + 1);
        AsMachine() == if over then counted.(state := Failed(Overflow)) else counted
    {
      nread := nread + 1;
      over := nread > MAX_HEADER_SIZE;
      if over {
        state := Failed(Overflow);
      }
    }

    /** One byte that is not body, counted if it belongs to a header. */
    method HeaderByte(ch: char)
      requires !ReadsData(state) && !state.BodyIdentityEof?
      modifies this
      ensures AsRun() == HeaderOutcome(old(AsRun()), ch)
    {
      hide Control, Flattened;
      if CountsHeader(state) {
        var over := CountByte();
        if over {
          return;
        }
      }
      ControlByte(ch);
    }

    /** Bytes of body, up to the end of the buffer or of what is due. */
    method TakeData(data: string, p: nat) returns (q: nat)
      requires p < |data| && ReadsData(state) && 0 < length
      modifies this`length, this`state
      ensures p < q <= |data| && q - p == (if old(length) <= |data| - p then old(length) else |data| - p)
      ensures length == old(length) - (q - p)
      ensures state == if old(state).ChunkData? && length == 0 then ChunkDataAlmostDone else old(state)
    {
      var toRead := if length <= |data| - p then length else |data| - p;
      length := length - toRead;
      q := p + toRead;
      if length == 0 && state.ChunkData? {
        state := ChunkDataAlmostDone;
      }
    }

    /** The report and the machine are those of `r`, but for the body bytes from the mark up to p. */
    ghost predicate Shows(r: Run, data: string, mark: int, p: nat)
      reads this
      requires p <= |data| && mark <= p
    {
      r.machine == AsMachine() && r.events == Flattened(calls) + Pending(data, mark, p)
    }

    /** Body from place p on, when its length is known. */
    method ReadDue(data: string, p: nat, ghost r: Run) returns (q: nat, mark: int)
      requires p < |data| && AsRun() == r && ReadsData(state) && 0 < length
      modifies this
      ensures p < q <= |data| && mark < q && -1 <= mark && Shows(DataOutcome(r, data[p..q]), data, mark, q)
      ensures |data[p..q]| <= r.machine.length
      ensures !state.Failed? && !state.Beyond? && (mark >= 0 ==> q == |data| || state.ChunkDataAlmostDone?)
    {
      q := TakeData(data, p);
      mark := p;
      if length == 0 && state.BodyIdentity? {
        Call(OnBody(data[mark..q]));
        mark := -1;
        MessageDone();
      }
    }

    /** Body from place p on. */
    method ReadBody(data: string, p: nat, ghost r: Run, ghost run: (Run, string) -> Run) returns (q: nat, mark: int)
      requires p < |data| && AsRun() == r && Runs(run)
      requires (ReadsData(state) && 0 < length) || state.BodyIdentityEof?
      modifies this
      ensures p < q <= |data| && mark < q && -1 <= mark && Shows(run(r, data[p..q]), data, mark, q)
      ensures !state.Failed? && !state.Beyond? && (mark >= 0 ==> q == |data| || state.ChunkDataAlmostDone?)
    {
      if state.BodyIdentityEof? {
        q, mark := |data|, p;
        EofData(r, data[p..q]);
      } else {
        q, mark := ReadDue(data, p, r);
        DataTaken(r, data[p..q]);
      }
      assert run(r, data[p..q]) == Bytes(r, data[p..q]);
    }

    /** A byte that is not body, at place p; a span of body ends there if the chunk's data does. */
    method ReadHeader(data: string, p: nat, mark: int, ghost r: Run, ghost run: (Run, string) -> Run)
      requires p < |data| && -1 <= mark < p && Shows(r, data, mark, p) && Runs(run)
      requires !ReadsData(state) && !state.BodyIdentityEof? && (mark >= 0 ==> state.ChunkDataAlmostDone?)
      modifies this
      ensures AsMachine() == run(r, data[p..p + 1]).machine
      ensures Flattened(calls) <= run(r, data[p..p + 1]).events
      ensures !state.Failed? ==> Flattened(calls) == run(r, data[p..p + 1]).events
    {
      assert run(r, data[p..p + 1]) == Bytes(r, data[p..p + 1]);
      assert data[p..p + 1] == [] + [data[p]];
      OneByte(r, [], data[p]);
      if state.ChunkDataAlmostDone? {
        EndSpan(data, p, mark, r);
      } else {
        assert AsRun() == r;
        HeaderNext(r, data[p]);
        HeaderByte(data[p]);
      }
    }

    /** The byte behind the data of a chunk. */
    method EndSpan(data: string, p: nat, mark: int, ghost r: Run)
      requires p < |data| && -1 <= mark < p && Shows(r, data, mark, p) && state.ChunkDataAlmostDone?
      modifies this
      ensures AsMachine() == Next(r, data[p]).machine
      ensures Flattened(calls) <= Next(r, data[p]).events
      ensures !state.Failed? ==> Flattened(calls) == Next(r, data[p]).events
    {
      LineEndNext(r, data[p]);
      if data[p] == CR {
        state := ChunkDataDone;
        if mark >= 0 {
          Call(OnBody(data[mark..p]));
        }
      } else {
        state := Failed(Strict);
      }
    }

    /** What the loop does at place p, before it goes on at place q. */
    method Advance(data: string, p: nat, mark: int, ghost r0: Run, ghost run: (Run, string) -> Run)
      returns (q: nat, newMark: int)
      requires p < |data| && -1 <= mark < p && Runs(run) && !state.Failed? && !state.Beyond?
      requires Shows(run(r0, data[..p]), data, mark, p) && Sound(run(r0, data[..p]).machine)
      requires mark >= 0 ==> state.ChunkDataAlmostDone?
      modifies this
      ensures p < q <= |data| && -1 <= newMark < q
      ensures AsMachine() == run(r0, data[..q]).machine && Sound(run(r0, data[..q]).machine)
      ensures !state.Failed? ==> Shows(run(r0, data[..q]), data, newMark, q)
      ensures newMark >= 0 ==> !state.Beyond? && (q == |data| || state.ChunkDataAlmostDone?)
      ensures state.Failed? ==> FailsAt(run, r0, data, p) && Reported(run(r0, data))
    {
      hide Flattened, BodyBytes, Bytes;
      ghost var r := run(r0, data[..p]);
      if ReadsData(state) || state.BodyIdentityEof? {
        q, newMark := ReadBody(data, p, r, run);
      } else {
        ReadHeader(data, p, mark, r, run);
        q, newMark := p + 1, -1;
      }
      Onward(run, r0, data, p, q);
      if state.Failed? { FailedAt(run, r0, data, p); }
    }

    /** The machine is that of `r`, and everything reported is in its report. */
    ghost predicate Reported(r: Run)
      reads this
    {
      AsMachine() == r.machine && Flattened(calls) <= r.events
    }

    method Finish(data: string, p: nat, mark: int, ghost r: Run)
      requires p <= |data| && -1 <= mark && (mark >= 0 ==> mark < p) && Shows(r, data, mark, p)
      modifies this`calls
      ensures AsRun() == r
    {
      if mark >= 0 {
        Call(OnBody(data[mark..p]));
      }
    }

    /** The bytes of a buffer. Spans of body are reported when they end or the buffer does. */
    method ReadBytes(data: string, ghost run: (Run, string) -> Run) returns (n: nat)
      requires data != [] && Sound(AsMachine()) && !state.Failed? && Runs(run)
      modifies this
      ensures Sound(AsMachine())
      ensures !state.Failed? ==> AsRun() == run(old(AsRun()), data) && (n == |data| || state.Beyond?)
      ensures state.Failed? ==>
        (n < |data| && FailsAt(run, old(AsRun()), data, n) && Reported(run(old(AsRun()), data)))
    {
      var p, mark := 0, -1;
      ghost var r0 := AsRun();
      RunNothing(run, r0, data);
      while p < |data| && !state.Beyond?
        invariant p <= |data| && -1 <= mark && (mark >= 0 ==> mark < p)
        invariant Shows(run(r0, data[..p]), data, mark, p) && Sound(run(r0, data[..p]).machine) && !state.Failed?
        invariant mark >= 0 ==> !state.Beyond? && (p == |data| || state.ChunkDataAlmostDone?)
      {
        var q;
        q, mark := Advance(data, p, mark, r0, run);
        if state.Failed? {
          return p;
        }
        p := q;
      }
      Finish(data, p, mark, run(r0, data[..p]));
      Rest(run, r0, data, p);
      n := p;
    }

    /** One call. An empty buffer says that the input has ended. */
    method Execute(data: string) returns (n: nat)
      requires Sound(AsMachine())
      modifies this
      ensures Sound(AsMachine())
      ensures old(state).Failed? ==> n == 0 && AsRun() == old(AsRun())
      ensures data == [] && !old(state).Failed? ==>
        AsRun() == match old(state)
          case BodyIdentityEof => Run(old(AsMachine()), old(AsRun()).events + [MessageComplete])
          case StartReq | Dead | Beyond => old(AsRun())
          case _ => Run(old(AsMachine()).(state := Failed(InvalidEofState)), old(AsRun()).events)
      ensures data != [] && !old(state).Failed? && !state.Failed? ==>
        AsRun() == Bytes(old(AsRun()), data) && (n == |data| || state.Beyond?)
      ensures data != [] && !old(state).Failed? && state.Failed? ==>
        (n < |data| && FailsAt(Bytes, old(AsRun()), data, n) && Reported(Bytes(old(AsRun()), data)))
    {
      if state.Failed? {
        return 0;
      }
      if data == [] {
        if state.BodyIdentityEof? {
          Call(OnMessageComplete);
          return 0;
        }
        if state.StartReq? || state.Dead? || state.Beyond? {
          return 0;
        }
        state := Failed(InvalidEofState);
        return 1;
      }
      n := ReadBytes(data, Bytes);
    }
  }

  /** `run` is what the bytes of a text do. */
  ghost predicate Runs(run: (Run, string) -> Run) {
    forall r, s {:trigger Bytes(r, s)} :: run(r, s) == Bytes(r, s)
  }

  lemma RunNothing(run: (Run, string) -> Run, r: Run, data: string)
    requires Runs(run)
    ensures run(r, data[..0]) == r
  {
    assert Bytes(r, data[..0]) == r;
  }

  /** The byte behind the data of a chunk must be a carriage return. */
  lemma LineEndNext(r: Run, ch: char)
    requires r.machine.state.ChunkDataAlmostDone?
    ensures Next(r, ch) == Run(r.machine.(state := if ch == CR then ChunkDataDone else Failed(Strict)), r.events)
  {
  }

  /** The byte at place n is the first at which the machine fails. */
  ghost predicate FailsAt(run: (Run, string) -> Run, r: Run, data: string, n: nat)
    requires n < |data|
  {
    !run(r, data[..n]).machine.state.Failed? && run(r, data[..n + 1]).machine.state.Failed?
  }

  lemma Onward(run: (Run, string) -> Run, r: Run, data: string, p: nat, q: nat)
    requires p <= q <= |data| && Runs(run)
    ensures run(r, data[..q]) == run(run(r, data[..p]), data[p..q])
    ensures Sound(run(r, data[..p]).machine) ==> Sound(run(r, data[..q]).machine)
  {
    RunInTwo(run, r, data[..p], data[p..q]);
    assert data[..p] + data[p..q] == data[..q];
  }

  lemma RunInTwo(run: (Run, string) -> Run, r: Run, a: string, b: string)
    requires Runs(run)
    ensures run(r, a + b) == run(run(r, a), b)
    ensures Sound(run(r, a).machine) ==> Sound(run(r, a + b).machine)
  {
    var ra := Bytes(r, a);
    BytesInTwo(r, a, b);
    assert run(r, a) == ra && run(ra, b) == Bytes(ra, b) && run(r, a + b) == Bytes(r, a + b);
    if Sound(ra.machine) { BytesAreSound(ra, b); }
  }

  lemma FailedAt(run: (Run, string) -> Run, r: Run, data: string, p: nat)
    requires p < |data| && Runs(run) && run(r, data[..p + 1]).machine.state.Failed?
    ensures run(r, data) == run(r, data[..p + 1])
  {
    Rest(run, r, data, p + 1);
  }

  lemma Rest(run: (Run, string) -> Run, r: Run, data: string, p: nat)
    requires p <= |data| && Runs(run)
    requires var s := run(r, data[..p]).machine.state; p == |data| || s.Beyond? || s.Failed?
    ensures run(r, data) == run(r, data[..p])
  {
    assert data[..|data|] == data;
    assert run(r, data[..p]) == Bytes(r, data[..p]) && run(r, data) == Bytes(r, data);
    if p < |data| {
      Onward(run, r, data, p, |data|);
      Stuck(Bytes(r, data[..p]), data[p..]);
    }
  }

  /** Body bytes that were read but not reported yet. */
  function Pending(data: string, mark: int, p: nat): seq<Event>
    requires p <= |data| && mark <= p
  {
    if mark < 0 then [] else BodyBytes(data[mark..p])
  }

  // ---------------------------------------------------------------- one buffer after another

  /** The bytes of several buffers, none of them empty: the parser is where the machine is after all of them, wherever
      the cuts are; on failure it has reported nothing that the machine does not. */
  method ExecuteAll(p: HttpParser, pieces: seq<string>)
    requires Sound(p.AsMachine()) && !p.state.Failed? && forall i :: 0 <= i < |pieces| ==> pieces[i] != []
    modifies p
    ensures Sound(p.AsMachine())
    ensures p.state == Bytes(old(p.AsRun()), Joined(pieces)).machine.state
    ensures !p.state.Failed? ==> p.AsRun() == Bytes(old(p.AsRun()), Joined(pieces))
    ensures p.state.Failed? ==> p.Reported(Bytes(old(p.AsRun()), Joined(pieces)))
  {
    hide Bytes, Sound, FailsAt;
    ghost var r0 := p.AsRun();
    assert Joined(pieces[..0]) == [];
    NoBytes(r0);
    for i := 0 to |pieces|
      invariant Sound(p.AsMachine())
      invariant !p.state.Failed? ==> p.AsRun() == Bytes(r0, Joined(pieces[..i]))
      invariant p.state.Failed? ==> p.Reported(Bytes(r0, Joined(pieces[..i])))
    {
      ghost var all := Joined(pieces[..i]);
      assert pieces[..i + 1][..i] == pieces[..i];
      BytesInTwo(r0, all, pieces[i]);
      if p.state.Failed? { Stuck(Bytes(r0, all), pieces[i]); }
      var n := p.Execute(pieces[i]);
    }
    assert pieces[..|pieces|] == pieces;
  }

  lemma NoBytes(r: Run)
    ensures Bytes(r, []) == r
  {
  }

  /** A well-formed chunked body behind the headers, in any buffers: the chunks are reported one by one, and the spans
      are their data put together. */
  method ExecuteChunked(p: HttpParser, pieces: seq<string>, ghost cs: seq<Chunk>, ghost size: string, ghost e: string)
    requires p.state == HeadersAlmostDone && p.chunked && !p.hasLength && !p.trailing && p.calls == []
    requires p.nread < MAX_HEADER_SIZE && p.length <= ULLONG_MAX
    requires ChunkedOk(cs, size, e) && Joined(pieces) == [LF] + ChunkedBody(cs, size, e)
    requires forall i :: 0 <= i < |pieces| ==> pieces[i] != []
    modifies p
    ensures p.state == if p.keepAlive then StartReq else Dead
    ensures Flattened(p.calls) ==
      [HeadersComplete] + ChunksEvents(cs) + [ChunkHeader(0), ChunkComplete, MessageComplete]
    ensures Spans(p.calls) == AllDataOf(cs)
  {
    hide Bytes, ChunkedOk, ChunkedBody;
    ghost var m := p.AsMachine();
    ChunkedRun(m, cs, size, e);
    ExecuteAll(p, pieces);
    SpansAreBody(p.calls);
    BodyOfMessage(cs);
  }

  lemma BodyOfMessage(cs: seq<Chunk>)
    ensures BodyOf([HeadersComplete] + ChunksEvents(cs) + [ChunkHeader(0), ChunkComplete, MessageComplete])
      == AllDataOf(cs)
  {
    var last := [ChunkHeader(0), ChunkComplete, MessageComplete];
    BodyOfBoth([HeadersComplete] + ChunksEvents(cs), last);
    BodyOfBoth([HeadersComplete], ChunksEvents(cs));
    BodyOfChunks(cs);
    NotBody(HeadersComplete);
    BodyOfBoth([ChunkHeader(0), ChunkComplete], [MessageComplete]);
    BodyOfBoth([ChunkHeader(0)], [ChunkComplete]);
    NotBody(ChunkHeader(0));
    NotBody(ChunkComplete);
    NotBody(MessageComplete);
    assert last == [ChunkHeader(0), ChunkComplete] + [MessageComplete];
    assert [ChunkHeader(0), ChunkComplete] == [ChunkHeader(0)] + [ChunkComplete];
  }

  /** A body with a Content-Length behind the headers, in any buffers. */
  method ExecuteLength(p: HttpParser, pieces: seq<string>, ghost body: string)
    requires p.state == HeadersAlmostDone && !p.chunked && !p.trailing && p.calls == [] && p.nread < MAX_HEADER_SIZE
    requires 0 < p.length == |body| < ULLONG_MAX && p.hasLength && Joined(pieces) == [LF] + body
    requires forall i :: 0 <= i < |pieces| ==> pieces[i] != []
    modifies p
    ensures p.state == if p.keepAlive then StartReq else Dead
    ensures Flattened(p.calls) == [HeadersComplete] + BodyBytes(body) + [MessageComplete]
    ensures Spans(p.calls) == body
  {
    hide Bytes, BodyBytes;
    ContentLengthBody(body, p.keepAlive, p.toEof, p.nread);
    ExecuteAll(p, pieces);
    SpansAreBody(p.calls);
    BodyOfWhole(body);
  }

  lemma BodyOfWhole(body: string)
    ensures BodyOf([HeadersComplete] + BodyBytes(body) + [MessageComplete]) == body
  {
    BodyOfBoth([HeadersComplete] + BodyBytes(body), [MessageComplete]);
    BodyOfBoth([HeadersComplete], BodyBytes(body));
    BodyOfBytes(body);
    NotBody(HeadersComplete);
    NotBody(MessageComplete);
  }

  /** A message without a body, up to the last byte of its headers: it is complete there. */
  method ExecuteNoBody(p: HttpParser) returns (n: nat)
    requires p.state == HeadersAlmostDone && !p.chunked && !p.trailing && p.nread < MAX_HEADER_SIZE
    requires p.length == 0 || (p.length == ULLONG_MAX && !p.toEof)
    modifies p
    ensures p.state == if p.keepAlive then StartReq else Dead
    ensures Flattened(p.calls) == Flattened(old(p.calls)) + [HeadersComplete, MessageComplete] && n == 1
  {
    hide Bytes, Flattened;
    NoBody(p.AsRun());
    n := p.Execute([LF]);
  }

  /** A message that lasts to the end of the input, in any buffers and then an empty one. */
  method ExecuteToEof(p: HttpParser, pieces: seq<string>, ghost body: string)
    requires p.state == HeadersAlmostDone && !p.chunked && !p.trailing && p.calls == [] && p.nread < MAX_HEADER_SIZE
    requires p.length == ULLONG_MAX && p.toEof && Joined(pieces) == [LF] + body
    requires forall i :: 0 <= i < |pieces| ==> pieces[i] != []
    modifies p
    ensures p.state == BodyIdentityEof
    ensures Flattened(p.calls) == [HeadersComplete] + BodyBytes(body) + [MessageComplete]
    ensures Spans(p.calls) == body
  {
    hide Bytes, BodyBytes;
    BodyToTheEnd(p.AsRun(), body);
    ExecuteAll(p, pieces);
    var n := p.Execute([]);
    SpansAreBody(p.calls);
    BodyOfWhole(body);
  }

  /** A message that says both that it is chunked and how long it is is refused. */
  method ExecuteConflict(p: HttpParser) returns (n: nat)
    requires p.state == HeadersAlmostDone && p.chunked && p.hasLength && !p.trailing && p.nread < MAX_HEADER_SIZE
    requires p.length <= ULLONG_MAX
    modifies p
    ensures p.state == Failed(UnexpectedContentLength) && n == 0
  {
    hide Bytes, Flattened;
    ChunkedWithLength(p.AsRun());
    n := p.Execute([LF]);
  }
}
