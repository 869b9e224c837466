/** Putting a URL together from its parts, and finding the parts again. */
module HttpUrlParts {
  import opened Basics
  import opened HttpDigits
  import opened HttpUrls

  /** A host by name, or an address in brackets with a zone behind it, if that is not empty. */
  datatype HostPart = Named(name: string) | Bracketed(addr: string, zone: string)

  /** The port may be missing (empty); so may the user, or just the name in front of the at sign. */
  datatype ServerPart = ServerPart(user: Option<string>, host: HostPart, port: string)

  datatype Front = Nothing | Absolute(schema: string, server: ServerPart) | Authority(server: ServerPart)

  /** A question mark may stand without a query, and hashes may stand without a fragment or be repeated. */
  datatype Parts = Parts(front: Front, path: string, query: Option<string>, hashes: nat, fragment: string)

  predicate QueryChar(c: char) { IsUrl(c) || c == '?' }

  predicate FragmentChar(c: char) { IsUrl(c) || c == '?' || c == '#' }

  predicate AddressChar(c: char) { IsHex(c) || c == ':' || c == '.' }

  predicate HostOk(h: HostPart) {
    match h
    case Named(name) => name != [] && forall i :: 0 <= i < |name| ==> IsHost(name[i])
    case Bracketed(addr, zone) =>
      && addr != [] && (forall i :: 0 <= i < |addr| ==> AddressChar(addr[i]))
      && forall i :: 0 <= i < |zone| ==> IsZone(zone[i])
  }

  predicate ServerOk(s: ServerPart) {
    && (s.user.Some? ==> forall i :: 0 <= i < |s.user.value| ==> IsUserInfo(s.user.value[i]))
    && HostOk(s.host) && forall i :: 0 <= i < |s.port| ==> IsNum(s.port[i])
  }

  predicate FrontOk(f: Front) {
    match f
    case Nothing => true
    case Absolute(schema, server) =>
      schema != [] && (forall i :: 0 <= i < |schema| ==> IsAlpha(schema[i])) && ServerOk(server)
    case Authority(server) => ServerOk(server)
  }

  predicate TailOk(u: Parts) {
    && (u.path != [] ==> u.path[0] == '/' || (u.path[0] == '*' && u.front.Nothing?))
    && (forall i :: 0 <= i < |u.path| ==> IsUrl(u.path[i]))
    && (u.query.Some? ==> forall i :: 0 <= i < |u.query.value| ==> QueryChar(u.query.value[i]))
    && (forall i :: 0 <= i < |u.fragment| ==> FragmentChar(u.fragment[i]))
    && (u.fragment != [] ==> u.fragment[0] != '#' && u.hashes > 0)
    && (u.hashes > 0 ==> u.path != [] || u.query.Some?)
    && (u.front.Nothing? && u.path == [] ==> u.query.None?)
  }

  /** A CONNECT target begins with a server part, any other URL with a schema or a path. */
  predicate PartsOk(u: Parts, connect: bool) {
    FrontOk(u.front) && TailOk(u) && if connect then u.front.Authority? else !u.front.Authority?
  }

  // ---------------------------------------------------------------- assembling

  /** A part with a mark in front, or nothing. */
  function Marked(mark: char, s: string): string {
    if s == [] then [] else [mark] + s
  }

  function UserText(s: ServerPart): string {
    if s.user.None? then [] else s.user.value + ['@']
  }

  function HostText(h: HostPart): string {
    match h
    case Named(name) => name
    case Bracketed(addr, zone) => ['['] + addr + Marked('%', zone) + [']']
  }

  function ServerText(s: ServerPart): string {
    UserText(s) + HostText(s.host) + Marked(':', s.port)
  }

  function FrontText(f: Front): string {
    match f
    case Nothing => []
    case Absolute(schema, server) => schema + "://" + ServerText(server)
    case Authority(server) => ServerText(server)
  }

  function QueryText(q: Option<string>): string {
    if q.None? then [] else ['?'] + q.value
  }

  function Hashes(n: nat): (s: string)
    ensures |s| == n
  {
    if n == 0 then [] else ['#'] + Hashes(n - 1)
  }

  function TailText(u: Parts): string {
    u.path + QueryText(u.query) + (Hashes(u.hashes) + u.fragment)
  }

  function Assembled(u: Parts): string {
    FrontText(u.front) + TailText(u)
  }

  // ---------------------------------------------------------------- where the parts are

  function With(fs: Fields, f: Field, off: nat, s: string): Fields {
    if s == [] then fs else fs[f := Span(off, |s|)]
  }

  /** Where the host stands in its text: inside the brackets, if there are any. */
  function HostSpan(h: HostPart, o: nat): Span {
    match h
    case Named(name) => Span(o, |name|)
    case Bracketed(addr, zone) => Span(o + 1, |addr| + |Marked('%', zone)|)
  }

  function ServerPlaces(fs: Fields, s: ServerPart, o: nat): Fields {
    var host := o + |UserText(s)|;
    var a := if s.user.Some? then With(fs, USERINFO, o, s.user.value) else fs;
    With(a[HOST := HostSpan(s.host, host)], PORT, host + |HostText(s.host)| + 1, s.port)
  }

  function FrontPlaces(f: Front): Fields {
    match f
    case Nothing => map[]
    case Absolute(schema, server) => ServerPlaces(With(map[], SCHEMA, 0, schema), server, |schema| + 3)
    case Authority(server) => ServerPlaces(map[], server, 0)
  }

  function TailPlaces(fs: Fields, u: Parts, o: nat): Fields {
    var q := o + |u.path|;
    var a := With(fs, PATH, o, u.path);
    var b := if u.query.Some? then With(a, QUERY, q + 1, u.query.value) else a;
    With(b, FRAGMENT, q + |QueryText(u.query)| + u.hashes, u.fragment)
  }

  /** The fields that the parts occupy. */
  function Places(u: Parts): Fields {
    TailPlaces(FrontPlaces(u.front), u, |FrontText(u.front)|)
  }

  function PortText(u: Parts): string {
    if u.front.Nothing? then [] else u.front.server.port
  }

  // ---------------------------------------------------------------- passes, stretch by stretch

  /** A pass over a stretch of text that begins at place p. */
  function Fold<A>(step: (A, nat, char) -> A, a: A, p: nat, text: string): A
    decreases |text|
  {
    if text == [] then a else step(Fold(step, a, p, text[..|text| - 1]), p + |text| - 1, text[|text| - 1])
  }

  lemma FoldLast<A>(step: (A, nat, char) -> A, a: A, p: nat, s: string, ch: char)
    ensures Fold(step, a, p, s + [ch]) == step(Fold(step, a, p, s), p + |s|, ch)
  {
    assert (s + [ch])[..|s|] == s;
    assert (s + [ch])[|s|] == ch;
  }

  lemma FoldOne<A>(step: (A, nat, char) -> A, a: A, p: nat, ch: char)
    ensures Fold(step, a, p, [ch]) == step(a, p, ch)
  {
    FoldLast(step, a, p, [], ch);
    assert [] + [ch] == [ch];
  }

  lemma {:induction false} FoldInTwo<A>(step: (A, nat, char) -> A, a: A, p: nat, x: string, y: string)
    ensures Fold(step, a, p, x + y) == Fold(step, Fold(step, a, p, x), p + |x|, y)
    decreases |y|
  {
    if y == [] {
      assert x + y == x;
    } else {
      var c, ch := y[..|y| - 1], y[|y| - 1];
      FoldInTwo(step, a, p, x, c);
      FoldLast(step, a, p, x + c, ch);
      assert x + y == x + c + [ch];
    }
  }

  function ScanFrom(z: Scan, p: nat, text: string): Scan {
    Fold(ScanStep, z, p, text)
  }

  function HostFrom(h: HostScan, p: nat, text: string): HostScan {
    Fold(HostStep, h, p, text)
  }

  lemma Compose(z: Scan, p: nat, a: string, y: Scan, b: string, w: Scan)
    requires ScanFrom(z, p, a) == y && ScanFrom(y, p + |a|, b) == w
    ensures ScanFrom(z, p, a + b) == w
  {
    FoldInTwo(ScanStep, z, p, a, b);
  }

  lemma ComposeHost(h: HostScan, p: nat, a: string, h1: HostScan, b: string, h2: HostScan)
    requires HostFrom(h, p, a) == h1 && HostFrom(h1, p + |a|, b) == h2
    ensures HostFrom(h, p, a + b) == h2
  {
    FoldInTwo(HostStep, h, p, a, b);
  }

  lemma {:induction false} ScanToIsFrom(buf: string, connect: bool, n: nat)
    requires n <= |buf|
    ensures ScanTo(buf, connect, n) == ScanFrom(ScanTo(buf, connect, 0), 0, buf[..n])
    decreases n
  {
    hide ScanStep;
    if n > 0 {
      assert buf[..n][..n - 1] == buf[..n - 1];
      ScanToIsFrom(buf, connect, n - 1);
    }
  }

  lemma {:induction false} HostToIsFrom(buf: string, from: nat, foundAt: bool, n: nat)
    requires from <= n <= |buf|
    ensures HostTo(buf, from, foundAt, n) == HostFrom(HostTo(buf, from, foundAt, from), from, buf[from..n])
    decreases n
  {
    hide HostStep;
    if from < n {
      HostToIsFrom(buf, from, foundAt, n - 1);
      FoldLast(HostStep, HostTo(buf, from, foundAt, from), from, buf[from..n - 1], buf[n - 1]);
      assert buf[from..n] == buf[from..n - 1] + [buf[n - 1]];
    }
  }

  // ---------------------------------------------------------------- states alone

  /** The states of the first pass, from the front of a text. */
  function Go(s: State, text: string): State
    decreases |text|
  {
    if text == [] then s else Go(UrlChar(s, text[0]), text[1..])
  }

  lemma {:induction false} GoInTwo(s: State, a: string, b: string)
    ensures Go(s, a + b) == Go(Go(s, a), b)
    decreases |a|
  {
    if a == [] {
      assert a + b == b;
    } else {
      assert (a + b)[1..] == a[1..] + b;
      GoInTwo(UrlChar(s, a[0]), a[1..], b);
    }
  }

  lemma GoLast(s: State, a: string, ch: char)
    ensures Go(s, a + [ch]) == UrlChar(Go(s, a), ch)
  {
    GoInTwo(s, a, [ch]);
    assert [ch][1..] == [];
  }

  lemma {:induction false} GoIsScan(z: Scan, p: nat, text: string)
    ensures ScanFrom(z, p, text).state == Go(z.state, text)
    decreases |text|
  {
    hide UrlChar;
    if text != [] {
      var before, ch := text[..|text| - 1], text[|text| - 1];
      GoIsScan(z, p, before);
      GoLast(z.state, before, ch);
      assert text == before + [ch];
    }
  }

  lemma {:induction false} DeadStays(text: string)
    ensures Go(DeadUrl, text) == DeadUrl
    decreases |text|
  {
    if text != [] {
      assert UrlChar(DeadUrl, text[0]) == DeadUrl;
      DeadStays(text[1..]);
    }
  }

  /** Text that keeps a state. */
  lemma {:induction false} GoStays(s: State, text: string)
    requires forall i :: 0 <= i < |text| ==> UrlChar(s, text[i]) == s
    ensures Go(s, text) == s
    decreases |text|
  {
    hide UrlChar;
    if text != [] {
      assert UrlChar(s, text[0]) == s;
      forall i | 0 <= i < |text[1..]| ensures UrlChar(s, text[1..][i]) == s { assert text[1..][i] == text[i + 1]; }
      GoStays(s, text[1..]);
    }
  }

  /** The states of the second pass, from the front of a text. */
  function HostGo(s: HostState, text: string): HostState
    decreases |text|
  {
    if text == [] then s else HostGo(HostChar(s, text[0]), text[1..])
  }

  lemma {:induction false} HostGoInTwo(s: HostState, a: string, b: string)
    ensures HostGo(s, a + b) == HostGo(HostGo(s, a), b)
    decreases |a|
  {
    if a == [] {
      assert a + b == b;
    } else {
      assert (a + b)[1..] == a[1..] + b;
      HostGoInTwo(HostChar(s, a[0]), a[1..], b);
    }
  }

  lemma HostGoLast(s: HostState, a: string, ch: char)
    ensures HostGo(s, a + [ch]) == HostChar(HostGo(s, a), ch)
  {
    HostGoInTwo(s, a, [ch]);
    assert [ch][1..] == [];
  }

  lemma {:induction false} HostGoIsFrom(h: HostScan, p: nat, text: string)
    ensures HostFrom(h, p, text).state == HostGo(h.state, text)
    decreases |text|
  {
    hide HostChar, HostStep;
    if text != [] {
      var before, ch := text[..|text| - 1], text[|text| - 1];
      HostGoIsFrom(h, p, before);
      HostGoLast(h.state, before, ch);
      HostStepState(HostFrom(h, p, before), p + |before|, ch);
      assert text == before + [ch];
    }
  }

  lemma {:induction false} DeadHostStays(text: string)
    ensures HostGo(DeadHost, text) == DeadHost
    decreases |text|
  {
    if text != [] {
      assert HostChar(DeadHost, text[0]) == DeadHost;
      DeadHostStays(text[1..]);
    }
  }

  // ---------------------------------------------------------------- the first pass over the parts

  /** Characters that keep the state of a field make the field longer. */
  lemma {:induction false} Lengthen(z: Scan, p: nat, text: string, f: Field)
    requires FieldOf(z.state) == Some(f) && z.last == Some(f) && f in z.fields
    requires z.state != ServerWithAt && forall i :: 0 <= i < |text| ==> UrlChar(z.state, text[i]) == z.state
    ensures ScanFrom(z, p, text) ==
      Scan(z.state, z.fields[f := Span(z.fields[f].off, z.fields[f].len + |text|)], z.last, z.foundAt)
    decreases |text|
  {
    hide UrlChar;
    if text == [] {
      assert z.fields[f := z.fields[f]] == z.fields;
    } else {
      Lengthen(z, p, text[..|text| - 1], f);
    }
  }

  /** A stretch that begins a field and then keeps its state. */
  lemma {:induction false} Begin(z: Scan, p: nat, text: string, s: State, f: Field)
    requires text != [] && FieldOf(s) == Some(f) && z.last != Some(f) && s != ServerWithAt
    requires UrlChar(z.state, text[0]) == s && forall i :: 0 <= i < |text| ==> UrlChar(s, text[i]) == s
    ensures ScanFrom(z, p, text) == Scan(s, z.fields[f := Span(p, |text|)], Some(f), z.foundAt)
  {
    hide UrlChar, FieldOf;
    FoldInTwo(ScanStep, z, p, text[..1], text[1..]);
    assert text == text[..1] + text[1..] && text[..1] == [text[0]];
    FoldOne(ScanStep, z, p, text[0]);
    Lengthen(ScanStep(z, p, text[0]), p + 1, text[1..], f);
  }

  /** A mark belongs to no field. */
  lemma Pass(z: Scan, p: nat, ch: char, s: State)
    requires UrlChar(z.state, ch) == s && FieldOf(s).None?
    ensures ScanFrom(z, p, [ch]) == z.(state := s)
  {
    FoldOne(ScanStep, z, p, ch);
  }

  function Initial(connect: bool): Scan {
    Scan(if connect then ServerStart else SpacesBeforeUrl, map[], None, false)
  }

  function AfterSchema(schema: string): Scan {
    Scan(ServerStart, map[SCHEMA := Span(0, |schema|)], Some(SCHEMA), false)
  }

  /** The schema and its delimiter. */
  lemma {:induction false} SchemaScanned(schema: string)
    requires schema != [] && forall i :: 0 <= i < |schema| ==> IsAlpha(schema[i])
    ensures ScanFrom(Initial(false), 0, schema + "://") == AfterSchema(schema)
  {
    var z0, n := Initial(false), |schema|;
    Begin(z0, 0, schema, Schema, SCHEMA);
    var z := Scan(Schema, map[SCHEMA := Span(0, n)], Some(SCHEMA), false);
    assert z0.fields[SCHEMA := Span(0, n)] == z.fields;
    Pass(z, n, ':', SchemaSlash);
    Pass(z.(state := SchemaSlash), n + 1, '/', SchemaSlashSlash);
    Pass(z.(state := SchemaSlashSlash), n + 2, '/', ServerStart);
    Compose(z0, 0, schema, z, [':'], z.(state := SchemaSlash));
    Compose(z0, 0, schema + [':'], z.(state := SchemaSlash), ['/'], z.(state := SchemaSlashSlash));
    Compose(z0, 0, schema + [':'] + ['/'], z.(state := SchemaSlashSlash), ['/'], AfterSchema(schema));
    assert schema + "://" == schema + [':'] + ['/'] + ['/'];
  }

  predicate ServerState(s: State) {
    s == Server || s == ServerWithAt
  }

  lemma ServerStep(z: Scan, p: nat, ch: char)
    requires ServerState(UrlChar(z.state, ch)) && (ServerState(z.state) || z.state == ServerStart)
    requires ServerState(z.state) ==> z.last == Some(HOST) && HOST in z.fields
    requires z.state == ServerStart ==> z.last != Some(HOST)
    ensures ScanStep(z, p, ch) ==
      Scan(UrlChar(z.state, ch),
           z.fields[HOST := if ServerState(z.state) then Longer(z.fields[HOST]) else Span(p, 1)],
           Some(HOST), z.foundAt || ch == '@')
  {
  }

  /** Behind the start of the server part. */
  predicate Late(s: State) {
    ServerState(s) || InTail(s)
  }

  predicate InTail(s: State) {
    s in {Path, QueryStart, Query, FragmentStart, Fragment, DeadUrl}
  }

  lemma LateStays(s: State, c: char)
    ensures Late(s) || s == ServerStart ==> Late(UrlChar(s, c))
    ensures InTail(s) ==> InTail(UrlChar(s, c))
    ensures ServerState(UrlChar(s, c)) ==> ServerState(s) || s == ServerStart
  {
  }

  lemma {:induction false} GoLate(s: State, text: string)
    requires Late(s) || (s == ServerStart && text != [])
    ensures Late(Go(s, text))
    decreases |text|
  {
    hide UrlChar, Late;
    if text != [] {
      LateStays(s, text[0]);
      GoLate(UrlChar(s, text[0]), text[1..]);
    }
  }

  /** Before the end of a text that stays in the server part the state is of the server part too. */
  lemma ServerBefore(text: string)
    requires text != [] && ServerState(Go(ServerStart, text))
    ensures var before := text[..|text| - 1];
      if before == [] then Go(ServerStart, before) == ServerStart else ServerState(Go(ServerStart, before))
  {
    hide UrlChar;
    var before, ch := text[..|text| - 1], text[|text| - 1];
    assert text == before + [ch];
    GoLast(ServerStart, before, ch);
    LateStays(Go(ServerStart, before), ch);
    if before != [] { GoLate(ServerStart, before); }
  }

  /** The server part, whatever it looks like, is one field in the first pass. */
  lemma {:induction false} ServerScanned(z: Scan, p: nat, text: string)
    requires z.state == ServerStart && z.last != Some(HOST) && !z.foundAt && text != []
    requires ServerState(Go(ServerStart, text))
    ensures ScanFrom(z, p, text) ==
      Scan(Go(ServerStart, text), z.fields[HOST := Span(p, |text|)], Some(HOST), '@' in text)
    decreases |text|
  {
    hide UrlChar, ScanStep;
    var before, ch := text[..|text| - 1], text[|text| - 1];
    assert text == before + [ch];
    ServerBefore(text);
    GoLast(ServerStart, before, ch);
    if before == [] {
      assert ScanFrom(z, p, before) == z;
    } else {
      ServerScanned(z, p, before);
    }
    var y := ScanFrom(z, p, before);
    ServerStep(y, p + |before|, ch);
    assert ScanFrom(z, p, text) == ScanStep(y, p + |before|, ch);
  }

  lemma ServerChars(c: char)
    requires IsUserInfo(c) || IsHost(c) || IsNum(c) || IsZone(c) || AddressChar(c) || c == ':' || c == '[' || c == ']'
    ensures UrlChar(Server, c) == Server && UrlChar(ServerStart, c) == Server && UrlChar(ServerWithAt, c) == Server
  {
  }

  lemma HostTextChars(s: ServerPart)
    requires ServerOk(s)
    ensures var t := HostText(s.host) + Marked(':', s.port);
      t != [] && forall i :: 0 <= i < |t| ==>
        UrlChar(Server, t[i]) == Server && UrlChar(ServerStart, t[i]) == Server && UrlChar(ServerWithAt, t[i]) == Server
  {
    hide IsUserInfo, IsHost, IsNum, IsZone, AddressChar, UrlChar;
    var t := HostText(s.host) + Marked(':', s.port);
    forall i | 0 <= i < |t|
      ensures UrlChar(Server, t[i]) == Server && UrlChar(ServerStart, t[i]) == Server
      ensures UrlChar(ServerWithAt, t[i]) == Server
    {
      ServerCharAt(s, i);
      ServerChars(t[i]);
    }
  }

  lemma ServerCharAt(s: ServerPart, i: nat)
    requires ServerOk(s) && i < |HostText(s.host) + Marked(':', s.port)|
    ensures var c := (HostText(s.host) + Marked(':', s.port))[i];
      IsUserInfo(c) || IsHost(c) || IsNum(c) || IsZone(c) || AddressChar(c) || c == ':' || c == '[' || c == ']'
  {
    hide IsUserInfo, IsHost, IsNum, AddressChar;
    var h := HostText(s.host);
    if i >= |h| {
      assert (h + Marked(':', s.port))[i] == Marked(':', s.port)[i - |h|];
    } else {
      assert (h + Marked(':', s.port))[i] == h[i];
      if s.host.Bracketed? && 1 + |s.host.addr| <= i < |h| - 1 {
        assert h[i] == Marked('%', s.host.zone)[i - 1 - |s.host.addr|];
      }
    }
  }

  /** A text that is first met behind a start or an at sign. */
  lemma {:induction false} GoServer(s: State, t: string)
    requires t != [] && (s == ServerStart || s == ServerWithAt)
    requires forall i :: 0 <= i < |t| ==>
      UrlChar(Server, t[i]) == Server && UrlChar(ServerStart, t[i]) == Server && UrlChar(ServerWithAt, t[i]) == Server
    ensures Go(s, t) == Server
  {
    hide UrlChar;
    forall i | 0 <= i < |t[1..]| ensures UrlChar(Server, t[1..][i]) == Server { assert t[1..][i] == t[i + 1]; }
    assert UrlChar(s, t[0]) == Server;
    GoStays(Server, t[1..]);
  }

  lemma {:induction false} GoUser(user: string)
    requires forall i :: 0 <= i < |user| ==> IsUserInfo(user[i])
    ensures Go(ServerStart, user + ['@']) == ServerWithAt
  {
    GoLast(ServerStart, user, '@');
    if user != [] {
      forall i | 0 <= i < |user|
        ensures UrlChar(Server, user[i]) == Server && UrlChar(ServerStart, user[i]) == Server
        ensures UrlChar(ServerWithAt, user[i]) == Server
      {
        ServerChars(user[i]);
      }
      GoServer(ServerStart, user);
    }
  }

  lemma {:induction false} ServerTextGoes(s: ServerPart)
    requires ServerOk(s)
    ensures ServerText(s) != [] && Go(ServerStart, ServerText(s)) == Server && ('@' in ServerText(s) <==> s.user.Some?)
  {
    hide UrlChar, Go, HostOk, IsUserInfo;
    var t := HostText(s.host) + Marked(':', s.port);
    HostTextChars(s);
    NoAtSign(s);
    assert ServerText(s) == UserText(s) + t;
    if s.user.None? {
      GoServer(ServerStart, t);
      assert ServerText(s) == t;
    } else {
      GoUser(s.user.value);
      GoServer(ServerWithAt, t);
      GoInTwo(ServerStart, UserText(s), t);
      assert '@' in UserText(s);
    }
  }

  lemma NoAtSign(s: ServerPart)
    requires ServerOk(s)
    ensures '@' !in HostText(s.host) + Marked(':', s.port)
  {
    var t := HostText(s.host) + Marked(':', s.port);
    forall i | 0 <= i < |t| ensures t[i] != '@' {
      ServerCharAt(s, i);
    }
  }

  function AfterFront(f: Front): Scan {
    match f
    case Nothing => Initial(false)
    case Absolute(schema, server) =>
      Scan(Server, map[SCHEMA := Span(0, |schema|)][HOST := Span(|schema| + 3, |ServerText(server)|)], Some(HOST),
           server.user.Some?)
    case Authority(server) => Scan(Server, map[HOST := Span(0, |ServerText(server)|)], Some(HOST), server.user.Some?)
  }

  lemma {:induction false} AbsoluteScanned(schema: string, server: ServerPart)
    requires FrontOk(Absolute(schema, server))
    ensures ScanFrom(Initial(false), 0, schema + "://" + ServerText(server)) == AfterFront(Absolute(schema, server))
  {
    hide ScanFrom, Go, ServerText, ServerOk;
    ServerTextGoes(server);
    SchemaScanned(schema);
    ServerScanned(AfterSchema(schema), |schema| + 3, ServerText(server));
    Compose(Initial(false), 0, schema + "://", AfterSchema(schema), ServerText(server),
            AfterFront(Absolute(schema, server)));
  }

  lemma {:induction false} AuthorityScanned(server: ServerPart)
    requires FrontOk(Authority(server))
    ensures ScanFrom(Initial(true), 0, ServerText(server)) == AfterFront(Authority(server))
  {
    hide ScanFrom, Go, ServerText, ServerOk;
    ServerTextGoes(server);
    ServerScanned(Initial(true), 0, ServerText(server));
    assert map[][HOST := Span(0, |ServerText(server)|)] == AfterFront(Authority(server)).fields;
  }

  lemma {:induction false} FrontScanned(f: Front)
    requires FrontOk(f)
    ensures ScanFrom(Initial(f.Authority?), 0, FrontText(f)) == AfterFront(f)
  {
    hide ServerText, ServerOk;
    match f
    case Nothing =>
    case Absolute(schema, server) => AbsoluteScanned(schema, server);
    case Authority(server) => AuthorityScanned(server);
  }

  function AfterPath(z: Scan, p: nat, path: string): Scan {
    if path == [] then z else Scan(Path, With(z.fields, PATH, p, path), Some(PATH), z.foundAt)
  }

  function AfterQuery(z: Scan, p: nat, q: Option<string>): Scan {
    if q.None? then z
    else if q.value == [] then z.(state := QueryStart)
    else Scan(Query, With(z.fields, QUERY, p + 1, q.value), Some(QUERY), z.foundAt)
  }

  function AfterHashes(z: Scan, n: nat): Scan {
    if n == 0 then z else z.(state := FragmentStart)
  }

  function AfterFragment(z: Scan, p: nat, fragment: string): Scan {
    if fragment == [] then z else Scan(Fragment, With(z.fields, FRAGMENT, p, fragment), Some(FRAGMENT), z.foundAt)
  }

  lemma PathScanned(z: Scan, p: nat, path: string)
    requires ServerState(z.state) || z.state == SpacesBeforeUrl
    requires z.last != Some(PATH) && forall i :: 0 <= i < |path| ==> IsUrl(path[i])
    requires path != [] ==> path[0] == '/' || (path[0] == '*' && z.state == SpacesBeforeUrl)
    ensures ScanFrom(z, p, path) == AfterPath(z, p, path)
  {
    if path != [] { Begin(z, p, path, Path, PATH); }
  }

  lemma QueryStays(c: char)
    requires QueryChar(c)
    ensures UrlChar(Query, c) == Query && UrlChar(QueryStart, c) == Query
  {
  }

  lemma FragmentStays(c: char)
    requires FragmentChar(c)
    ensures UrlChar(Fragment, c) == Fragment && (c != '#' ==> UrlChar(FragmentStart, c) == Fragment)
  {
  }

  lemma {:induction false} QueryScanned(z: Scan, p: nat, q: Option<string>)
    requires z.last != Some(QUERY) && (q.Some? ==> ServerState(z.state) || z.state == Path)
    requires q.Some? ==> forall i :: 0 <= i < |q.value| ==> QueryChar(q.value[i])
    ensures ScanFrom(z, p, QueryText(q)) == AfterQuery(z, p, q)
  {
    if q.Some? {
      Pass(z, p, '?', QueryStart);
      if q.value == [] {
        assert QueryText(q) == ['?'];
      } else {
        forall i | 0 <= i < |q.value|
          ensures UrlChar(Query, q.value[i]) == Query && UrlChar(QueryStart, q.value[i]) == Query
        {
          QueryStays(q.value[i]);
        }
        Begin(z.(state := QueryStart), p + 1, q.value, Query, QUERY);
        Compose(z, p, ['?'], z.(state := QueryStart), q.value, AfterQuery(z, p, q));
      }
    }
  }

  lemma {:induction false} HashesScanned(z: Scan, p: nat, n: nat)
    requires n > 0 ==> z.state in {Path, QueryStart, Query, FragmentStart}
    ensures ScanFrom(z, p, Hashes(n)) == AfterHashes(z, n)
    decreases n
  {
    if n > 0 {
      Pass(z, p, '#', FragmentStart);
      HashesScanned(z.(state := FragmentStart), p + 1, n - 1);
      Compose(z, p, ['#'], z.(state := FragmentStart), Hashes(n - 1), AfterHashes(z, n));
    }
  }

  lemma FragmentScanned(z: Scan, p: nat, fragment: string)
    requires fragment != [] ==> z.state == FragmentStart && z.last != Some(FRAGMENT) && fragment[0] != '#'
    requires forall i :: 0 <= i < |fragment| ==> FragmentChar(fragment[i])
    ensures ScanFrom(z, p, fragment) == AfterFragment(z, p, fragment)
  {
    if fragment != [] {
      forall i | 0 <= i < |fragment|
        ensures UrlChar(Fragment, fragment[i]) == Fragment
        ensures fragment[i] != '#' ==> UrlChar(FragmentStart, fragment[i]) == Fragment
      {
        FragmentStays(fragment[i]);
      }
      Begin(z, p, fragment, Fragment, FRAGMENT);
    }
  }

  /** What the first pass makes of path, query and fragment. */
  function AfterTail(z: Scan, p: nat, u: Parts): Scan {
    var q := p + |u.path|;
    var y := AfterHashes(AfterQuery(AfterPath(z, p, u.path), q, u.query), u.hashes);
    AfterFragment(y, q + |QueryText(u.query)| + u.hashes, u.fragment)
  }

  predicate BeforeTail(z: Scan) {
    (ServerState(z.state) && z.last == Some(HOST)) || (z.state == SpacesBeforeUrl && z.last == None)
  }

  lemma {:induction false} TailScanned(z: Scan, p: nat, u: Parts)
    requires TailOk(u) && BeforeTail(z) && (z.state == SpacesBeforeUrl <==> u.front.Nothing?)
    ensures ScanFrom(z, p, TailText(u)) == AfterTail(z, p, u)
  {
    hide ScanFrom, UrlChar, FrontText, QueryText, ServerText, IsUrl, QueryChar, FragmentChar;
    var q, h := p + |u.path|, p + |u.path| + |QueryText(u.query)|;
    var z1 := AfterPath(z, p, u.path);
    var z2 := AfterQuery(z1, q, u.query);
    var z3 := AfterHashes(z2, u.hashes);
    PathScanned(z, p, u.path);
    QueryScanned(z1, q, u.query);
    HashesScanned(z2, h, u.hashes);
    FragmentScanned(z3, h + u.hashes, u.fragment);
    Compose(z, p, u.path, z1, QueryText(u.query), z2);
    Compose(z2, h, Hashes(u.hashes), z3, u.fragment, AfterTail(z, p, u));
    Compose(z, p, u.path + QueryText(u.query), z2, Hashes(u.hashes) + u.fragment, AfterTail(z, p, u));
  }

  /** The fields behind the server part, and nothing about the fields before them. */
  lemma TailFields(z: Scan, p: nat, u: Parts)
    requires TailOk(u) && BeforeTail(z)
    ensures var y := AfterTail(z, p, u);
      y.state != DeadUrl && y.foundAt == z.foundAt && y.fields == TailPlaces(z.fields, u, p)
  {
  }

  /** The whole first pass. */
  lemma {:induction false} ScanOf(buf: string, connect: bool, front: string, z: Scan, u: Parts)
    requires buf == front + TailText(u) && ScanFrom(Initial(connect), 0, front) == z
    requires TailOk(u) && BeforeTail(z) && (z.state == SpacesBeforeUrl <==> u.front.Nothing?)
    ensures var y := ScanTo(buf, connect, |buf|);
      y.state != DeadUrl && y.foundAt == z.foundAt && y.fields == TailPlaces(z.fields, u, |front|)
  {
    hide ScanFrom, TailOk, BeforeTail, TailText;
    TailScanned(z, |front|, u);
    TailFields(z, |front|, u);
    Compose(Initial(connect), 0, front, z, TailText(u), AfterTail(z, |front|, u));
    assert buf[..|buf|] == buf;
    assert ScanTo(buf, connect, 0) == Initial(connect);
    ScanToIsFrom(buf, connect, |buf|);
  }

  // ---------------------------------------------------------------- the second pass over the parts

  lemma FoldHostLast(h: HostScan, p: nat, text: string)
    requires text != []
    ensures HostFrom(h, p, text) == HostStep(HostFrom(h, p, text[..|text| - 1]), p + |text| - 1, text[|text| - 1])
  {
  }

  lemma {:induction false} UserRead(h: HostScan, p: nat, text: string)
    requires h.state == UserInfoStart && h.user == None && text != []
    requires forall i :: 0 <= i < |text| ==> IsUserInfo(text[i])
    ensures HostFrom(h, p, text) == h.(state := UserInfo, user := Some(Span(p, |text|)))
    decreases |text|
  {
    hide IsUserInfo, Fold;
    FoldHostLast(h, p, text);
    UserChar(text[|text| - 1]);
    if |text| == 1 {
      assert HostFrom(h, p, text[..0]) == h by { FoldNone(h, p); }
    } else {
      UserRead(h, p, text[..|text| - 1]);
    }
  }

  lemma FoldNone(h: HostScan, p: nat)
    ensures HostFrom(h, p, []) == h
  {
  }

  lemma UserChar(c: char)
    requires IsUserInfo(c)
    ensures HostChar(UserInfo, c) == HostChar(UserInfoStart, c) == UserInfo
  {
  }

  lemma {:induction false} NameRead(h: HostScan, p: nat, text: string)
    requires h.state == HostStart && h.host.len == 0 && text != [] && forall i :: 0 <= i < |text| ==> IsHost(text[i])
    ensures HostFrom(h, p, text) == h.(state := Host, host := Span(p, |text|))
    decreases |text|
  {
    hide IsHost, Fold;
    FoldHostLast(h, p, text);
    NameChar(text[|text| - 1]);
    if |text| == 1 {
      assert HostFrom(h, p, text[..0]) == h by { FoldNone(h, p); }
    } else {
      NameRead(h, p, text[..|text| - 1]);
    }
  }

  lemma NameChar(c: char)
    requires IsHost(c)
    ensures HostChar(HostStart, c) == HostChar(Host, c) == Host
  {
  }

  lemma {:induction false} AddressRead(h: HostScan, p: nat, text: string)
    requires h.state == V6Start && h.host.len == 0 && text != []
    requires forall i :: 0 <= i < |text| ==> AddressChar(text[i])
    ensures HostFrom(h, p, text) == h.(state := V6, host := Span(p, |text|))
    decreases |text|
  {
    hide AddressChar, Fold;
    FoldHostLast(h, p, text);
    AddressGoesOn(text[|text| - 1]);
    if |text| == 1 {
      assert HostFrom(h, p, text[..0]) == h by { FoldNone(h, p); }
    } else {
      AddressRead(h, p, text[..|text| - 1]);
    }
  }

  lemma AddressGoesOn(c: char)
    requires AddressChar(c)
    ensures HostChar(V6Start, c) == HostChar(V6, c) == V6
  {
  }

  lemma {:induction false} ZoneRead(h: HostScan, p: nat, text: string)
    requires h.state == V6ZoneStart && text != [] && forall i :: 0 <= i < |text| ==> IsZone(text[i])
    ensures HostFrom(h, p, text) == h.(state := V6Zone, host := Span(h.host.off, h.host.len + |text|))
    decreases |text|
  {
    hide IsZone, Fold;
    FoldHostLast(h, p, text);
    ZoneChar(text[|text| - 1]);
    if |text| == 1 {
      assert HostFrom(h, p, text[..0]) == h by { FoldNone(h, p); }
    } else {
      ZoneRead(h, p, text[..|text| - 1]);
    }
  }

  lemma ZoneChar(c: char)
    requires IsZone(c)
    ensures HostChar(V6ZoneStart, c) == HostChar(V6Zone, c) == V6Zone
  {
  }

  lemma {:induction false} PortRead(h: HostScan, p: nat, text: string)
    requires h.state == PortStart && h.port == None && text != [] && forall i :: 0 <= i < |text| ==> IsNum(text[i])
    ensures HostFrom(h, p, text) == h.(state := Port, port := Some(Span(p, |text|)))
    decreases |text|
  {
    hide IsNum, Fold;
    FoldHostLast(h, p, text);
    PortChar(text[|text| - 1]);
    if |text| == 1 {
      assert HostFrom(h, p, text[..0]) == h by { FoldNone(h, p); }
    } else {
      PortRead(h, p, text[..|text| - 1]);
    }
  }

  lemma PortChar(c: char)
    requires IsNum(c)
    ensures HostChar(PortStart, c) == HostChar(Port, c) == Port
  {
  }

  lemma HostOne(h: HostScan, p: nat, ch: char)
    ensures HostFrom(h, p, [ch]) == HostStep(h, p, ch)
  {
    FoldOne(HostStep, h, p, ch);
  }

  /** Where the second pass begins. */
  function BeforeServer(foundAt: bool, o: nat): HostScan {
    HostScan(if foundAt then UserInfoStart else HostStart, Span(o, 0), None, None)
  }

  function UserSpan(s: ServerPart, o: nat): Option<Span> {
    if s.user.None? || s.user.value == [] then None else Some(Span(o, |s.user.value|))
  }

  lemma {:induction false} UserPart(s: ServerPart, o: nat)
    requires ServerOk(s)
    ensures HostFrom(BeforeServer(s.user.Some?, o), o, UserText(s))
      == HostScan(HostStart, Span(o, 0), None, UserSpan(s, o))
  {
    if s.user.Some? {
      var h0, n := BeforeServer(true, o), |s.user.value|;
      var h2 := HostScan(HostStart, Span(o, 0), None, UserSpan(s, o));
      if n == 0 {
        HostOne(h0, o, '@');
        assert UserText(s) == ['@'];
      } else {
        var h1 := h0.(state := UserInfo, user := Some(Span(o, n)));
        UserRead(h0, o, s.user.value);
        HostOne(h1, o + n, '@');
        ComposeHost(h0, o, s.user.value, h1, ['@'], h2);
      }
    }
  }

  function HostEnd(h: HostPart): HostState {
    if h.Named? then Host else V6End
  }

  lemma {:induction false} ZonePart(h: HostScan, p: nat, zone: string)
    requires h.state == V6 && forall i :: 0 <= i < |zone| ==> IsZone(zone[i])
    ensures HostFrom(h, p, Marked('%', zone)) ==
      if zone == [] then h else h.(state := V6Zone, host := Span(h.host.off, h.host.len + 1 + |zone|))
  {
    if zone != [] {
      var h1 := h.(state := V6ZoneStart, host := Longer(h.host));
      HostOne(h, p, '%');
      ZoneRead(h1, p + 1, zone);
      ComposeHost(h, p, ['%'], h1, zone, h.(state := V6Zone, host := Span(h.host.off, h.host.len + 1 + |zone|)));
    }
  }

  lemma {:induction false} BracketsRead(h: HostScan, p: nat, addr: string, zone: string)
    requires h.state == HostStart && h.host.len == 0 && HostOk(Bracketed(addr, zone))
    ensures HostFrom(h, p, ['['] + addr + Marked('%', zone) + [']'])
      == h.(state := V6End, host := Span(p + 1, |addr| + |Marked('%', zone)|))
  {
    hide AddressChar, IsZone, Fold;
    var h1 := h.(state := V6Start);
    var h2 := h.(state := V6, host := Span(p + 1, |addr|));
    var m := |addr| + |Marked('%', zone)|;
    var h3 := h.(state := if zone == [] then V6 else V6Zone, host := Span(p + 1, m));
    HostOne(h, p, '[');
    AddressRead(h1, p + 1, addr);
    ZonePart(h2, p + 1 + |addr|, zone);
    HostOne(h3, p + 1 + m, ']');
    ComposeHost(h, p, ['['], h1, addr, h2);
    ComposeHost(h, p, ['['] + addr, h2, Marked('%', zone), h3);
    ComposeHost(h, p, ['['] + addr + Marked('%', zone), h3, [']'], h.(state := V6End, host := Span(p + 1, m)));
  }

  lemma {:induction false} HostPartRead(h: HostScan, p: nat, host: HostPart)
    requires h.state == HostStart && h.host.len == 0 && HostOk(host)
    ensures HostFrom(h, p, HostText(host)) == h.(state := HostEnd(host), host := HostSpan(host, p))
  {
    match host
    case Named(name) => NameRead(h, p, name);
    case Bracketed(addr, zone) => BracketsRead(h, p, addr, zone);
  }

  lemma {:induction false} PortPart(h: HostScan, p: nat, port: string)
    requires (h.state == Host || h.state == V6End) && h.port == None && forall i :: 0 <= i < |port| ==> IsNum(port[i])
    ensures HostFrom(h, p, Marked(':', port)) ==
      if port == [] then h else h.(state := Port, port := Some(Span(p + 1, |port|)))
  {
    if port != [] {
      HostOne(h, p, ':');
      PortRead(h.(state := PortStart), p + 1, port);
      ComposeHost(h, p, [':'], h.(state := PortStart), port, h.(state := Port, port := Some(Span(p + 1, |port|))));
    }
  }

  /** What the second pass makes of the server part that begins at place o. */
  function HostRead(s: ServerPart, o: nat): HostScan {
    var n := o + |UserText(s)|;
    HostScan(if s.port == [] then HostEnd(s.host) else Port, HostSpan(s.host, n),
             if s.port == [] then None else Some(Span(n + |HostText(s.host)| + 1, |s.port|)), UserSpan(s, o))
  }

  lemma {:induction false} ServerRead(s: ServerPart, o: nat)
    requires ServerOk(s)
    ensures HostFrom(BeforeServer(s.user.Some?, o), o, ServerText(s)) == HostRead(s, o)
  {
    hide HostFrom, HostOk, HostText, UserText, IsNum, IsUserInfo, HostSpan, Marked;
    var h0, n := BeforeServer(s.user.Some?, o), o + |UserText(s)|;
    var h1 := HostScan(HostStart, Span(o, 0), None, UserSpan(s, o));
    var h2 := h1.(state := HostEnd(s.host), host := HostSpan(s.host, n));
    UserPart(s, o);
    HostPartRead(h1, n, s.host);
    PortPart(h2, n + |HostText(s.host)|, s.port);
    ComposeHost(h0, o, UserText(s), h1, HostText(s.host), h2);
    ComposeHost(h0, o, UserText(s) + HostText(s.host), h2, Marked(':', s.port), HostRead(s, o));
  }

  // ---------------------------------------------------------------- both passes

  function ServerOff(f: Front): nat {
    if f.Absolute? then |f.schema| + 3 else 0
  }

  lemma ServerAt(buf: string, u: Parts)
    requires buf == Assembled(u) && !u.front.Nothing?
    ensures var o, t := ServerOff(u.front), ServerText(u.front.server);
      o + |t| == |FrontText(u.front)| <= |buf| && buf[o..o + |t|] == t
  {
  }

  lemma TextIs(u: Parts)
    ensures Assembled(u) == FrontText(u.front) + TailText(u)
  {
  }

  lemma FrontFields(f: Front)
    requires FrontOk(f)
    ensures var z := AfterFront(f);
      && BeforeTail(z) && (z.state == SpacesBeforeUrl <==> f.Nothing?)
      && (f.Nothing? ==> z.fields == map[] == FrontPlaces(f))
      && (!f.Nothing? ==>
            HOST in z.fields && z.fields[HOST] == Span(ServerOff(f), |ServerText(f.server)|)
            && z.foundAt == f.server.user.Some?)
  {
  }

  /** It does not matter whether the fields of the server part or those behind it are set first. */
  lemma TailCommutes(fs: Fields, h: HostScan, u: Parts, p: nat)
    ensures HostFields(TailPlaces(fs, u, p), h) == TailPlaces(HostFields(fs, h), u, p)
  {
    hide QueryText;
    var a, b := HostFields(TailPlaces(fs, u, p), h), TailPlaces(HostFields(fs, h), u, p);
    forall f: Field ensures (f in a <==> f in b) && (f in a ==> a[f] == b[f]) {}
  }

  lemma FrontMeets(f: Front)
    requires !f.Nothing? && (f.Absolute? ==> f.schema != [])
    ensures HostFields(AfterFront(f).fields, HostRead(f.server, ServerOff(f))) == FrontPlaces(f)
  {
    hide ServerText, HostText, UserText, HostSpan, HostEnd;
    var a, b := HostFields(AfterFront(f).fields, HostRead(f.server, ServerOff(f))), FrontPlaces(f);
    forall g: Field ensures (g in a <==> g in b) && (g in a ==> a[g] == b[g]) {}
  }

  /** The second pass puts its fields where the server part was. */
  lemma PlacesMeet(u: Parts)
    requires FrontOk(u.front) && !u.front.Nothing?
    ensures var p, h := |FrontText(u.front)|, HostRead(u.front.server, ServerOff(u.front));
      HostFields(TailPlaces(AfterFront(u.front).fields, u, p), h) == Places(u)
  {
    hide ServerOk, TailPlaces, AfterFront, HostRead, FrontPlaces, FrontText, HostFields;
    TailCommutes(AfterFront(u.front).fields, HostRead(u.front.server, ServerOff(u.front)), u, |FrontText(u.front)|);
    FrontMeets(u.front);
  }

  lemma TailKeepsHost(fs: Fields, u: Parts, o: nat)
    ensures HOST in TailPlaces(fs, u, o) <==> HOST in fs
    ensures HOST in fs ==> TailPlaces(fs, u, o)[HOST] == fs[HOST]
    ensures SCHEMA in TailPlaces(fs, u, o) <==> SCHEMA in fs
  {
  }

  lemma AllFieldsIs(buf: string, connect: bool, z: Scan, server: Span, h: HostScan)
    requires z == ScanTo(buf, connect, |buf|) && z.state != DeadUrl && HOST in z.fields && z.fields[HOST] == server
    requires server.End() <= |buf| && h == HostTo(buf, server.off, z.foundAt, server.End())
    ensures AllFields(buf, connect) ==
      if h.state == DeadHost || Unfinished(h.state) then None else Some(HostFields(z.fields, h))
  {
  }

  lemma {:induction false} SecondPass(buf: string, o: nat, t: string, foundAt: bool)
    requires o + |t| <= |buf| && buf[o..o + |t|] == t
    ensures HostTo(buf, o, foundAt, o + |t|) == HostFrom(BeforeServer(foundAt, o), o, t)
  {
    hide HostStep, Fold;
    HostToIsFrom(buf, o, foundAt, o + |t|);
    assert HostTo(buf, o, foundAt, o) == BeforeServer(foundAt, o);
  }

  lemma {:induction false} AllFieldsOfAssembled(u: Parts, connect: bool)
    requires PartsOk(u, connect)
    ensures AllFields(Assembled(u), connect) == Some(Places(u))
  {
    hide ScanFrom, ScanTo, TailText, TailPlaces, Assembled, HostTo, HostFrom, FrontText, ServerText, HostFields;
    hide AfterFront, TailOk, BeforeTail, FrontPlaces;
    var buf, p := Assembled(u), |FrontText(u.front)|;
    var z := ScanTo(buf, connect, |buf|);
    TextIs(u);
    FrontScanned(u.front);
    FrontFields(u.front);
    ScanOf(buf, connect, FrontText(u.front), AfterFront(u.front), u);
    TailKeepsHost(AfterFront(u.front).fields, u, p);
    if !u.front.Nothing? {
      var o, t := ServerOff(u.front), ServerText(u.front.server);
      ServerAt(buf, u);
      ServerRead(u.front.server, o);
      SecondPass(buf, o, t, u.front.server.user.Some?);
      AllFieldsIs(buf, connect, z, Span(o, |t|), HostRead(u.front.server, o));
      PlacesMeet(u);
    }
  }

  lemma PortPlace(u: Parts)
    requires FrontOk(u.front)
    ensures var t := PortText(u);
      if t == [] then PORT !in Places(u)
      else PORT in Places(u) && Places(u)[PORT].End() <= |Assembled(u)|
           && Assembled(u)[Places(u)[PORT].off..Places(u)[PORT].End()] == t
  {
    var t := PortText(u);
    if t != [] {
      var s, o := u.front.server, ServerOff(u.front);
      var schema := if u.front.Absolute? then u.front.schema + "://" else [];
      var before := schema + UserText(s) + HostText(s.host) + [':'];
      assert Places(u)[PORT] == Span(|before|, |t|);
      assert Assembled(u) == before + t + TailText(u);
    }
  }

  lemma FromFields(buf: string, connect: bool, fs: Fields, port: string)
    requires AllFields(buf, connect) == Some(fs)
    requires if port == [] then PORT !in fs
             else PORT in fs && fs[PORT].End() <= |buf| && buf[fs[PORT].off..fs[PORT].End()] == port
    ensures Parse(buf, connect) ==
      if Decimal(port) > 0xffff || (connect && fs.Keys != {HOST, PORT}) then None else Some(Url(fs, Decimal(port)))
  {
  }

  /** Splitting undoes assembling: a URL put together from well-formed parts is accepted unless its port is over
      65535, or it is a CONNECT target with more or less than a host and a port; every part is then found where it was
      put, parts that are missing are not found, and the port is the number that was written. */
  lemma {:induction false} SplitUndoesAssembly(u: Parts, connect: bool)
    requires PartsOk(u, connect)
    ensures Parse(Assembled(u), connect) ==
      if Decimal(PortText(u)) > 65535 || (connect && Places(u).Keys != {HOST, PORT}) then None
      else Some(Url(Places(u), Decimal(PortText(u))))
  {
    hide Assembled, AllFields, Parse, Places, TailOk, ServerText;
    AllFieldsOfAssembled(u, connect);
    PortPlace(u);
    FromFields(Assembled(u), connect, Places(u), PortText(u));
  }

  // ---------------------------------------------------------------- the forms of a request target

  /** The target of an ordinary request: a path, or a lone asterisk, and what may follow it. */
  lemma {:induction false} OriginForm(path: string, query: string, fragment: string)
    requires path != [] && (path[0] == '/' || path[0] == '*') && forall i :: 0 <= i < |path| ==> IsUrl(path[i])
    requires forall i :: 0 <= i < |query| ==> IsUrl(query[i]) || query[i] == '?'
    requires forall i :: 0 <= i < |fragment| ==> IsUrl(fragment[i]) || fragment[i] == '?' || fragment[i] == '#'
    requires fragment != [] ==> fragment[0] != '#'
    ensures
      var text :=
        path + (if query == [] then [] else ['?'] + query) + (if fragment == [] then [] else ['#'] + fragment);
      var f := |path| + (if query == [] then 0 else 1 + |query|) + 1;
      Parse(text, false) == Some(Url(
        map[PATH := Span(0, |path|)] + (if query == [] then map[] else map[QUERY := Span(|path| + 1, |query|)])
        + (if fragment == [] then map[] else map[FRAGMENT := Span(f, |fragment|)]), 0))
  {
    hide Parse, Assembled, Places;
    var q := if query == [] then None else Some(query);
    var u := Parts(Nothing, path, q, if fragment == [] then 0 else 1, fragment);
    var text := path + (if query == [] then [] else ['?'] + query) + (if fragment == [] then [] else ['#'] + fragment);
    OriginText(u, text);
    OriginPlaces(u);
    SplitUndoesAssembly(u, false);
  }

  lemma OriginText(u: Parts, text: string)
    requires u.front.Nothing? && (u.hashes == if u.fragment == [] then 0 else 1) && u.query != Some([])
    requires text == u.path + (if u.query.None? then [] else ['?'] + u.query.value)
                     + (if u.fragment == [] then [] else ['#'] + u.fragment)
    ensures Assembled(u) == text
  {
    assert Hashes(1) == ['#'] + Hashes(0);
  }

  lemma OriginPlaces(u: Parts)
    requires u.front.Nothing? && (u.hashes == if u.fragment == [] then 0 else 1) && u.query != Some([]) && u.path != []
    ensures var f := |u.path| + (if u.query.None? then 0 else 1 + |u.query.value|) + 1;
      Places(u) ==
        map[PATH := Span(0, |u.path|)]
        + (if u.query.None? then map[] else map[QUERY := Span(|u.path| + 1, |u.query.value|)])
        + (if u.fragment == [] then map[] else map[FRAGMENT := Span(f, |u.fragment|)])
  {
  }

  /** The target of a CONNECT request: a host by name and a port. */
  lemma {:induction false} ConnectForm(host: string, port: string)
    requires host != [] && (forall i :: 0 <= i < |host| ==> IsHost(host[i]))
    requires port != [] && (forall i :: 0 <= i < |port| ==> IsNum(port[i]))
    ensures Parse(host + [':'] + port, true) ==
      if Decimal(port) > 65535 then None
      else Some(Url(map[HOST := Span(0, |host|), PORT := Span(|host| + 1, |port|)], Decimal(port)))
  {
    var u := Parts(Authority(ServerPart(None, Named(host), port)), [], None, 0, []);
    assert Assembled(u) == host + [':'] + port;
    assert Places(u) == map[HOST := Span(0, |host|), PORT := Span(|host| + 1, |port|)];
    assert Places(u).Keys == {HOST, PORT};
    SplitUndoesAssembly(u, true);
  }

  /** Of the texts that begin with a server part CONNECT takes those with a host and a port and nothing else. */
  lemma {:induction false} ConnectExact(u: Parts)
    requires PartsOk(u, true)
    ensures Parse(Assembled(u), true).Some? <==>
      var s := u.front.server;
      && (s.user.None? || s.user.value == []) && s.port != [] && Decimal(s.port) <= 65535
      && u.path == [] && (u.query.None? || u.query.value == []) && u.fragment == []
  {
    hide Assembled, Parse, PartsOk;
    SplitUndoesAssembly(u, true);
    ConnectKeys(u);
  }

  lemma ConnectKeys(u: Parts)
    requires PartsOk(u, true)
    ensures Places(u).Keys == {HOST, PORT} <==>
      var s := u.front.server;
      && (s.user.None? || s.user.value == []) && s.port != []
      && u.path == [] && (u.query.None? || u.query.value == []) && u.fragment == []
  {
    var k := Places(u).Keys;
    assert PATH in k <==> u.path != [];
    assert QUERY in k <==> u.query.Some? && u.query.value != [];
    assert FRAGMENT in k <==> u.fragment != [];
    assert USERINFO in k <==> u.front.server.user.Some? && u.front.server.user.value != [];
    assert PORT in k <==> u.front.server.port != [];
    assert HOST in k && SCHEMA !in k;
  }
}
