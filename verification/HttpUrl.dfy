/** Splitting a URL into its parts. */
module HttpUrls {
  import opened Basics
  import opened HttpDigits

  // ---------------------------------------------------------------- characters

  predicate IsAlpha(c: char) { 'a' <= c <= 'z' || 'A' <= c <= 'Z' }

  predicate IsAlphaNum(c: char) { IsAlpha(c) || IsNum(c) }

  predicate IsMark(c: char) {
    c == '-' || c == '_' || c == '.' || c == '!' || c == '~' || c == '*' || c == '\'' || c == '(' || c == ')'
  }

  predicate IsUserInfo(c: char) {
    || IsAlphaNum(c) || IsMark(c)
    || c == '%' || c == ';' || c == ':' || c == '&' || c == '=' || c == '+' || c == '$' || c == ','
  }

  /** Printable ASCII but for the space, the hash and the question mark. */
  predicate IsUrl(c: char) { '!' <= c <= '~' && c != '#' && c != '?' }

  predicate IsHost(c: char) { IsAlphaNum(c) || c == '.' || c == '-' }

  predicate IsZone(c: char) { IsAlphaNum(c) || c == '%' || c == '.' || c == '-' || c == '_' || c == '~' }

  lemma LetterClass(c: char)
    ensures IsAlpha(c) <==> c in {
      'a', 'b', 'c', 'd', 'e', 'f', 'g', 'h', 'i', 'j', 'k', 'l', 'm', 'n', 'o', 'p', 'q', 'r', 's', 't', 'u', 'v', 'w',
      'x', 'y', 'z', 'A', 'B', 'C', 'D', 'E', 'F', 'G', 'H', 'I', 'J', 'K', 'L', 'M', 'N', 'O', 'P', 'Q', 'R', 'S', 'T',
      'U', 'V', 'W', 'X', 'Y', 'Z'}
    ensures IsNum(c) <==> c in {'0', '1', '2', '3', '4', '5', '6', '7', '8', '9'}
  {
  }

  /** The classes are nested, and these characters lie between one and the next. */
  lemma CharClasses(c: char)
    ensures IsUrl(c) <==> IsAlpha(c) || IsNum(c) || c in {
      '!', '\"', '$', '%', '&', '\'', '(', ')', '*', '+', ',', '-', '.', '/', ':', ';', '<', '=', '>', '@', '[', '\\',
      ']', '^', '_', '`', '{', '|', '}', '~'}
    ensures IsUserInfo(c) <==>
      IsUrl(c) && c !in {'\"', '/', '<', '>', '@', '[', '\\', ']', '^', '`', '{', '|', '}'}
    ensures IsZone(c) <==> IsUserInfo(c) && c !in {'!', '*', '\'', '(', ')', ';', ':', '&', '=', '+', '$', ','}
    ensures IsHost(c) <==> IsZone(c) && c !in {'%', '_', '~'}
    ensures IsAlphaNum(c) <==> IsHost(c) && c !in {'.', '-'}
  {
  }

  // ---------------------------------------------------------------- the two state machines

  datatype State =
    DeadUrl | SpacesBeforeUrl | Schema | SchemaSlash | SchemaSlashSlash | ServerStart | Server | ServerWithAt
  | Path | QueryStart | Query | FragmentStart | Fragment

  function UrlChar(s: State, ch: char): State {
    if ch == ' ' || ch == '\r' || ch == '\n' || ch == '\t' || ch == 12 as char then DeadUrl
    else match s
      case SpacesBeforeUrl => if ch == '/' || ch == '*' then Path else if IsAlpha(ch) then Schema else DeadUrl
      case Schema => if IsAlpha(ch) then Schema else if ch == ':' then SchemaSlash else DeadUrl
      case SchemaSlash => if ch == '/' then SchemaSlashSlash else DeadUrl
      case SchemaSlashSlash => if ch == '/' then ServerStart else DeadUrl
      case ServerWithAt => if ch == '@' then DeadUrl else ServerChar(ch)
      case ServerStart => ServerChar(ch)
      case Server => ServerChar(ch)
      case Path =>
        if IsUrl(ch) then Path else if ch == '?' then QueryStart else if ch == '#' then FragmentStart else DeadUrl
      case QueryStart => if IsUrl(ch) || ch == '?' then Query else if ch == '#' then FragmentStart else DeadUrl
      case Query => if IsUrl(ch) || ch == '?' then Query else if ch == '#' then FragmentStart else DeadUrl
      case FragmentStart => if IsUrl(ch) || ch == '?' then Fragment else if ch == '#' then FragmentStart else DeadUrl
      case Fragment => if IsUrl(ch) || ch == '?' || ch == '#' then Fragment else DeadUrl
      case DeadUrl => DeadUrl
  }

  function ServerChar(ch: char): State {
    if ch == '/' then Path
    else if ch == '?' then QueryStart
    else if ch == '@' then ServerWithAt
    else if IsUserInfo(ch) || ch == '[' || ch == ']' then Server
    else DeadUrl
  }

  datatype HostState =
    DeadHost | UserInfoStart | UserInfo | HostStart | V6Start | Host | V6 | V6End | V6ZoneStart | V6Zone
  | PortStart | Port

  function HostChar(s: HostState, ch: char): HostState {
    match s
    case UserInfo => if ch == '@' then HostStart else if IsUserInfo(ch) then UserInfo else DeadHost
    case UserInfoStart => if ch == '@' then HostStart else if IsUserInfo(ch) then UserInfo else DeadHost
    case HostStart => if ch == '[' then V6Start else if IsHost(ch) then Host else DeadHost
    case Host => if IsHost(ch) then Host else if ch == ':' then PortStart else DeadHost
    case V6End => if ch == ':' then PortStart else DeadHost
    case V6 =>
      if ch == ']' then V6End else if IsHex(ch) || ch == ':' || ch == '.' then V6
      else if ch == '%' then V6ZoneStart else DeadHost
    case V6Start => if IsHex(ch) || ch == ':' || ch == '.' then V6 else DeadHost
    case V6Zone => if ch == ']' then V6End else if IsZone(ch) then V6Zone else DeadHost
    case V6ZoneStart => if IsZone(ch) then V6Zone else DeadHost
    case Port => if IsNum(ch) then Port else DeadHost
    case PortStart => if IsNum(ch) then Port else DeadHost
    case DeadHost => DeadHost
  }

  // ---------------------------------------------------------------- fields

  datatype Field = SCHEMA | HOST | PORT | PATH | QUERY | FRAGMENT | USERINFO

  datatype Span = Span(off: nat, len: nat) {
    function End(): nat { off + len }
  }

  type Fields = map<Field, Span>

  /** The field a state belongs to; delimiters belong to none. */
  function FieldOf(s: State): Option<Field> {
    match s
    case Schema => Some(SCHEMA)
    case ServerWithAt => Some(HOST)
    case Server => Some(HOST)
    case Path => Some(PATH)
    case Query => Some(QUERY)
    case Fragment => Some(FRAGMENT)
    case _ => None
  }

  /** How far the first pass has come. */
  datatype Scan = Scan(state: State, fields: Fields, last: Option<Field>, foundAt: bool)

  function Longer(s: Span): Span {
    Span(s.off, s.len + 1)
  }

  /** The fields when the byte at place p belongs to field `uf`, if to any: the last field grows, or another begins. */
  function Noted(fs: Fields, last: Option<Field>, uf: Option<Field>, p: nat): Fields {
    match uf
    case None => fs
    case Some(f) => if last == uf && f in fs then fs[f := Longer(fs[f])] else fs[f := Span(p, 1)]
  }

  function ScanStep(z: Scan, p: nat, ch: char): Scan {
    var s := UrlChar(z.state, ch);
    var uf := FieldOf(s);
    Scan(s, Noted(z.fields, z.last, uf, p), if uf.Some? then uf else z.last, z.foundAt || s == ServerWithAt)
  }

  function ScanTo(buf: string, connect: bool, n: nat): Scan
    requires n <= |buf|
  {
    if n == 0 then Scan(if connect then ServerStart else SpacesBeforeUrl, map[], None, false)
    else ScanStep(ScanTo(buf, connect, n - 1), n - 1, buf[n - 1])
  }

  /** How far the pass over the server part has come. */
  datatype HostScan = HostScan(state: HostState, host: Span, port: Option<Span>, user: Option<Span>)

  function HostStep(z: HostScan, p: nat, ch: char): HostScan {
    var s := HostChar(z.state, ch);
    match s
    case Host => z.(state := s, host := Span(if z.state == Host then z.host.off else p, z.host.len + 1))
    case V6 => z.(state := s, host := Span(if z.state == V6 then z.host.off else p, z.host.len + 1))
    case V6ZoneStart => z.(state := s, host := Longer(z.host))
    case V6Zone => z.(state := s, host := Longer(z.host))
    case Port =>
      z.(state := s, port := Some(if z.state == Port && z.port.Some? then Longer(z.port.value) else Span(p, 1)))
    case UserInfo =>
      z.(state := s, user := Some(if z.state == UserInfo && z.user.Some? then Longer(z.user.value) else Span(p, 1)))
    case _ => z.(state := s)
  }

  /** The server part from `from` up to place n. */
  function HostTo(buf: string, from: nat, foundAt: bool, n: nat): HostScan
    requires from <= n <= |buf|
    decreases n
  {
    if n == from then HostScan(if foundAt then UserInfoStart else HostStart, Span(from, 0), None, None)
    else HostStep(HostTo(buf, from, foundAt, n - 1), n - 1, buf[n - 1])
  }

  /** Where the server part must not end. */
  predicate Unfinished(s: HostState) {
    match s
    case HostStart | V6Start | V6 | V6ZoneStart | V6Zone | PortStart | UserInfo | UserInfoStart => true
    case _ => false
  }

  datatype Url = Url(fields: Fields, port: nat)

  function HostFields(fs: Fields, h: HostScan): Fields {
    var a := fs[HOST := h.host];
    var b := if h.port.Some? then a[PORT := h.port.value] else a;
    if h.user.Some? then b[USERINFO := h.user.value] else b
  }

  /** All the fields, if the text is a URL. */
  function AllFields(buf: string, connect: bool): Option<Fields> {
    var z := ScanTo(buf, connect, |buf|);
    if z.state == DeadUrl then None
    else if SCHEMA in z.fields && HOST !in z.fields then None
    else if HOST !in z.fields then Some(z.fields)
    else
      var server := z.fields[HOST];
      if server.End() > |buf| then None
      else
        var h := HostTo(buf, server.off, z.foundAt, server.End());
        if h.state == DeadHost || Unfinished(h.state) then None else Some(HostFields(z.fields, h))
  }

  /** What a URL splits into. */
  function Parse(buf: string, connect: bool): Option<Url> {
    match AllFields(buf, connect)
    case None => None
    case Some(fs) =>
      if connect && fs.Keys != {HOST, PORT} then None
      else if PORT !in fs then Some(Url(fs, 0))
      else if fs[PORT].End() > |buf| then None
      else
        var v := Decimal(buf[fs[PORT].off..fs[PORT].End()]);
        if v > 0xffff then None else Some(Url(fs, v))
  }

  // ---------------------------------------------------------------- where the fields are

  /** The order of the fields in a URL. */
  function Rank(f: Field): nat {
    match f
    case SCHEMA => 0 case USERINFO => 1 case HOST => 2 case PORT => 3 case PATH => 4 case QUERY => 5 case FRAGMENT => 6
  }

  /** The last field that may have begun in a state. */
  function Level(s: State): int {
    match s
    case DeadUrl => 7
    case SpacesBeforeUrl => -1
    case Schema => 0 case SchemaSlash => 0 case SchemaSlashSlash => 0 case ServerStart => 0
    case Server => 2 case ServerWithAt => 2
    case Path => 4 case QueryStart => 4
    case Query => 5 case FragmentStart => 5
    case Fragment => 6
  }

  ghost predicate InOrder(fs: Fields) {
    forall f, g :: f in fs && g in fs && Rank(f) < Rank(g) ==> fs[f].End() <= fs[g].off
  }

  ghost predicate Inside(fs: Fields, n: nat) {
    forall f :: f in fs ==> fs[f].len > 0 && fs[f].End() <= n
  }

  /** A schema is followed by `://`. */
  predicate SchemaEnds(buf: string, s: Span) {
    s.off == 0 && s.End() + 3 <= |buf| && buf[s.End()..s.End() + 3] == "://"
  }

  predicate StartsPath(buf: string, s: Span) {
    s.off < |buf| && (buf[s.off] == '/' || buf[s.off] == '*')
  }

  predicate Behind(buf: string, s: Span, c: char) {
    0 < s.off <= |buf| && buf[s.off - 1] == c
  }

  /** What stands around the fields of the first pass. */
  predicate Placed(buf: string, fs: Fields) {
    && (PATH in fs ==> StartsPath(buf, fs[PATH]))
    && (QUERY in fs ==> Behind(buf, fs[QUERY], '?'))
    && (FRAGMENT in fs ==> Behind(buf, fs[FRAGMENT], '#'))
  }

  // ---------------------------------------------------------------- the first pass keeps the fields in order

  /** The fields so far are non-empty, in order, before n, and none is of a later kind than the state allows. */
  ghost predicate Orderly(z: Scan, n: nat) {
    && (z.last.Some? ==> z.last.value in z.fields) && Inside(z.fields, n) && InOrder(z.fields)
    && (forall f :: f in z.fields ==> Rank(f) <= Level(z.state) && f != PORT && f != USERINFO)
    && (FieldOf(z.state).Some? ==> z.last == FieldOf(z.state) && z.fields[z.last.value].End() == n)
  }

  /** One field grows by the byte at place n, or begins there. */
  lemma FieldAtEnd(fs: Fields, f: Field, x: Span, n: nat)
    requires Inside(fs, n) && InOrder(fs) && x.len > 0 && x.End() == n + 1
    requires forall g :: g in fs ==> Rank(g) <= Rank(f)
    requires if f in fs then x.off == fs[f].off else x.off == n
    ensures Inside(fs[f := x], n + 1) && InOrder(fs[f := x])
  {
    forall g, h | g in fs[f := x] && h in fs[f := x] && Rank(g) < Rank(h)
      ensures fs[f := x][g].End() <= fs[f := x][h].off
    {
      assert g != f;
    }
  }

  lemma {:induction false} StaysOrderly(z: Scan, n: nat, ch: char)
    requires z.state != DeadUrl && Orderly(z, n) && UrlChar(z.state, ch) != DeadUrl
    ensures Orderly(ScanStep(z, n, ch), n + 1)
  {
    var s := UrlChar(z.state, ch);
    LevelsRise(z.state, ch);
    if FieldOf(s).Some? {
      var f := FieldOf(s).value;
      RankIsLevel(s);
      var x := if z.last == Some(f) then Span(z.fields[f].off, z.fields[f].len + 1) else Span(n, 1);
      assert z.last == Some(f) ==> FieldOf(z.state) == Some(f);
      assert z.last != Some(f) ==> f !in z.fields;
      FieldAtEnd(z.fields, f, x, n);
    }
  }

  lemma RankIsLevel(s: State)
    requires FieldOf(s).Some?
    ensures Rank(FieldOf(s).value) == Level(s) && FieldOf(s).value != PORT && FieldOf(s).value != USERINFO
  {
  }

  /** A state never falls behind; a field's state is entered from a lower level or from itself. */
  lemma LevelsRise(s: State, ch: char)
    requires s != DeadUrl && UrlChar(s, ch) != DeadUrl
    ensures var t := UrlChar(s, ch);
      Level(s) <= Level(t) && (FieldOf(t).Some? ==> Level(s) < Level(t) || FieldOf(s) == FieldOf(t))
  {
  }

  lemma AliveBefore(buf: string, connect: bool, n: nat)
    requires n < |buf| && ScanTo(buf, connect, n + 1).state != DeadUrl
    ensures var z := ScanTo(buf, connect, n);
      z.state != DeadUrl && UrlChar(z.state, buf[n]) != DeadUrl && ScanTo(buf, connect, n + 1) == ScanStep(z, n, buf[n])
  {
  }

  lemma {:induction false} ScanIsOrderly(buf: string, connect: bool, n: nat)
    requires n <= |buf| && ScanTo(buf, connect, n).state != DeadUrl
    ensures Orderly(ScanTo(buf, connect, n), n)
    decreases n
  {
    if n > 0 {
      AliveBefore(buf, connect, n - 1);
      ScanIsOrderly(buf, connect, n - 1);
      StaysOrderly(ScanTo(buf, connect, n - 1), n - 1, buf[n - 1]);
    }
  }

  // ---------------------------------------------------------------- what stands between the fields

  /** The delimiters that were read. */
  ghost predicate Delimited(buf: string, n: nat, z: Scan)
    requires n <= |buf|
  {
    && Placed(buf, z.fields)
    && (z.state == QueryStart ==> n > 0 && buf[n - 1] == '?')
    && (z.state == FragmentStart ==> n > 0 && buf[n - 1] == '#')
  }

  lemma DelimitedField(buf: string, n: nat, z: Scan, s: State, f: Field)
    requires n < |buf| && Orderly(z, n) && Delimited(buf, n, z)
    requires s == UrlChar(z.state, buf[n]) && z.state != DeadUrl && FieldOf(s) == Some(f)
    requires Level(z.state) < Level(s)
    ensures Placed(buf, z.fields[f := Span(n, 1)])
  {
    RankIsLevel(s);
  }

  /** Only where a field begins matters for what stands around it. */
  lemma PlacedGrows(buf: string, fs: Fields, f: Field)
    requires Placed(buf, fs) && f in fs
    ensures Placed(buf, fs[f := Longer(fs[f])])
  {
  }

  lemma MarkIsRead(s: State, ch: char)
    ensures UrlChar(s, ch) == QueryStart ==> ch == '?'
    ensures UrlChar(s, ch) == FragmentStart ==> ch == '#'
  {
  }

  lemma {:induction false} StaysDelimited(buf: string, n: nat, z: Scan)
    requires n < |buf| && z.state != DeadUrl && Orderly(z, n) && Delimited(buf, n, z)
    requires UrlChar(z.state, buf[n]) != DeadUrl
    ensures Delimited(buf, n + 1, ScanStep(z, n, buf[n]))
  {
    hide UrlChar, SchemaEnds, Level, Rank;
    var s := UrlChar(z.state, buf[n]);
    MarkIsRead(z.state, buf[n]);
    LevelsRise(z.state, buf[n]);
    if FieldOf(s).Some? {
      var f := FieldOf(s).value;
      if z.last != Some(f) { DelimitedField(buf, n, z, s, f); } else { PlacedGrows(buf, z.fields, f); }
    }
  }

  /** What was read of a schema and its delimiter. */
  ghost predicate SchemaRead(buf: string, n: nat, z: Scan)
    requires n <= |buf|
  {
    && (z.state == SpacesBeforeUrl ==> n == 0 && SCHEMA !in z.fields)
    && (SCHEMA in z.fields ==> z.fields[SCHEMA].off == 0)
    && (z.state == SchemaSlash ==> SCHEMA in z.fields && z.fields[SCHEMA].End() + 1 == n && buf[n - 1] == ':')
    && (z.state == SchemaSlashSlash ==>
          SCHEMA in z.fields && z.fields[SCHEMA].End() + 2 == n && buf[n - 2] == ':' && buf[n - 1] == '/')
    && (SCHEMA in z.fields && z.state != Schema && z.state != SchemaSlash && z.state != SchemaSlashSlash ==>
          SchemaEnds(buf, z.fields[SCHEMA]))
  }

  lemma SchemaBegins(buf: string, n: nat, z: Scan)
    requires n < |buf| && Orderly(z, n) && SchemaRead(buf, n, z)
    requires z.state in {SpacesBeforeUrl, Schema, SchemaSlash, SchemaSlashSlash} && UrlChar(z.state, buf[n]) != DeadUrl
    ensures SchemaRead(buf, n + 1, ScanStep(z, n, buf[n]))
  {
    if z.state == SchemaSlashSlash {
      var e := z.fields[SCHEMA].End();
      assert buf[e..e + 3] == "://";
    }
  }

  lemma SchemaIsOver(buf: string, n: nat, z: Scan)
    requires n < |buf| && Orderly(z, n) && SchemaRead(buf, n, z)
    requires Level(z.state) > 0 || z.state == ServerStart
    requires z.state != DeadUrl && UrlChar(z.state, buf[n]) != DeadUrl
    ensures SchemaRead(buf, n + 1, ScanStep(z, n, buf[n]))
  {
    var s := UrlChar(z.state, buf[n]);
    LevelsRise(z.state, buf[n]);
    if FieldOf(s).Some? { RankIsLevel(s); }
  }

  lemma {:induction false} StaysRead(buf: string, n: nat, z: Scan)
    requires n < |buf| && z.state != DeadUrl && Orderly(z, n) && SchemaRead(buf, n, z)
    requires UrlChar(z.state, buf[n]) != DeadUrl
    ensures SchemaRead(buf, n + 1, ScanStep(z, n, buf[n]))
  {
    if z.state in {SpacesBeforeUrl, Schema, SchemaSlash, SchemaSlashSlash} {
      SchemaBegins(buf, n, z);
    } else {
      SchemaIsOver(buf, n, z);
    }
  }

  lemma {:induction false} ScanIsDelimited(buf: string, connect: bool, n: nat)
    requires n <= |buf| && ScanTo(buf, connect, n).state != DeadUrl
    ensures var z := ScanTo(buf, connect, n); Delimited(buf, n, z) && SchemaRead(buf, n, z)
    decreases n
  {
    if n > 0 {
      AliveBefore(buf, connect, n - 1);
      ScanIsDelimited(buf, connect, n - 1);
      ScanIsOrderly(buf, connect, n - 1);
      StaysDelimited(buf, n - 1, ScanTo(buf, connect, n - 1));
      StaysRead(buf, n - 1, ScanTo(buf, connect, n - 1));
    }
  }

  // ---------------------------------------------------------------- the server part

  predicate AllDigits(buf: string, s: Span) {
    s.End() <= |buf| && forall i :: s.off <= i < s.End() ==> IsNum(buf[i])
  }

  /** The user, the host and the port so far, in this order between `from` and n. */
  ghost predicate HostInv(buf: string, from: nat, n: nat, h: HostScan)
    requires from <= n <= |buf|
  {
    && (h.user.Some? ==> from <= h.user.value.off && h.user.value.len > 0 && h.user.value.End() <= n)
    && (h.user.Some? && h.state != UserInfo ==> h.user.value.End() < n && buf[h.user.value.End()] == '@')
    && (h.state == UserInfo ==> h.user.Some? && h.user.value.End() == n)
    && (h.state == UserInfoStart ==> h.user.None?)
    && (h.state in {UserInfoStart, UserInfo, HostStart, V6Start} ==> h.host.len == 0)
    && (h.state in {Host, V6, V6ZoneStart, V6Zone} ==> h.host.End() == n)
    && (h.state in {V6End, PortStart} ==> h.host.End() + 1 <= n)
    && (h.state in {Host, V6, V6ZoneStart, V6Zone, V6End, PortStart, Port} ==>
          h.host.len > 0 && from <= h.host.off && (h.user.Some? ==> h.user.value.End() < h.host.off))
    && (h.state == PortStart ==> buf[n - 1] == ':')
    && (h.state == Port <==> h.port.Some?)
    && (h.state == Port ==>
          var t := h.port.value;
          t.len > 0 && t.End() == n && h.host.End() < t.off && buf[t.off - 1] == ':' && AllDigits(buf, t))
  }

  lemma {:induction false} StaysHost(buf: string, from: nat, n: nat, h: HostScan)
    requires from <= n < |buf| && HostInv(buf, from, n, h) && h.state != DeadHost
    requires HostChar(h.state, buf[n]) != DeadHost
    ensures HostInv(buf, from, n + 1, HostStep(h, n, buf[n]))
  {
  }

  lemma {:induction false} HostIsRead(buf: string, from: nat, foundAt: bool, n: nat)
    requires from <= n <= |buf| && HostTo(buf, from, foundAt, n).state != DeadHost
    ensures HostInv(buf, from, n, HostTo(buf, from, foundAt, n))
    decreases n
  {
    if n > from {
      HostIsRead(buf, from, foundAt, n - 1);
      StaysHost(buf, from, n - 1, HostTo(buf, from, foundAt, n - 1));
    }
  }

  // ---------------------------------------------------------------- the result

  /** Non-empty fields inside the buffer, in the order schema, userinfo, host, port, path, query, fragment, each with
      its delimiters around it. */
  ghost predicate WellSplit(buf: string, fs: Fields) {
    && Inside(fs, |buf|) && InOrder(fs) && Placed(buf, fs)
    && (SCHEMA in fs ==> SchemaEnds(buf, fs[SCHEMA]) && HOST in fs)
    && (USERINFO in fs ==> HOST in fs && fs[USERINFO].End() < |buf| && buf[fs[USERINFO].End()] == '@')
    && (PORT in fs ==> HOST in fs && Behind(buf, fs[PORT], ':') && AllDigits(buf, fs[PORT]))
  }

  /** A field may be narrowed, or put between its neighbours. */
  lemma PutBetween(fs: Fields, f: Field, x: Span, n: nat)
    requires Inside(fs, n) && InOrder(fs) && x.len > 0 && x.End() <= n
    requires forall g :: g in fs && Rank(g) < Rank(f) ==> fs[g].End() <= x.off
    requires forall g :: g in fs && Rank(f) < Rank(g) ==> x.End() <= fs[g].off
    ensures Inside(fs[f := x], n) && InOrder(fs[f := x])
  {
  }

  /** The user, the host and the port in this order between o and e. */
  predicate Within(h: HostScan, o: nat, e: nat) {
    && h.host.len > 0 && o <= h.host.off && h.host.End() <= e
    && (h.port.Some? ==> h.port.value.len > 0 && h.host.End() <= h.port.value.off && h.port.value.End() <= e)
    && (h.user.Some? ==> h.user.value.len > 0 && o <= h.user.value.off && h.user.value.End() <= h.host.off)
  }

  lemma FinishedIsWithin(buf: string, o: nat, e: nat, h: HostScan)
    requires o <= e <= |buf| && HostInv(buf, o, e, h) && h.state != DeadHost && !Unfinished(h.state)
    ensures Within(h, o, e)
    ensures h.user.Some? ==> h.user.value.End() < |buf| && buf[h.user.value.End()] == '@'
    ensures h.port.Some? ==> Behind(buf, h.port.value, ':') && AllDigits(buf, h.port.value)
  {
    assert h.state in {Host, V6End, Port};
  }

  /** The host, its port and its user take the place of the server part. */
  lemma HostFieldsOrder(fs: Fields, h: HostScan, n: nat)
    requires Inside(fs, n) && InOrder(fs) && HOST in fs && PORT !in fs && USERINFO !in fs
    requires Within(h, fs[HOST].off, fs[HOST].End())
    ensures Inside(HostFields(fs, h), n) && InOrder(HostFields(fs, h))
  {
    var a := fs[HOST := h.host];
    PutBetween(fs, HOST, h.host, n);
    var b := if h.port.Some? then a[PORT := h.port.value] else a;
    forall g | g in fs && g != HOST ensures Rank(g) < 1 || Rank(g) > 3 { }
    if h.port.Some? { PutBetween(a, PORT, h.port.value, n); }
    if h.user.Some? { PutBetween(b, USERINFO, h.user.value, n); }
  }

  /** When the parser succeeds, what it set is well split, the port is the value of its digits, and a CONNECT target
      is a host and a port. */
  lemma {:induction false} ParsedIsWellSplit(buf: string, connect: bool)
    ensures Parse(buf, connect).Some? ==>
      var u := Parse(buf, connect).value;
      && WellSplit(buf, u.fields) && u.port <= 65535
      && u.port == (if PORT in u.fields then Decimal(buf[u.fields[PORT].off..u.fields[PORT].End()]) else 0)
      && (connect ==> u.fields.Keys == {HOST, PORT})
  {
    if AllFields(buf, connect).Some? { FieldsAreWellSplit(buf, connect); }
  }

  lemma ServerIsWellSplit(buf: string, z: Scan, h: HostScan)
    requires Orderly(z, |buf|) && Delimited(buf, |buf|, z) && SchemaRead(buf, |buf|, z) && HOST in z.fields
    requires Within(h, z.fields[HOST].off, z.fields[HOST].End())
    requires h.user.Some? ==> h.user.value.End() < |buf| && buf[h.user.value.End()] == '@'
    requires h.port.Some? ==> Behind(buf, h.port.value, ':') && AllDigits(buf, h.port.value)
    ensures WellSplit(buf, HostFields(z.fields, h))
  {
    hide InOrder, Inside, Rank, Level, StartsPath, SchemaEnds, AllDigits, Within;
    PastTheHost(z, |buf|);
    HostFieldsOrder(z.fields, h, |buf|);
  }

  lemma PastTheHost(z: Scan, n: nat)
    requires Orderly(z, n) && HOST in z.fields
    ensures Level(z.state) >= 2 && PORT !in z.fields && USERINFO !in z.fields
    ensures z.state !in {SpacesBeforeUrl, Schema, SchemaSlash, SchemaSlashSlash, ServerStart}
  {
    assert Rank(HOST) <= Level(z.state);
  }

  lemma {:induction false} FieldsAreWellSplit(buf: string, connect: bool)
    requires AllFields(buf, connect).Some?
    ensures WellSplit(buf, AllFields(buf, connect).value)
  {
    var z := ScanTo(buf, connect, |buf|);
    ScanIsOrderly(buf, connect, |buf|);
    ScanIsDelimited(buf, connect, |buf|);
    if HOST in z.fields {
      var server := z.fields[HOST];
      var h := HostTo(buf, server.off, z.foundAt, server.End());
      HostIsRead(buf, server.off, z.foundAt, server.End());
      FinishedIsWithin(buf, server.off, server.End(), h);
      ServerIsWellSplit(buf, z, h);
    }
  }

  // ---------------------------------------------------------------- the code

  lemma {:induction false} DeadForever(buf: string, connect: bool, n: nat, m: nat)
    requires n <= m <= |buf| && ScanTo(buf, connect, n).state == DeadUrl
    ensures ScanTo(buf, connect, m).state == DeadUrl
    decreases m
  {
    if n < m { DeadForever(buf, connect, n, m - 1); }
  }

  lemma {:induction false} DeadHostForever(buf: string, from: nat, at: bool, n: nat, m: nat)
    requires from <= n <= m <= |buf| && HostTo(buf, from, at, n).state == DeadHost
    ensures HostTo(buf, from, at, m).state == DeadHost
    decreases m
  {
    if n < m { DeadHostForever(buf, from, at, n, m - 1); }
  }

  lemma HostStepState(h: HostScan, p: nat, ch: char)
    ensures HostStep(h, p, ch).state == HostChar(h.state, ch)
  {
  }

  lemma PortAndUserRead(buf: string, from: nat, n: nat, h: HostScan)
    requires from <= n <= |buf| && HostInv(buf, from, n, h)
    ensures (h.state == Port ==> h.port.Some?) && (h.state == UserInfo ==> h.user.Some?)
  {
  }

  class UrlParts {
    var fields: Fields
    var port: nat

    constructor ()
      ensures fields == map[] && port == 0
    {
      fields, port := map[], 0;
    }

    /** Takes note of one byte of the server part, which leads from state s to state t. */
    method NoteHostByte(s: HostState, t: HostState, p: nat, ghost was: Fields, ghost h: HostScan, ghost ch: char)
      requires HOST in was && PORT !in was && USERINFO !in was && fields == HostFields(was, h)
      requires s == h.state && t == HostChar(s, ch)
      requires (s == Port ==> h.port.Some?) && (s == UserInfo ==> h.user.Some?)
      modifies this`fields
      ensures fields == HostFields(was, HostStep(h, p, ch))
    {
      match t {
        case Host | V6 =>
          fields := fields[HOST := Span(if s != t then p else fields[HOST].off, fields[HOST].len + 1)];
        case V6ZoneStart | V6Zone =>
          fields := fields[HOST := Longer(fields[HOST])];
        case Port =>
          if s != Port { fields := fields[PORT := Span(p, 0)]; }
          fields := fields[PORT := Longer(fields[PORT])];
        case UserInfo =>
          if s != UserInfo { fields := fields[USERINFO := Span(p, 0)]; }
          fields := fields[USERINFO := Longer(fields[USERINFO])];
        case _ =>
      }
    }

    /** Reads the server part again, for its user, host and port. */
    method ParseHost(buf: string, foundAt: bool) returns (bad: bool)
      requires HOST in fields && PORT !in fields && USERINFO !in fields && fields[HOST].End() <= |buf|
      modifies this`fields
      ensures var server := old(fields)[HOST];
        var h := HostTo(buf, server.off, foundAt, server.End());
        && bad == (h.state == DeadHost || Unfinished(h.state))
        && (!bad ==> fields == HostFields(old(fields), h))
    {
      hide HostChar, HostStep, HostInv;
      ghost var was := fields;
      var from, len := fields[HOST].off, fields[HOST].End();
      fields := fields[HOST := Span(from, 0)];
      var s := if foundAt then UserInfoStart else HostStart;
      var p := from;
      while p < len
        invariant from <= p <= len && s != DeadHost
        invariant var h := HostTo(buf, from, foundAt, p); s == h.state && fields == HostFields(was, h)
      {
        var t := HostChar(s, buf[p]);
        HostStepState(HostTo(buf, from, foundAt, p), p, buf[p]);
        if t == DeadHost {
          DeadHostForever(buf, from, foundAt, p + 1, len);
          return true;
        }
        HostIsRead(buf, from, foundAt, p);
        PortAndUserRead(buf, from, p, HostTo(buf, from, foundAt, p));
        NoteHostByte(s, t, p, was, HostTo(buf, from, foundAt, p), buf[p]);
        s := t;
        p := p + 1;
      }
      bad := Unfinished(s);
    }

    /** The port's digits as a number; `bad` if it is over 65535. */
    method ReadPort(buf: string) returns (v: nat, bad: bool)
      requires PORT in fields && AllDigits(buf, fields[PORT])
      ensures var d := Decimal(buf[fields[PORT].off..fields[PORT].End()]); bad == (d > 0xffff) && (!bad ==> v == d)
    {
      v := 0;
      var off, end := fields[PORT].off, fields[PORT].End();
      ghost var digits := buf[off..end];
      var p := off;
      while p < end
        invariant off <= p <= end && v == Decimal(digits[..p - off]) <= 0xffff
      {
        assert digits[..p + 1 - off][..p - off] == digits[..p - off];
        v := v * 10;
        v := v + (buf[p] as int - '0' as int);
        p := p + 1;
        if v > 0xffff {
          PrefixIsSmaller(digits, p - off);
          return v, true;
        }
      }
      assert digits[..end - off] == digits;
      bad := false;
    }

    /** Takes note of the byte at place p, which leads to state s. */
    method NoteByte(s: State, last: Option<Field>, p: nat) returns (newLast: Option<Field>)
      requires last.Some? ==> last.value in fields
      modifies this`fields
      ensures newLast.Some? ==> newLast.value in fields
      ensures newLast == (if FieldOf(s).Some? then FieldOf(s) else last)
      ensures fields == Noted(old(fields), last, FieldOf(s), p)
    {
      var uf := FieldOf(s);
      newLast := last;
      if uf.Some? {
        var f := uf.value;
        if uf == last {
          fields := fields[f := Longer(fields[f])];
        } else {
          fields := fields[f := Span(p, 1)];
          newLast := uf;
        }
      }
    }

    /** The first pass. */
    method ScanFields(buf: string, connect: bool) returns (foundAt: bool, bad: bool)
      modifies this`fields
      ensures var z := ScanTo(buf, connect, |buf|);
        bad == (z.state == DeadUrl) && (!bad ==> fields == z.fields && foundAt == z.foundAt)
    {
      var s := if connect then ServerStart else SpacesBeforeUrl;
      var last: Option<Field> := None;
      fields, foundAt := map[], false;
      var p := 0;
      while p < |buf|
        invariant last.Some? ==> last.value in fields
        invariant p <= |buf| && s != DeadUrl && ScanTo(buf, connect, p) == Scan(s, fields, last, foundAt)
      {
        ghost var z := Scan(s, fields, last, foundAt);
        assert ScanTo(buf, connect, p + 1) == ScanStep(z, p, buf[p]);
        s := UrlChar(s, buf[p]);
        if s == DeadUrl {
          DeadForever(buf, connect, p + 1, |buf|);
          return foundAt, true;
        }
        ghost var y := ScanStep(z, p, buf[p]);
        if s == ServerWithAt {
          foundAt := true;
        }
        last := NoteByte(s, last, p);
        assert y == Scan(s, fields, last, foundAt);
        p := p + 1;
      }
      bad := false;
    }

    /** Splits a URL of at most 65535 bytes, the most that offsets can count. */
    method ParseUrl(buf: string, connect: bool) returns (bad: bool)
      requires |buf| <= 0xffff
      modifies this
      ensures bad == Parse(buf, connect).None?
      ensures !bad ==> Parse(buf, connect) == Some(Url(fields, port)) && WellSplit(buf, fields) && port <= 0xffff
    {
      ParsedIsWellSplit(buf, connect);
      port := 0;
      var foundAt;
      foundAt, bad := ScanFields(buf, connect);
      if bad {
        return;
      }
      if SCHEMA in fields && HOST !in fields {
        return true;
      }
      ScanIsOrderly(buf, connect, |buf|);
      if HOST in fields {
        bad := ParseHost(buf, foundAt);
        if bad {
          return;
        }
      }
      FieldsAreWellSplit(buf, connect);
      if connect && fields.Keys != {HOST, PORT} {
        return true;
      }
      if PORT in fields {
        var v;
        v, bad := ReadPort(buf);
        if bad {
          return;
        }
        port := v;
      }
    }
  }
}
