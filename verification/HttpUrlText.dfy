/** Taking an accepted URL apart: the texts that are accepted are exactly those that can be put together from parts. */
module HttpUrlTexts {
  import opened Basics
  import opened HttpDigits
  import opened HttpUrls
  import opened HttpUrlParts

  // ---------------------------------------------------------------- the first pass

  /** The characters of a text up to the first that is not of a kind. */
  function RunOf(ok: char -> bool, text: string): (n: nat)
    ensures n <= |text| && (n < |text| ==> !ok(text[n])) && forall i :: 0 <= i < n ==> ok(text[i])
  {
    if text == [] || !ok(text[0]) then 0 else 1 + RunOf(ok, text[1..])
  }

  /** A text that stays alive in a state whose characters are `ok`, up to the first that is not. */
  lemma {:induction false} GoSpan(s: State, ok: char -> bool, text: string)
    requires forall c :: ok(c) ==> UrlChar(s, c) == s
    ensures var n := RunOf(ok, text); Go(s, text) == Go(s, text[n..])
    decreases |text|
  {
    hide UrlChar;
    if text != [] && ok(text[0]) {
      GoSpan(s, ok, text[1..]);
      assert UrlChar(s, text[0]) == s;
      assert text[1..][RunOf(ok, text[1..])..] == text[RunOf(ok, text)..];
    }
  }

  /** In a text that stays alive the first character leads to a live state. */
  lemma FirstLives(s: State, text: string)
    requires text != [] && Go(s, text) != DeadUrl
    ensures UrlChar(s, text[0]) != DeadUrl && Go(UrlChar(s, text[0]), text[1..]) != DeadUrl
  {
    if UrlChar(s, text[0]) == DeadUrl { DeadStays(text[1..]); }
  }

  predicate IsHash(c: char) { c == '#' }

  /** Behind a hash. */
  lemma {:induction false} HashSplit(text: string) returns (n: nat, fragment: string)
    requires Go(FragmentStart, text) != DeadUrl
    ensures text == Hashes(n) + fragment && (fragment != [] ==> fragment[0] != '#')
    ensures forall i :: 0 <= i < |fragment| ==> FragmentChar(fragment[i])
  {
    n := RunOf(IsHash, text);
    fragment := text[n..];
    GoSpan(FragmentStart, IsHash, text);
    AllHashes(text[..n]);
    assert text == text[..n] + fragment;
    if fragment != [] {
      FirstLives(FragmentStart, fragment);
      FragmentSplit(fragment);
    }
  }

  lemma {:induction false} FragmentSplit(text: string)
    requires text != [] && text[0] != '#' && UrlChar(FragmentStart, text[0]) != DeadUrl
    requires Go(UrlChar(FragmentStart, text[0]), text[1..]) != DeadUrl
    ensures forall i :: 0 <= i < |text| ==> FragmentChar(text[i])
  {
    var rest := text[1..];
    assert UrlChar(FragmentStart, text[0]) == Fragment && FragmentChar(text[0]);
    GoSpan(Fragment, FragmentChar, rest);
    var k := RunOf(FragmentChar, rest);
    if k < |rest| {
      assert rest[k..][0] == rest[k];
      FirstLives(Fragment, rest[k..]);
    }
    forall i | 0 <= i < |text| ensures FragmentChar(text[i]) { if i > 0 { assert text[i] == rest[i - 1]; } }
  }

  lemma {:induction false} AllHashes(s: string)
    requires forall i :: 0 <= i < |s| ==> s[i] == '#'
    ensures s == Hashes(|s|)
    decreases |s|
  {
    if s != [] {
      AllHashes(s[1..]);
      assert s == [s[0]] + s[1..];
    }
  }

  /** A query and what follows it. */
  lemma {:induction false} QuerySplit(text: string) returns (query: string, n: nat, fragment: string)
    requires Go(QueryStart, text) != DeadUrl
    ensures text == query + (Hashes(n) + fragment) && forall i :: 0 <= i < |query| ==> QueryChar(query[i])
    ensures fragment != [] ==> fragment[0] != '#' && n > 0
    ensures forall i :: 0 <= i < |fragment| ==> FragmentChar(fragment[i])
  {
    hide UrlChar, QueryChar, FragmentChar, Go, Hashes;
    var k := RunOf(QueryChar, text);
    query, n, fragment := text[..k], 0, [];
    QueryGoes(text);
    assert text == query + text[k..];
    if k < |text| {
      var s := if k == 0 then QueryStart else Query;
      assert text[k..][0] == text[k];
      FirstLives(s, text[k..]);
      QueryLeads(s, text[k]);
      n, fragment := HashMarkSplit(text[k..]);
    }
  }

  /** What begins with a hash. */
  lemma {:induction false} HashMarkSplit(text: string) returns (n: nat, fragment: string)
    requires text != [] && text[0] == '#' && Go(FragmentStart, text[1..]) != DeadUrl
    ensures text == Hashes(n) + fragment && n > 0 && (fragment != [] ==> fragment[0] != '#')
    ensures forall i :: 0 <= i < |fragment| ==> FragmentChar(fragment[i])
  {
    hide FragmentChar, Go, Hashes;
    var m;
    m, fragment := HashSplit(text[1..]);
    n := m + 1;
    assert text == ['#'] + text[1..];
    HashesMore(m);
    Regroup(['#'], Hashes(m), fragment);
  }

  lemma HashesMore(m: nat)
    ensures Hashes(m + 1) == ['#'] + Hashes(m)
  {
  }

  lemma QueryLeads(s: State, c: char)
    requires (s == QueryStart || s == Query) && !QueryChar(c) && UrlChar(s, c) != DeadUrl
    ensures c == '#' && UrlChar(s, c) == FragmentStart
  {
  }

  lemma PathLeads(c: char)
    requires !IsUrl(c) && UrlChar(Path, c) != DeadUrl
    ensures (c == '?' && UrlChar(Path, c) == QueryStart) || (c == '#' && UrlChar(Path, c) == FragmentStart)
  {
  }

  lemma PathGoes(text: string)
    ensures Go(Path, text) == Go(Path, text[RunOf(IsUrl, text)..])
  {
    GoSpan(Path, IsUrl, text);
  }

  lemma QueryGoes(text: string)
    ensures var k := RunOf(QueryChar, text); Go(QueryStart, text) == Go(if k == 0 then QueryStart else Query, text[k..])
  {
    var k := RunOf(QueryChar, text);
    if k == 0 {
      assert text[0..] == text;
    } else {
      GoSpan(Query, QueryChar, text[1..]);
      assert UrlChar(QueryStart, text[0]) == Query;
      assert text[1..][RunOf(QueryChar, text[1..])..] == text[k..];
    }
  }

  /** The rest of a path and what follows it. */
  lemma {:induction false} PathSplit(text: string) returns (path: string, q: Option<string>, n: nat, fragment: string)
    requires Go(Path, text) != DeadUrl
    ensures text == path + QueryText(q) + (Hashes(n) + fragment) && forall i :: 0 <= i < |path| ==> IsUrl(path[i])
    ensures q.Some? ==> forall i :: 0 <= i < |q.value| ==> QueryChar(q.value[i])
    ensures fragment != [] ==> fragment[0] != '#' && n > 0
    ensures forall i :: 0 <= i < |fragment| ==> FragmentChar(fragment[i])
  {
    hide UrlChar, IsUrl, QueryChar, FragmentChar, Go, Hashes;
    var k := RunOf(IsUrl, text);
    path, q, n, fragment := text[..k], None, 0, [];
    PathGoes(text);
    assert text == path + text[k..];
    if k < |text| {
      assert text[k..][0] == text[k];
      FirstLives(Path, text[k..]);
      PathLeads(text[k]);
      q, n, fragment := MarkSplit(text[k..]);
      Regroup(path, QueryText(q), Hashes(n) + fragment);
    }
  }

  /** What begins with a question mark or a hash. */
  lemma {:induction false} MarkSplit(text: string) returns (q: Option<string>, n: nat, fragment: string)
    requires text != [] && (text[0] == '?' || text[0] == '#')
    requires Go(if text[0] == '?' then QueryStart else FragmentStart, text[1..]) != DeadUrl
    ensures text == QueryText(q) + (Hashes(n) + fragment) && (q.Some? <==> text[0] == '?')
    ensures q.Some? ==> forall i :: 0 <= i < |q.value| ==> QueryChar(q.value[i])
    ensures fragment != [] ==> fragment[0] != '#' && n > 0
    ensures forall i :: 0 <= i < |fragment| ==> FragmentChar(fragment[i])
  {
    assert text == [text[0]] + text[1..];
    if text[0] == '?' {
      var query;
      query, n, fragment := QuerySplit(text[1..]);
      q := Some(query);
      Regroup(['?'], query, Hashes(n) + fragment);
    } else {
      q := None;
      n, fragment := HashMarkSplit(text);
    }
  }

  /** A path that follows a server part. */
  lemma {:induction false} SlashSplit(text: string) returns (path: string, q: Option<string>, n: nat, fragment: string)
    requires text != [] && text[0] == '/' && Go(Path, text[1..]) != DeadUrl
    ensures text == path + QueryText(q) + (Hashes(n) + fragment) && path != [] && path[0] == '/'
    ensures forall i :: 0 <= i < |path| ==> IsUrl(path[i])
    ensures q.Some? ==> forall i :: 0 <= i < |q.value| ==> QueryChar(q.value[i])
    ensures fragment != [] ==> fragment[0] != '#' && n > 0
    ensures forall i :: 0 <= i < |fragment| ==> FragmentChar(fragment[i])
  {
    hide UrlChar, QueryChar, FragmentChar, Hashes, Go;
    path, q, n, fragment := PathSplit(text[1..]);
    assert text == ['/'] + text[1..];
    Regroup3('/', path, QueryText(q), Hashes(n) + fragment);
    path := ['/'] + path;
  }

  lemma GoFirst(s: State, c: char, t: string)
    ensures Go(s, [c] + t) == Go(UrlChar(s, c), t)
  {
    assert ([c] + t)[1..] == t;
  }

  /** The server part, as far as the first pass sees it, and what follows it. */
  lemma {:induction false} ServerSplit(s: State, text: string)
    returns (t: string, path: string, q: Option<string>, n: nat, fragment: string)
    requires (s == ServerStart || ServerState(s)) && Go(s, text) != DeadUrl
    ensures text == t + (path + QueryText(q) + (Hashes(n) + fragment))
    ensures (if t == [] then Go(s, t) == s else ServerState(Go(s, t)))
    ensures (path != [] ==> path[0] == '/') && (n > 0 ==> path != [] || q.Some?)
    ensures forall i :: 0 <= i < |path| ==> IsUrl(path[i])
    ensures q.Some? ==> forall i :: 0 <= i < |q.value| ==> QueryChar(q.value[i])
    ensures fragment != [] ==> fragment[0] != '#' && n > 0
    ensures forall i :: 0 <= i < |fragment| ==> FragmentChar(fragment[i])
    decreases |text|
  {
    hide UrlChar, IsUrl, QueryChar, FragmentChar, Hashes;
    t, path, q, n, fragment := [], [], None, 0, [];
    if text != [] {
      var c, rest := text[0], text[1..];
      assert text == [c] + rest;
      FirstLives(s, text);
      ServerLeads(s, c);
      if c == '/' {
        path, q, n, fragment := SlashSplit(text);
      } else if c == '?' {
        q, n, fragment := MarkSplit(text);
      } else {
        t, path, q, n, fragment := ServerSplit(UrlChar(s, c), rest);
        Regroup([c], t, path + QueryText(q) + (Hashes(n) + fragment));
        GoFirst(s, c, t);
        t := [c] + t;
      }
    }
  }

  lemma ServerLeads(s: State, c: char)
    requires (s == ServerStart || ServerState(s)) && UrlChar(s, c) != DeadUrl
    ensures if c == '/' then UrlChar(s, c) == Path else if c == '?' then UrlChar(s, c) == QueryStart
            else ServerState(UrlChar(s, c))
  {
  }

  lemma Regroup3(c: char, a: string, b: string, d: string)
    ensures [c] + (a + b + d) == ([c] + a) + b + d
  {
  }

  // ---------------------------------------------------------------- the second pass

  predicate Done(s: HostState) {
    s != DeadHost && !Unfinished(s)
  }

  lemma HostFirstLives(s: HostState, text: string)
    requires text != [] && Done(HostGo(s, text))
    ensures HostChar(s, text[0]) != DeadHost && Done(HostGo(HostChar(s, text[0]), text[1..]))
  {
    if HostChar(s, text[0]) == DeadHost { DeadHostStays(text[1..]); }
  }

  lemma {:induction false} HostGoSpan(s: HostState, ok: char -> bool, text: string)
    requires forall c :: ok(c) ==> HostChar(s, c) == s
    ensures var n := RunOf(ok, text); HostGo(s, text) == HostGo(s, text[n..])
    decreases |text|
  {
    hide HostChar;
    if text != [] && ok(text[0]) {
      HostGoSpan(s, ok, text[1..]);
      assert HostChar(s, text[0]) == s;
      assert text[1..][RunOf(ok, text[1..])..] == text[RunOf(ok, text)..];
    }
  }

  /** The first character, and as many as stay in a state. */
  lemma {:induction false} HostRun(s: HostState, t: HostState, ok: char -> bool, text: string) returns (k: nat)
    requires text != [] && HostChar(s, text[0]) == t && ok(text[0]) && forall c :: ok(c) ==> HostChar(t, c) == t
    ensures 0 < k <= |text| && HostGo(s, text) == HostGo(t, text[k..]) && (k < |text| ==> !ok(text[k]))
    ensures forall i :: 0 <= i < k ==> ok(text[i])
  {
    var rest := text[1..];
    k := 1 + RunOf(ok, rest);
    HostGoSpan(t, ok, rest);
    assert rest[RunOf(ok, rest)..] == text[k..];
    forall i | 0 <= i < k ensures ok(text[i]) { if i > 0 { assert text[i] == rest[i - 1]; } }
    if k < |text| { assert text[k] == rest[k - 1]; }
  }

  /** What may follow a host: nothing, or a colon and a port. */
  lemma {:induction false} PortSplit(s: HostState, text: string) returns (port: string)
    requires (s == Host || s == V6End) && Done(HostGo(s, text)) && (s == Host && text != [] ==> !IsHost(text[0]))
    ensures text == Marked(':', port) && forall i :: 0 <= i < |port| ==> IsNum(port[i])
  {
    port := [];
    if text != [] {
      HostFirstLives(s, text);
      port := text[1..];
      assert text == [':'] + port;
      assert HostGo(PortStart, []) == PortStart;
      if port != [] {
        HostFirstLives(PortStart, port);
        var k := HostRun(PortStart, Port, IsNum, port);
        if k < |port| {
          assert port[k..][0] == port[k];
          HostFirstLives(Port, port[k..]);
        }
      }
    }
  }

  lemma {:induction false} NameSplit(text: string) returns (name: string, port: string)
    requires text != [] && IsHost(text[0]) && Done(HostGo(HostStart, text))
    ensures text == name + Marked(':', port) && name != []
    ensures (forall i :: 0 <= i < |name| ==> IsHost(name[i])) && forall i :: 0 <= i < |port| ==> IsNum(port[i])
  {
    var k := HostRun(HostStart, Host, IsHost, text);
    name := text[..k];
    assert text == name + text[k..] && (k < |text| ==> text[k..][0] == text[k]);
    port := PortSplit(Host, text[k..]);
  }

  /** Behind an address or a zone: the closing bracket, and what may follow it. */
  lemma {:induction false} BracketSplit(s: HostState, text: string) returns (port: string)
    requires (s == V6 || s == V6Zone) && text != [] && text[0] == ']' && Done(HostGo(s, text))
    ensures text == [']'] + Marked(':', port) && forall i :: 0 <= i < |port| ==> IsNum(port[i])
  {
    HostFirstLives(s, text);
    assert text == [']'] + text[1..];
    port := PortSplit(V6End, text[1..]);
  }

  lemma {:induction false} ZoneSplit(text: string) returns (zone: string, port: string)
    requires Done(HostGo(V6ZoneStart, text))
    ensures text == zone + [']'] + Marked(':', port) && zone != []
    ensures (forall i :: 0 <= i < |zone| ==> IsZone(zone[i])) && forall i :: 0 <= i < |port| ==> IsNum(port[i])
  {
    assert text != [];
    HostFirstLives(V6ZoneStart, text);
    var k := HostRun(V6ZoneStart, V6Zone, IsZone, text);
    zone := text[..k];
    assert text == zone + text[k..];
    assert HostGo(V6Zone, []) == V6Zone && text[k..] != [];
    HostFirstLives(V6Zone, text[k..]);
    assert text[k..][0] == text[k];
    port := BracketSplit(V6Zone, text[k..]);
    Regroup(zone, [']'], Marked(':', port));
  }

  lemma {:induction false} AddressSplit(text: string) returns (addr: string, zone: string, port: string)
    requires Done(HostGo(V6Start, text))
    ensures text == addr + Marked('%', zone) + [']'] + Marked(':', port) && HostOk(Bracketed(addr, zone))
    ensures forall i :: 0 <= i < |port| ==> IsNum(port[i])
  {
    hide HostChar, AddressChar, IsZone, IsNum, HostGo, Marked;
    var k := AddressRun(text);
    addr := text[..k];
    assert text == addr + text[k..];
    zone, port := AddressEnd(text[k..]);
    Regroup4(addr, Marked('%', zone), [']'], Marked(':', port));
  }

  lemma Regroup4(a: string, b: string, c: string, d: string)
    ensures a + (b + c + d) == a + b + c + d
  {
  }

  /** The characters of an address. */
  lemma {:induction false} AddressRun(text: string) returns (k: nat)
    requires Done(HostGo(V6Start, text))
    ensures 0 < k <= |text| && Done(HostGo(V6, text[k..])) && (k < |text| ==> !AddressChar(text[k]))
    ensures forall i :: 0 <= i < k ==> AddressChar(text[i])
  {
    assert text != [];
    HostFirstLives(V6Start, text);
    k := HostRun(V6Start, V6, AddressChar, text);
  }

  lemma V6Leads(c: char)
    requires !AddressChar(c) && HostChar(V6, c) != DeadHost
    ensures c == ']' || (c == '%' && HostChar(V6, c) == V6ZoneStart)
  {
  }

  /** A zone if there is one, the closing bracket, and what may follow it. */
  lemma {:induction false} AddressEnd(text: string) returns (zone: string, port: string)
    requires Done(HostGo(V6, text)) && (text != [] ==> !AddressChar(text[0]))
    ensures text == Marked('%', zone) + [']'] + Marked(':', port)
    ensures (forall i :: 0 <= i < |zone| ==> IsZone(zone[i])) && forall i :: 0 <= i < |port| ==> IsNum(port[i])
  {
    hide HostChar, AddressChar, IsZone, IsNum;
    assert text != [];
    HostFirstLives(V6, text);
    V6Leads(text[0]);
    zone := [];
    if text[0] == '%' {
      zone, port := ZoneSplit(text[1..]);
      assert text == ['%'] + text[1..];
      Regroup3('%', zone, [']'], Marked(':', port));
    } else {
      port := BracketSplit(V6, text);
    }
  }

  lemma BracketedText(addr: string, zone: string, port: string)
    ensures ['['] + (addr + zone + [']'] + port) == ['['] + addr + zone + [']'] + port
  {
  }

  lemma HostStartLeads(c: char)
    requires HostChar(HostStart, c) != DeadHost
    ensures if c == '[' then HostChar(HostStart, c) == V6Start else IsHost(c)
  {
  }

  /** A host and what may follow it. */
  lemma {:induction false} HostSplit(text: string) returns (host: HostPart, port: string)
    requires Done(HostGo(HostStart, text))
    ensures text == HostText(host) + Marked(':', port) && HostOk(host) && forall i :: 0 <= i < |port| ==> IsNum(port[i])
  {
    hide HostChar, IsHost, AddressChar, IsNum, IsZone;
    assert text != [];
    HostFirstLives(HostStart, text);
    HostStartLeads(text[0]);
    if text[0] == '[' {
      var addr, zone;
      addr, zone, port := AddressSplit(text[1..]);
      host := Bracketed(addr, zone);
      assert text == ['['] + text[1..];
      BracketedText(addr, Marked('%', zone), Marked(':', port));
    } else {
      var name;
      name, port := NameSplit(text);
      host := Named(name);
    }
  }

  /** A user and what follows it. */
  lemma {:induction false} UserSplit(text: string) returns (user: string, rest: string)
    requires Done(HostGo(UserInfoStart, text))
    ensures text == user + ['@'] + rest && Done(HostGo(HostStart, rest))
    ensures forall i :: 0 <= i < |user| ==> IsUserInfo(user[i])
  {
    hide HostChar, IsUserInfo, HostGo;
    var s, k := UserRun(text);
    user := text[..k];
    assert text == user + text[k..];
    rest := AtSplit(s, text[k..]);
    Regroup(user, ['@'], rest);
  }

  lemma UserLeads(s: HostState, c: char)
    requires (s == UserInfo || s == UserInfoStart) && HostChar(s, c) != DeadHost
    ensures if c == '@' then HostChar(s, c) == HostStart else IsUserInfo(c) && HostChar(s, c) == UserInfo
  {
  }

  /** The characters of a user, if there are any. */
  lemma {:induction false} UserRun(text: string) returns (s: HostState, k: nat)
    requires Done(HostGo(UserInfoStart, text))
    ensures (s == UserInfo || s == UserInfoStart) && k <= |text| && Done(HostGo(s, text[k..]))
    ensures (k < |text| ==> text[k] == '@' || !IsUserInfo(text[k])) && forall i :: 0 <= i < k ==> IsUserInfo(text[i])
  {
    hide HostChar, IsUserInfo;
    assert text != [];
    s, k := UserInfoStart, 0;
    HostFirstLives(UserInfoStart, text);
    UserLeads(UserInfoStart, text[0]);
    if text[0] == '@' {
      assert text[0..] == text;
    } else {
      forall c | IsUserInfo(c) ensures HostChar(UserInfo, c) == UserInfo { UserChar(c); }
      k := HostRun(UserInfoStart, UserInfo, IsUserInfo, text);
      s := UserInfo;
    }
  }

  /** The at sign that ends a user. */
  lemma {:induction false} AtSplit(s: HostState, text: string) returns (rest: string)
    requires (s == UserInfo || s == UserInfoStart) && Done(HostGo(s, text))
    requires text != [] ==> text[0] == '@' || !IsUserInfo(text[0])
    ensures text == ['@'] + rest && Done(HostGo(HostStart, rest))
  {
    hide HostChar, IsUserInfo;
    assert text != [];
    HostFirstLives(s, text);
    UserLeads(s, text[0]);
    rest := text[1..];
    assert text == ['@'] + rest;
  }

  /** The whole server part. */
  lemma {:induction false} ServerPartSplit(foundAt: bool, text: string) returns (s: ServerPart)
    requires Done(HostGo(if foundAt then UserInfoStart else HostStart, text))
    ensures text == ServerText(s) && ServerOk(s)
  {
    var host, port;
    if foundAt {
      var user, rest := UserSplit(text);
      host, port := HostSplit(rest);
      s := ServerPart(Some(user), host, port);
      Regroup(user + ['@'], HostText(host), Marked(':', port));
    } else {
      host, port := HostSplit(text);
      s := ServerPart(None, host, port);
      assert [] + HostText(host) == HostText(host);
    }
  }

  // ---------------------------------------------------------------- both passes

  /** A text whose first pass goes over a server part is accepted only if that is one. */
  lemma {:induction false} BehindFront(buf: string, connect: bool, schema: string, t: string, u: Parts)
    returns (s: ServerPart)
    requires AllFields(buf, connect).Some?
    requires buf == schema + t + TailText(u) && TailOk(u) && !u.front.Nothing?
    requires t != [] && ServerState(Go(ServerStart, t))
    requires var z := ScanFrom(Initial(connect), 0, schema);
      z.state == ServerStart && z.last != Some(HOST) && !z.foundAt
    ensures t == ServerText(s) && ServerOk(s)
  {
    hide ScanFrom, ScanTo, Go, TailText, TailOk, TailPlaces, HostTo, HostFrom, HostGo, AllFields;
    var z0, o := ScanFrom(Initial(connect), 0, schema), |schema|;
    var z := Scan(Go(ServerStart, t), z0.fields[HOST := Span(o, |t|)], Some(HOST), '@' in t);
    ServerScanned(z0, o, t);
    Compose(Initial(connect), 0, schema, z0, t, z);
    ScanOf(buf, connect, schema + t, z, u);
    TailKeepsHost(z.fields, u, o + |t|);
    assert buf[o..o + |t|] == t;
    SecondPass(buf, o, t, '@' in t);
    var h := HostFrom(BeforeServer('@' in t, o), o, t);
    AllFieldsIs(buf, connect, ScanTo(buf, connect, |buf|), Span(o, |t|), h);
    HostGoIsFrom(BeforeServer('@' in t, o), o, t);
    s := ServerPartSplit('@' in t, t);
  }

  /** A pass forgets no field. */
  lemma {:induction false} FieldsStay(z: Scan, p: nat, text: string, f: Field)
    requires f in z.fields
    ensures f in ScanFrom(z, p, text).fields
    decreases |text|
  {
    hide UrlChar, FieldOf;
    if text != [] { FieldsStay(z, p, text[..|text| - 1], f); }
  }

  /** Before the server part, the state in front of it included. */
  predicate Early(s: State) {
    s in {SpacesBeforeUrl, Schema, SchemaSlash, SchemaSlashSlash, ServerStart}
  }

  lemma NoHostStep(z: Scan, p: nat, ch: char)
    requires HOST !in z.fields && !ServerState(UrlChar(z.state, ch))
    ensures HOST !in ScanStep(z, p, ch).fields
  {
  }

  lemma EarlyBefore(s: State, c: char)
    ensures Early(UrlChar(s, c)) ==> Early(s)
    ensures Early(s) ==> !ServerState(s)
  {
  }

  /** A text that does not get past the start of the server part has no host. */
  lemma {:induction false} NoHostEarly(z: Scan, p: nat, text: string)
    requires HOST !in z.fields && Early(ScanFrom(z, p, text).state)
    ensures HOST !in ScanFrom(z, p, text).fields
    decreases |text|
  {
    hide UrlChar, ScanStep, Early;
    if text != [] {
      var y, ch := ScanFrom(z, p, text[..|text| - 1]), text[|text| - 1];
      assert ScanFrom(z, p, text) == ScanStep(y, p + |text| - 1, ch);
      StepState(y, p + |text| - 1, ch);
      EarlyBefore(y.state, ch);
      EarlyBefore(UrlChar(y.state, ch), ch);
      NoHostEarly(z, p, text[..|text| - 1]);
      NoHostStep(y, p + |text| - 1, ch);
    }
  }

  lemma StepState(z: Scan, p: nat, ch: char)
    ensures ScanStep(z, p, ch).state == UrlChar(z.state, ch)
  {
  }

  /** Nor has one that is past it already. */
  lemma {:induction false} NoHostInTail(z: Scan, p: nat, text: string)
    requires HOST !in z.fields && InTail(z.state)
    ensures HOST !in ScanFrom(z, p, text).fields && InTail(ScanFrom(z, p, text).state)
    decreases |text|
  {
    hide UrlChar, ScanStep;
    if text != [] {
      var y, ch := ScanFrom(z, p, text[..|text| - 1]), text[|text| - 1];
      assert ScanFrom(z, p, text) == ScanStep(y, p + |text| - 1, ch);
      NoHostInTail(z, p, text[..|text| - 1]);
      StepState(y, p + |text| - 1, ch);
      LateStays(y.state, ch);
      NoHostStep(y, p + |text| - 1, ch);
    }
  }

  lemma ScanNone(z: Scan, p: nat)
    ensures ScanFrom(z, p, []) == z
  {
  }

  lemma {:induction false} NoServerNoHost(z: Scan, p: nat, text: string)
    requires z.state == ServerStart && HOST !in z.fields && (text == [] || text[0] == '/' || text[0] == '?')
    ensures HOST !in ScanFrom(z, p, text).fields
  {
    hide ScanStep, Fold;
    if text == [] {
      assert ScanFrom(z, p, text) == z by { ScanNone(z, p); }
    } else {
      var c, rest := text[0], text[1..];
      var y := ScanStep(z, p, c);
      StepState(z, p, c);
      assert text == [c] + rest;
      FoldInTwo(ScanStep, z, p, [c], rest);
      FoldOne(ScanStep, z, p, c);
      NoHostStep(z, p, c);
      NoHostInTail(y, p + 1, rest);
    }
  }

  lemma {:induction false} WholeScan(buf: string, connect: bool)
    ensures ScanTo(buf, connect, |buf|) == ScanFrom(Initial(connect), 0, buf)
    ensures ScanTo(buf, connect, |buf|).state == Go(Initial(connect).state, buf)
  {
    assert buf[..|buf|] == buf;
    assert ScanTo(buf, connect, 0) == Initial(connect);
    ScanToIsFrom(buf, connect, |buf|);
    GoIsScan(Initial(connect), 0, buf);
  }

  lemma SchemaFirst(c: char)
    requires IsAlpha(c)
    ensures SCHEMA in ScanStep(Initial(false), 0, c).fields
  {
  }

  lemma {:induction false} SchemaIsSet(buf: string)
    requires buf != [] && IsAlpha(buf[0])
    ensures SCHEMA in ScanTo(buf, false, |buf|).fields
  {
    hide UrlChar, ScanStep, IsAlpha, ScanTo, Go, Fold;
    WholeScan(buf, false);
    var z := ScanStep(Initial(false), 0, buf[0]);
    SchemaFirst(buf[0]);
    assert buf == [buf[0]] + buf[1..];
    FoldInTwo(ScanStep, Initial(false), 0, [buf[0]], buf[1..]);
    FoldOne(ScanStep, Initial(false), 0, buf[0]);
    FieldsStay(z, 1, buf[1..], SCHEMA);
  }

  /** With a schema the text must get past the start of the server part. */
  lemma {:induction false} NotEarly(buf: string)
    requires buf != [] && IsAlpha(buf[0]) && AllFields(buf, false).Some?
    ensures !Early(Go(SpacesBeforeUrl, buf)) && Go(SpacesBeforeUrl, buf) != DeadUrl
  {
    WholeScan(buf, false);
    SchemaIsSet(buf);
    if Early(Go(SpacesBeforeUrl, buf)) { NoHostEarly(Initial(false), 0, buf); }
  }

  lemma SchemaLeads(s: State, c: char)
    requires UrlChar(s, c) != DeadUrl
    ensures s == Schema && !IsAlpha(c) ==> c == ':' && UrlChar(s, c) == SchemaSlash
    ensures s == SchemaSlash ==> c == '/' && UrlChar(s, c) == SchemaSlashSlash
    ensures s == SchemaSlashSlash ==> c == '/' && UrlChar(s, c) == ServerStart
  {
  }

  /** Colon and slashes. */
  lemma {:induction false} SlashesSplit(text: string) returns (rest: string)
    requires Go(Schema, text) != DeadUrl && !Early(Go(Schema, text)) && (text != [] ==> !IsAlpha(text[0]))
    ensures text == "://" + rest && Go(ServerStart, rest) != DeadUrl
  {
    hide UrlChar, IsAlpha;
    assert text != [];
    var a := text[1..];
    FirstLives(Schema, text);
    SchemaLeads(Schema, text[0]);
    assert a != [];
    var b := a[1..];
    FirstLives(SchemaSlash, a);
    SchemaLeads(SchemaSlash, a[0]);
    assert b != [];
    FirstLives(SchemaSlashSlash, b);
    SchemaLeads(SchemaSlashSlash, b[0]);
    rest := b[1..];
    assert text == [text[0]] + ([a[0]] + ([b[0]] + rest));
  }

  lemma SchemaBegins(c: char)
    requires IsAlpha(c)
    ensures UrlChar(SpacesBeforeUrl, c) == Schema == UrlChar(Schema, c)
  {
  }

  /** The letters of a schema. */
  lemma {:induction false} SchemaRun(buf: string) returns (k: nat)
    requires buf != [] && IsAlpha(buf[0])
    ensures 0 < k <= |buf| && Go(SpacesBeforeUrl, buf) == Go(Schema, buf[k..])
    ensures (k < |buf| ==> !IsAlpha(buf[k])) && forall i :: 0 <= i < k ==> IsAlpha(buf[i])
  {
    hide UrlChar, IsAlpha;
    var rest := buf[1..];
    k := 1 + RunOf(IsAlpha, rest);
    SchemaBegins(buf[0]);
    forall c | IsAlpha(c) ensures UrlChar(Schema, c) == Schema { SchemaBegins(c); }
    GoSpan(Schema, IsAlpha, rest);
    assert rest[k - 1..] == buf[k..];
    forall i | 0 <= i < k ensures IsAlpha(buf[i]) { if i > 0 { assert buf[i] == rest[i - 1]; } }
    assert k < |buf| ==> buf[k] == rest[k - 1];
  }

  lemma {:induction false} SchemaSplit(buf: string) returns (schema: string, rest: string)
    requires buf != [] && IsAlpha(buf[0]) && AllFields(buf, false).Some?
    ensures buf == schema + "://" + rest && Go(ServerStart, rest) != DeadUrl
    ensures schema != [] && forall i :: 0 <= i < |schema| ==> IsAlpha(schema[i])
  {
    hide UrlChar, IsAlpha, Go, AllFields;
    NotEarly(buf);
    var k := SchemaRun(buf);
    schema := buf[..k];
    rest := SlashesSplit(buf[k..]);
    assert buf == schema + buf[k..];
    Regroup(schema, "://", rest);
  }

  lemma PathBegins(c: char)
    requires !IsAlpha(c) && UrlChar(SpacesBeforeUrl, c) != DeadUrl
    ensures (c == '/' || c == '*') && IsUrl(c) && UrlChar(SpacesBeforeUrl, c) == Path
  {
  }

  lemma {:induction false} OriginSplit(buf: string) returns (u: Parts)
    requires buf != [] && !IsAlpha(buf[0]) && Go(SpacesBeforeUrl, buf) != DeadUrl
    ensures PartsOk(u, false) && Assembled(u) == buf
  {
    hide UrlChar, IsUrl, IsAlpha, Go, QueryChar, FragmentChar;
    FirstLives(SpacesBeforeUrl, buf);
    PathBegins(buf[0]);
    var path, q, n, fragment := PathSplit(buf[1..]);
    u := Parts(Nothing, [buf[0]] + path, q, n, fragment);
    assert buf == [buf[0]] + buf[1..];
    Regroup3(buf[0], path, QueryText(q), Hashes(n) + fragment);
    assert FrontText(Nothing) + TailText(u) == TailText(u);
  }

  lemma {:induction false} AbsoluteSplit(buf: string) returns (u: Parts)
    requires buf != [] && IsAlpha(buf[0]) && AllFields(buf, false).Some?
    ensures PartsOk(u, false) && Assembled(u) == buf
  {
    hide ScanFrom, ScanTo, Go, AllFields, UrlChar, IsUrl, QueryChar, FragmentChar, HostOk, IsUserInfo;
    var schema, rest := SchemaSplit(buf);
    var t, path, q, n, fragment := ServerSplit(ServerStart, rest);
    var none := ServerPart(None, Named([]), []);
    u := Parts(Absolute(schema, none), path, q, n, fragment);
    SchemaScanned(schema);
    if t == [] {
      assert rest == TailText(u);
      NothingBeforeHost(buf, schema + "://", u, false);
      SchemaIsSet(buf);
      NoHostNoUrl(buf);
    }
    var s := BehindFront(buf, false, schema + "://", t, u) by { Regroup(schema + "://", t, TailText(u)); }
    u := u.(front := Absolute(schema, s));
    Regroup(schema + "://", t, TailText(u));
  }

  /** Without a server part there is no host. */
  lemma {:induction false} NothingBeforeHost(buf: string, front: string, u: Parts, connect: bool)
    requires buf == front + TailText(u) && TailOk(u) && !u.front.Nothing?
    requires var z := ScanFrom(Initial(connect), 0, front); z.state == ServerStart && HOST !in z.fields
    ensures HOST !in ScanTo(buf, connect, |buf|).fields
  {
    hide ScanFrom, ScanTo, Go;
    WholeScan(buf, connect);
    var z, t := ScanFrom(Initial(connect), 0, front), TailText(u);
    TailBegins(u);
    NoServerNoHost(z, |front|, t);
    Compose(Initial(connect), 0, front, z, t, ScanFrom(z, |front|, t));
  }

  lemma TailBegins(u: Parts)
    requires TailOk(u) && !u.front.Nothing?
    ensures var t := TailText(u); t == [] || t[0] == '/' || t[0] == '?'
  {
  }

  lemma NoHostNoUrl(buf: string)
    requires var fs := ScanTo(buf, false, |buf|).fields; SCHEMA in fs && HOST !in fs
    ensures AllFields(buf, false).None?
  {
  }

  lemma NoHostNoConnect(buf: string)
    requires HOST !in ScanTo(buf, true, |buf|).fields
    ensures Parse(buf, true).None?
  {
  }

  lemma {:induction false} AuthoritySplit(buf: string) returns (u: Parts)
    requires Parse(buf, true).Some?
    ensures PartsOk(u, true) && Assembled(u) == buf
  {
    assert AllFields(buf, true).Some?;
    WholeScan(buf, true);
    var t, path, q, n, fragment := ServerSplit(ServerStart, buf);
    u := AuthorityFound(buf, t, Parts(Authority(ServerPart(None, Named([]), [])), path, q, n, fragment));
  }

  lemma {:induction false} AuthorityFound(buf: string, t: string, v: Parts) returns (u: Parts)
    requires Parse(buf, true).Some? && AllFields(buf, true).Some? && TailOk(v) && v.front.Authority?
    requires buf == t + TailText(v) && (t != [] ==> ServerState(Go(ServerStart, t)))
    ensures PartsOk(u, true) && Assembled(u) == buf
  {
    hide ScanTo, Go, Parse, AllFields, UrlChar, IsUrl, QueryChar, FragmentChar, HostOk, IsUserInfo;
    assert ScanFrom(Initial(true), 0, []) == Initial(true);
    if t == [] {
      assert buf == [] + TailText(v);
      NothingBeforeHost(buf, [], v, true);
      NoHostNoConnect(buf);
    }
    assert buf == [] + t + TailText(v);
    var s := BehindFront(buf, true, [], t, v);
    u := v.(front := Authority(s));
  }

  /** Assembling undoes splitting: every text that is accepted is put together from well-formed parts. With the other
      direction: the URLs that are accepted are exactly those, and the fields are where the parts are. */
  lemma {:induction false} AcceptedIsAssembled(buf: string, connect: bool) returns (u: Parts)
    requires Parse(buf, connect).Some?
    ensures PartsOk(u, connect) && Assembled(u) == buf
    ensures Parse(buf, connect) == Some(Url(Places(u), Decimal(PortText(u))))
  {
    hide ScanTo, Go, Assembled, TailOk, FrontOk, Places;
    if connect {
      u := AuthoritySplit(buf);
    } else if buf == [] {
      u := EmptyUrl();
    } else if AlphaFirst(buf) {
      assert AllFields(buf, false).Some?;
      u := AbsoluteSplit(buf);
    } else {
      Alive(buf);
      u := OriginSplit(buf);
    }
    SplitUndoesAssembly(u, connect);
  }

  predicate AlphaFirst(buf: string) {
    buf != [] && IsAlpha(buf[0])
  }

  lemma EmptyUrl() returns (u: Parts)
    ensures PartsOk(u, false) && Assembled(u) == []
  {
    u := Parts(Nothing, [], None, 0, []);
  }

  lemma Alive(buf: string)
    requires Parse(buf, false).Some?
    ensures Go(SpacesBeforeUrl, buf) != DeadUrl
  {
    WholeScan(buf, false);
  }
}
