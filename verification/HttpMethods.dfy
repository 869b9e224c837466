/** Matching the method of a request in place. */
module HttpMethods {
  import opened Basics

  datatype Method =
    DELETE | GET | HEAD | POST | PUT | CONNECT | OPTIONS | TRACE | COPY | LOCK | MKCOL | MOVE | PROPFIND | PROPPATCH
  | SEARCH | UNLOCK | BIND | REBIND | UNBIND | ACL | REPORT | MKACTIVITY | CHECKOUT | MERGE | MSEARCH | NOTIFY
  | SUBSCRIBE | UNSUBSCRIBE | PATCH | PURGE | MKCALENDAR | LINK | UNLINK | SOURCE

  function Name(m: Method): string {
    match m
    case DELETE => "DELETE" case GET => "GET" case HEAD => "HEAD" case POST => "POST" case PUT => "PUT"
    case CONNECT => "CONNECT" case OPTIONS => "OPTIONS" case TRACE => "TRACE" case COPY => "COPY" case LOCK => "LOCK"
    case MKCOL => "MKCOL" case MOVE => "MOVE" case PROPFIND => "PROPFIND" case PROPPATCH => "PROPPATCH"
    case SEARCH => "SEARCH" case UNLOCK => "UNLOCK" case BIND => "BIND" case REBIND => "REBIND" case UNBIND => "UNBIND"
    case ACL => "ACL" case REPORT => "REPORT" case MKACTIVITY => "MKACTIVITY" case CHECKOUT => "CHECKOUT"
    case MERGE => "MERGE" case MSEARCH => "M-SEARCH" case NOTIFY => "NOTIFY" case SUBSCRIBE => "SUBSCRIBE"
    case UNSUBSCRIBE => "UNSUBSCRIBE" case PATCH => "PATCH" case PURGE => "PURGE" case MKCALENDAR => "MKCALENDAR"
    case LINK => "LINK" case UNLINK => "UNLINK" case SOURCE => "SOURCE"
  }

  /** Where the matcher stands. */
  datatype Matcher = Waiting | Matching(current: Method, index: nat) | Matched(current: Method) | Invalid

  /** The method a first letter stands for until more is known. */
  function Guess(ch: char): Option<Method> {
    match ch
    case 'A' => Some(ACL) case 'B' => Some(BIND) case 'C' => Some(CONNECT) case 'D' => Some(DELETE)
    case 'G' => Some(GET) case 'H' => Some(HEAD) case 'L' => Some(LOCK) case 'M' => Some(MKCOL)
    case 'N' => Some(NOTIFY) case 'O' => Some(OPTIONS) case 'P' => Some(POST) case 'R' => Some(REPORT)
    case 'S' => Some(SUBSCRIBE) case 'T' => Some(TRACE) case 'U' => Some(UNLOCK)
    case _ => None
  }

  /** Another method that agrees so far, when a letter does not fit the current one. */
  function Switched(m: Method, index: nat, ch: char): Option<Method> {
    match (m, index, ch)
    case (POST, 1, 'U') => Some(PUT)
    case (POST, 1, 'A') => Some(PATCH)
    case (POST, 1, 'R') => Some(PROPFIND)
    case (PUT, 2, 'R') => Some(PURGE)
    case (CONNECT, 1, 'H') => Some(CHECKOUT)
    case (CONNECT, 2, 'P') => Some(COPY)
    case (MKCOL, 1, 'O') => Some(MOVE)
    case (MKCOL, 1, 'E') => Some(MERGE)
    case (MKCOL, 1, '-') => Some(MSEARCH)
    case (MKCOL, 2, 'A') => Some(MKACTIVITY)
    case (MKCOL, 3, 'A') => Some(MKCALENDAR)
    case (SUBSCRIBE, 1, 'E') => Some(SEARCH)
    case (SUBSCRIBE, 1, 'O') => Some(SOURCE)
    case (REPORT, 2, 'B') => Some(REBIND)
    case (PROPFIND, 4, 'P') => Some(PROPPATCH)
    case (LOCK, 1, 'I') => Some(LINK)
    case (UNLOCK, 2, 'S') => Some(UNSUBSCRIBE)
    case (UNLOCK, 2, 'B') => Some(UNBIND)
    case (UNLOCK, 3, 'I') => Some(UNLINK)
    case _ => None
  }

  /** The character at a place of a name; behind the last there is a zero. */
  function At(m: Method, index: nat): char
    requires index <= |Name(m)|
  {
    if index < |Name(m)| then Name(m)[index] else 0 as char
  }

  /** The index is within the name, its terminator included. */
  predicate InName(s: Matcher) {
    s.Matching? ==> s.index <= |Name(s.current)|
  }

  function Step(s: Matcher, ch: char): (z: Matcher)
    requires InName(s)
    ensures InName(z)
  {
    match s
    case Waiting =>
      if ch == '\r' || ch == '\n' then Waiting
      else (match Guess(ch)
            case None => Invalid
            case Some(m) => GuessFits(ch); Matching(m, 1))
    case Matching(m, i) =>
      if ch == 0 as char then Invalid
      else if ch == ' ' && At(m, i) == 0 as char then Matched(m)
      else if ch == At(m, i) then Matching(m, i + 1)
      else if 'A' <= ch <= 'Z' || ch == '-' then
        (match Switched(m, i, ch)
         case None => Invalid
         case Some(n) => SwitchFits(m, i, ch); Matching(n, i + 1))
      else Invalid
    case _ => s
  }

  function Run(s: Matcher, text: string): (z: Matcher)
    requires InName(s)
    ensures InName(z)
  {
    if text == [] then s else Step(Run(s, text[..|text| - 1]), text[|text| - 1])
  }

  lemma GuessFits(ch: char)
    ensures match Guess(ch) case None => true case Some(m) => Name(m) != [] && Name(m)[0] == ch
  {
  }

  /** n agrees with m in what was read, and goes on with ch. */
  predicate Agrees(m: Method, n: Method, i: nat, ch: char) {
    i < |Name(m)| && i < |Name(n)| && Name(n)[..i] == Name(m)[..i] && Name(n)[i] == ch
  }

  lemma SwitchFitsPost(m: Method, i: nat, ch: char)
    requires m.POST? || m.PUT? || m.PROPFIND? || m.CONNECT?
    ensures Switched(m, i, ch).Some? ==> Agrees(m, Switched(m, i, ch).value, i, ch)
  {
  }

  lemma SwitchFitsMkcol(i: nat, ch: char)
    ensures Switched(MKCOL, i, ch).Some? ==> Agrees(MKCOL, Switched(MKCOL, i, ch).value, i, ch)
  {
  }

  lemma SwitchFitsUnlock(i: nat, ch: char)
    ensures Switched(UNLOCK, i, ch).Some? ==> Agrees(UNLOCK, Switched(UNLOCK, i, ch).value, i, ch)
  {
  }

  lemma SwitchFitsLock(i: nat, ch: char)
    ensures Switched(LOCK, i, ch).Some? ==> Agrees(LOCK, Switched(LOCK, i, ch).value, i, ch)
  {
  }

  lemma SwitchFitsRest(m: Method, i: nat, ch: char)
    requires m.SUBSCRIBE? || m.REPORT?
    ensures Switched(m, i, ch).Some? ==> Agrees(m, Switched(m, i, ch).value, i, ch)
  {
  }

  /** Every switch is to a method that has been read so far, the new letter included. */
  lemma SwitchFits(m: Method, i: nat, ch: char)
    ensures Switched(m, i, ch).Some? ==> Agrees(m, Switched(m, i, ch).value, i, ch)
  {
    if m.POST? || m.PUT? || m.PROPFIND? || m.CONNECT? { SwitchFitsPost(m, i, ch); }
    if m.MKCOL? { SwitchFitsMkcol(i, ch); }
    if m.LOCK? { SwitchFitsLock(i, ch); }
    if m.SUBSCRIBE? || m.REPORT? { SwitchFitsRest(m, i, ch); }
    if m.UNLOCK? { SwitchFitsUnlock(i, ch); }
  }

  /** The matcher has read `text`: the first `index` characters of the current method's name. */
  predicate HasRead(s: Matcher, text: string) {
    match s
    case Waiting => false
    case Matching(m, i) => i == |text| && i <= |Name(m)| && text == Name(m)[..i]
    case _ => true
  }

  lemma StepReads(s: Matcher, text: string, ch: char)
    requires s.Matching? && HasRead(s, text)
    ensures HasRead(Step(s, ch), text + [ch])
  {
    var m, i := s.current, s.index;
    SwitchFits(m, i, ch);
    if ch != 0 as char && ch == At(m, i) {
      assert Name(m)[..i + 1] == text + [ch];
    } else if Switched(m, i, ch).Some? {
      var n := Switched(m, i, ch).value;
      assert Name(n)[..i + 1] == text + [ch];
    }
  }

  /** While the matcher is at work, what it has read is the first `index` characters of the current method's name. */
  lemma {:induction false} ReadSoFar(text: string)
    requires |text| > 0 && text[0] != '\r' && text[0] != '\n'
    ensures HasRead(Run(Waiting, text), text)
    decreases |text|
  {
    var before, ch := text[..|text| - 1], text[|text| - 1];
    assert text == before + [ch];
    if |text| == 1 {
      assert Run(Waiting, before) == Waiting;
      GuessFits(ch);
    } else {
      ReadSoFar(before);
      if Run(Waiting, before).Matching? { StepReads(Run(Waiting, before), before, ch); }
    }
  }

  /** The method the matcher holds after k characters of the name of t. */
  function Route(t: Method, k: nat): Method {
    match t
    case CHECKOUT => if k < 2 then CONNECT else t
    case COPY => if k < 3 then CONNECT else t
    case MOVE => if k < 2 then MKCOL else t
    case MERGE => if k < 2 then MKCOL else t
    case MSEARCH => if k < 2 then MKCOL else t
    case MKACTIVITY => if k < 3 then MKCOL else t
    case MKCALENDAR => if k < 4 then MKCOL else t
    case SEARCH => if k < 2 then SUBSCRIBE else t
    case SOURCE => if k < 2 then SUBSCRIBE else t
    case REBIND => if k < 3 then REPORT else t
    case PUT => if k < 2 then POST else t
    case PATCH => if k < 2 then POST else t
    case PURGE => if k < 2 then POST else if k < 3 then PUT else t
    case PROPFIND => if k < 2 then POST else t
    case PROPPATCH => if k < 2 then POST else if k < 5 then PROPFIND else t
    case LINK => if k < 2 then LOCK else t
    case UNSUBSCRIBE => if k < 3 then UNLOCK else t
    case UNBIND => if k < 3 then UNLOCK else t
    case UNLINK => if k < 4 then UNLOCK else t
    case _ => t
  }

  lemma RouteStarts(t: Method)
    ensures Name(t) != [] && Guess(Name(t)[0]) == Some(Route(t, 1)) && Name(t)[0] != '\r' && Name(t)[0] != '\n'
  {
  }

  /** A name holds capital letters and one dash. */
  lemma NameChars(t: Method, k: nat)
    requires k < |Name(t)|
    ensures 'A' <= Name(t)[k] <= 'Z' || Name(t)[k] == '-'
  {
  }

  lemma RouteStays(t: Method, k: nat)
    requires 1 <= k < |Name(t)| && Route(t, k) == t
    ensures Name(t)[k] == At(t, k) && Route(t, k + 1) == t
  {
  }

  lemma RouteTurns(t: Method, k: nat)
    requires 1 <= k < |Name(t)| && Route(t, k) != t
    ensures k <= |Name(Route(t, k))|
    ensures var m := Route(t, k);
      if Name(t)[k] == At(m, k) then Route(t, k + 1) == m else Switched(m, k, Name(t)[k]) == Some(Route(t, k + 1))
  {
  }

  lemma RouteGoesOn(t: Method, k: nat)
    requires 1 <= k < |Name(t)|
    ensures k <= |Name(Route(t, k))|
    ensures var m := Route(t, k);
      if Name(t)[k] == At(m, k) then Route(t, k + 1) == m else Switched(m, k, Name(t)[k]) == Some(Route(t, k + 1))
  {
    hide Route, Switched, Name, At;
    if Route(t, k) == t { RouteStays(t, k); } else { RouteTurns(t, k); }
  }

  /** The name of t leads to t. */
  lemma {:induction false} NameIsMatched(t: Method, k: nat)
    requires 1 <= k <= |Name(t)|
    ensures Run(Waiting, Name(t)[..k]) == Matching(Route(t, k), k)
    decreases k
  {
    var text := Name(t)[..k];
    RouteStarts(t);
    if k == 1 {
      assert text[..0] == [];
      assert Run(Waiting, text[..0]) == Waiting;
    } else {
      assert text[..k - 1] == Name(t)[..k - 1];
      NameIsMatched(t, k - 1);
      RouteGoesOn(t, k - 1);
      NameChars(t, k - 1);
    }
  }

  lemma RouteEnds(t: Method)
    ensures Route(t, |Name(t)|) == t
  {
  }

  /** The matcher accepts exactly the strings of the method table. */
  lemma {:induction false} AcceptsExactly(text: string, t: Method)
    requires ' ' !in text && (text == [] || (text[0] != '\r' && text[0] != '\n'))
    ensures Run(Waiting, text + [' ']) == Matched(t) <==> text == Name(t)
  {
    hide Name, Switched, Guess, Route;
    var z := text + [' '];
    assert z[..|z| - 1] == text;
    if text != [] { ReadSoFar(text); }
    if text == Name(t) {
      RouteStarts(t);
      NameIsMatched(t, |text|);
      assert text[..|text|] == text;
      RouteEnds(t);
    }
    if Run(Waiting, z) == Matched(t) {
      NotMatchedYet(text);
      var s := Run(Waiting, text);
      assert s.Matching? && At(s.current, s.index) == 0 as char;
      NoZeroInside(s.current, s.index);
    }
  }

  /** The words that are accepted, and the method that each of them stands for. */
  lemma {:induction false} AcceptedWords(text: string, t: Method)
    requires ' ' !in text && (text == [] || (text[0] != '\r' && text[0] != '\n'))
    ensures Run(Waiting, text + [' ']) == Matched(t) <==> (t, text) in {
        (DELETE, "DELETE"), (GET, "GET"), (HEAD, "HEAD"), (POST, "POST"), (PUT, "PUT"), (CONNECT, "CONNECT"),
        (OPTIONS, "OPTIONS"), (TRACE, "TRACE"), (COPY, "COPY"), (LOCK, "LOCK"), (MKCOL, "MKCOL"),
        (MOVE, "MOVE"), (PROPFIND, "PROPFIND"), (PROPPATCH, "PROPPATCH"), (SEARCH, "SEARCH"),
        (UNLOCK, "UNLOCK"), (BIND, "BIND"), (REBIND, "REBIND"), (UNBIND, "UNBIND"), (ACL, "ACL"),
        (REPORT, "REPORT"), (MKACTIVITY, "MKACTIVITY"), (CHECKOUT, "CHECKOUT"), (MERGE, "MERGE"),
        (MSEARCH, "M-SEARCH"), (NOTIFY, "NOTIFY"), (SUBSCRIBE, "SUBSCRIBE"), (UNSUBSCRIBE, "UNSUBSCRIBE"),
        (PATCH, "PATCH"), (PURGE, "PURGE"), (MKCALENDAR, "MKCALENDAR"), (LINK, "LINK"), (UNLINK, "UNLINK"),
        (SOURCE, "SOURCE") }
  {
    hide Run, Route, Switched, Guess;
    AcceptsExactly(text, t);
  }

  /** Line ends in front of a request change nothing. */
  lemma {:induction false} BlankLinesAreSkipped(blank: string, text: string)
    requires forall i :: 0 <= i < |blank| ==> blank[i] == '\r' || blank[i] == '\n'
    ensures Run(Waiting, blank + text) == Run(Waiting, text)
    decreases |text|, |blank|
  {
    hide Switched, Guess, Name;
    var z := blank + text;
    if text != [] {
      assert z[..|z| - 1] == blank + text[..|text| - 1];
      BlankLinesAreSkipped(blank, text[..|text| - 1]);
    } else if blank != [] {
      assert z[..|z| - 1] == blank[..|blank| - 1] + text;
      BlankLinesAreSkipped(blank[..|blank| - 1], text);
    } else {
      assert z == text;
    }
  }

  lemma NoZeroInside(m: Method, i: nat)
    requires i <= |Name(m)| && At(m, i) == 0 as char
    ensures i == |Name(m)| && Name(m)[..i] == Name(m)
  {
    if i < |Name(m)| { NameChars(m, i); }
  }

  lemma {:induction false} NotMatchedYet(text: string)
    requires ' ' !in text
    ensures !Run(Waiting, text).Matched?
    decreases |text|
  {
    if text != [] {
      var before := text[..|text| - 1];
      assert text == before + [text[|text| - 1]];
      NotMatchedYet(before);
    }
  }

  predicate AtWork(s: Matcher) {
    s.Waiting? || s.Matching?
  }

  lemma RunNothing(s: Matcher, data: string)
    requires InName(s)
    ensures Run(s, data[..0]) == s
  {
  }

  lemma RunMore(s: Matcher, data: string, n: nat)
    requires InName(s) && n < |data|
    ensures Run(s, data[..n + 1]) == Step(Run(s, data[..n]), data[n])
  {
    assert data[..n + 1][..n] == data[..n];
  }

  datatype Phase = AtStart | InMethod | BehindMethod | Failed

  class RequestReader {
    var phase: Phase
    var current: Method
    var index: nat

    function State(): Matcher
      reads this
    {
      match phase
      case AtStart => Waiting
      case InMethod => Matching(current, index)
      case BehindMethod => Matched(current)
      case Failed => Invalid
    }

    constructor ()
      ensures State() == Waiting
    {
      phase, current, index := AtStart, DELETE, 0;
    }

    method First(ch: char)
      requires phase == AtStart
      modifies this
      ensures State() == Step(Waiting, ch)
    {
      if ch == '\r' || ch == '\n' {
        return;
      }
      match Guess(ch) {
        case None =>
          phase := Failed;
        case Some(m) =>
          current, index := m, 1;
          phase := InMethod;
      }
    }

    method Next(ch: char)
      requires phase == InMethod && InName(State())
      modifies this
      ensures State() == Step(old(State()), ch)
    {
      if ch == 0 as char {
        phase := Failed;
        return;
      }
      if ch == ' ' && At(current, index) == 0 as char {
        phase := BehindMethod;
      } else if ch == At(current, index) {
      } else if 'A' <= ch <= 'Z' || ch == '-' {
        match Switched(current, index, ch) {
          case None =>
            phase := Failed;
            return;
          case Some(m) =>
            current := m;
        }
      } else {
        phase := Failed;
        return;
      }
      index := index + 1;
    }

    /** Reads bytes until the method is known or cannot be one, and not one byte more. The matcher keeps its place
        between calls. */
    method Execute(data: string) returns (n: nat)
      requires InName(State())
      modifies this
      ensures n <= |data| && InName(State()) && State() == Run(old(State()), data[..n])
      ensures n < |data| ==> State().Matched? || State().Invalid?
      ensures forall k :: 0 <= k < n ==> AtWork(Run(old(State()), data[..k]))
    {
      hide Step, Run, Name;
      n := 0;
      RunNothing(State(), data);
      while n < |data| && (phase == AtStart || phase == InMethod)
        invariant n <= |data| && InName(State()) && State() == Run(old(State()), data[..n])
        invariant forall k :: 0 <= k < n ==> AtWork(Run(old(State()), data[..k]))
      {
        RunMore(old(State()), data, n);
        if phase == AtStart {
          First(data[n]);
        } else {
          Next(data[n]);
        }
        n := n + 1;
      }
    }
  }
}
