/** Reading the fields of a message, one after another or by searching for a tag. */
module FixTokens {
  import opened Basics
  import opened FixText
  import opened FixParsing
  import opened FixPrinting

  /** A field as it stands in a message. */
  datatype Pair = Pair(tag: nat, value: Bytes)

  predicate Canonical(f: Pair) {
    f.tag < 1_000_000_000 && SOH !in f.value
  }

  predicate AllCanonical(fs: seq<Pair>) {
    forall i :: 0 <= i < |fs| ==> Canonical(fs[i])
  }

  function Opening(tag: nat): Bytes {
    Digits(tag) + ['=']
  }

  function FieldText(f: Pair): Bytes {
    Opening(f.tag) + f.value + [SOH]
  }

  /** The fields one after another; the terminator of the last one may be missing. */
  function Rendered(fs: seq<Pair>, closed: bool): Bytes {
    if fs == [] then []
    else if |fs| == 1 && !closed then Opening(fs[0].tag) + fs[0].value
    else FieldText(fs[0]) + Rendered(fs[1..], closed)
  }

  // ---------------------------------------------------------------- string_view

  /** Whether pat stands at the front of s. */
  predicate Starts(s: Bytes, pat: Bytes) {
    pat <= s
  }

  /** The first place where pat occurs in s. */
  function Find(s: Bytes, pat: Bytes): (r: Option<nat>)
    ensures r.Some? ==> r.value + |pat| <= |s|
  {
    if Starts(s, pat) then Some(0)
    else if s == [] then None
    else match Find(s[1..], pat)
      case None => None
      case Some(i) => Some(i + 1)
  }

  function FindFrom(s: Bytes, pat: Bytes, from: nat): (r: Option<nat>)
    requires from <= |s|
    ensures r.Some? ==> r.value + |pat| <= |s|
  {
    match Find(s[from..], pat)
    case None => None
    case Some(i) => Some(from + i)
  }

  lemma {:induction false} FindMeaning(s: Bytes, pat: Bytes, i: nat)
    requires i <= |s| && Starts(s[i..], pat)
    ensures Find(s, pat).Some? && Find(s, pat).value <= i
    ensures Starts(s[Find(s, pat).value..], pat)
    decreases |s|
  {
    if Starts(s, pat) {
      assert s[0..] == s;
    } else {
      assert i > 0 by { assert s[0..] == s; }
      assert s[1..][i - 1..] == s[i..];
      FindMeaning(s[1..], pat, i - 1);
      var j := Find(s[1..], pat).value;
      assert s[1..][j..] == s[j + 1..];
    }
  }

  lemma {:induction false} NothingFound(s: Bytes, pat: Bytes, i: nat)
    requires Find(s, pat).None? && i <= |s|
    ensures !Starts(s[i..], pat)
    decreases |s|
  {
    if i == 0 {
      assert s[0..] == s;
    } else {
      assert s[1..][i - 1..] == s[i..];
      NothingFound(s[1..], pat, i - 1);
    }
  }

  /** A stretch without the pattern's first byte can be skipped. */
  lemma {:induction false} SkipTo(a: Bytes, b: Bytes, pat: Bytes)
    requires pat != [] && pat[0] !in a
    ensures Find(a + b, pat) == match Find(b, pat)
      case None => None
      case Some(i) => Some(|a| + i)
    decreases |a|
  {
    if a == [] {
      assert a + b == b;
    } else {
      assert (a + b)[1..] == a[1..] + b;
      assert (a + b)[0] == a[0];
      SkipTo(a[1..], b, pat);
    }
  }

  // ---------------------------------------------------------------- looking a tag up

  /** The value of the first field with a tag. */
  function Lookup(fs: seq<Pair>, tag: nat): Option<Bytes> {
    if fs == [] then None else if fs[0].tag == tag then Some(fs[0].value) else Lookup(fs[1..], tag)
  }

  /** Up to the next terminator, or to the end. */
  function ValueAt(s: Bytes): Bytes {
    match Find(s, [SOH])
    case None => s
    case Some(i) => s[..i]
  }

  /** The value behind the first occurrence of pat. */
  function ValueBehind(s: Bytes, pat: Bytes): Option<Bytes> {
    match Find(s, pat)
    case None => None
    case Some(q) => Some(ValueAt(s[q + |pat|..]))
  }

  lemma SkipBehind(a: Bytes, b: Bytes, pat: Bytes)
    requires pat != [] && pat[0] !in a
    ensures ValueBehind(a + b, pat) == ValueBehind(b, pat)
  {
    SkipTo(a, b, pat);
    match Find(b, pat)
    case None =>
    case Some(q) => assert (a + b)[|a| + q + |pat|..] == b[q + |pat|..];
  }

  lemma StepBehind(s: Bytes, pat: Bytes)
    requires s != [] && !Starts(s, pat)
    ensures ValueBehind(s, pat) == ValueBehind(s[1..], pat)
  {
    match Find(s[1..], pat)
    case None =>
    case Some(q) => assert s[1..][q + |pat|..] == s[q + 1 + |pat|..];
  }

  /** From place pos up to the next terminator, or to the end. */
  function ValueFrom(msg: Bytes, pos: nat): (v: Bytes)
    requires pos <= |msg|
    ensures v == ValueAt(msg[pos..])
  {
    match FindFrom(msg, [SOH], pos)
    case None => msg[pos..]
    case Some(end) => msg[pos..end]
  }

  lemma BehindByPlace(msg: Bytes, pat: Bytes, from: nat)
    requires from <= |msg|
    ensures ValueBehind(msg[from..], pat) ==
      match FindFrom(msg, pat, from)
      case None => None
      case Some(q) => Some(ValueFrom(msg, q + |pat|))
  {
    match Find(msg[from..], pat)
    case None =>
    case Some(i) => assert msg[from..][i + |pat|..] == msg[from + i + |pat|..];
  }

  /** What find_tag computes. */
  function TagSearch(msg: Bytes, tag: nat): Option<Bytes> {
    match Find(msg, ['='])
    case None => None
    case Some(p) =>
      if msg[..p + 1] == Opening(tag) then Some(ValueFrom(msg, p + 1))
      else match FindFrom(msg, [SOH] + Opening(tag), p + 1)
        case None => None
        case Some(q) => Some(ValueFrom(msg, q + |[SOH] + Opening(tag)|))
  }

  lemma {:induction false} OpeningHasNo(tag: nat)
    ensures '=' !in Digits(tag) && SOH !in Opening(tag)
  {
    DigitsAreDigits(tag);
  }

  /** The first equals sign behind a tag is the one that ends it. */
  lemma {:induction false} OpeningEnds(tag: nat, rest: Bytes)
    ensures Find(Opening(tag) + rest, ['=']) == Some(|Digits(tag)|)
  {
    OpeningHasNo(tag);
    SkipTo(Digits(tag), ['='] + rest, ['=']);
    assert Opening(tag) + rest == Digits(tag) + (['='] + rest);
    assert Starts(['='] + rest, ['=']);
  }

  /** Text that starts with one opening starts with no other. */
  lemma {:induction false} OpeningsApart(a: nat, b: nat, rest: Bytes)
    ensures Starts(Opening(a) + rest, Opening(b)) <==> a == b
  {
    var s := Opening(a) + rest;
    if Starts(s, Opening(b)) {
      var rest' := s[|Opening(b)|..];
      assert s == Opening(b) + rest';
      OpeningEnds(a, rest);
      OpeningEnds(b, rest');
      assert Digits(a) == s[..|Digits(a)|] == Digits(b);
      DigitsInjective(a, b);
    }
  }

  /** After its opening, a field's value reaches to its terminator. */
  lemma {:induction false} ValueOfFirst(v: Bytes, rest: Bytes)
    requires SOH !in v && (rest == [] || rest[0] == SOH)
    ensures ValueAt(v + rest) == v
  {
    SkipTo(v, rest, [SOH]);
    if rest == [] {
      assert v + rest == v;
      assert !Starts([], [SOH]);
    } else {
      assert Starts(rest, [SOH]);
    }
  }

  /** What stands behind a field's value. */
  function Behind(fs: seq<Pair>, closed: bool): Bytes
    requires fs != []
  {
    if |fs| == 1 && !closed then [] else [SOH] + Rendered(fs[1..], closed)
  }

  lemma {:induction false} Unrendered(fs: seq<Pair>, closed: bool)
    requires fs != []
    ensures Rendered(fs, closed) == Opening(fs[0].tag) + (fs[0].value + Behind(fs, closed))
  {
  }

  lemma TailCanonical(fs: seq<Pair>)
    requires fs != [] && AllCanonical(fs)
    ensures Canonical(fs[0]) && AllCanonical(fs[1..])
  {
  }

  lemma BehindThenRest(fs: seq<Pair>, closed: bool)
    requires fs != []
    ensures var b := Behind(fs, closed); Rendered(fs[1..], closed) == if b == [] then [] else b[1..]
  {
  }

  /** The search through the fields behind the first. */
  lemma {:induction false} SearchRest(fs: seq<Pair>, closed: bool, tag: nat)
    requires fs != [] && AllCanonical(fs)
    ensures ValueBehind(fs[0].value + Behind(fs, closed), [SOH] + Opening(tag)) == Lookup(fs[1..], tag)
    decreases |fs|
  {
    var pat, r := [SOH] + Opening(tag), Behind(fs, closed);
    assert Canonical(fs[0]);
    SkipBehind(fs[0].value, r, pat);
    if |fs| == 1 {
      NothingBehindLast(fs, closed, pat);
    } else {
      var gs := fs[1..];
      TailCanonical(fs);
      Unrendered(gs, closed);
      AtTerminator(gs[0], Behind(gs, closed), tag);
      if gs[0].tag != tag { SearchRest(gs, closed, tag); }
    }
  }

  lemma NothingBehindLast(fs: seq<Pair>, closed: bool, pat: Bytes)
    requires |fs| == 1 && |pat| > 1
    ensures ValueBehind(Behind(fs, closed), pat) == None
  {
    assert !Starts([], pat);
    assert Rendered(fs[1..], closed) == [];
    if closed {
      assert Behind(fs, closed) == [SOH];
      assert [SOH][1..] == [];
    }
  }

  lemma StartsBehind(c: Byte, a: Bytes, b: Bytes)
    ensures Starts([c] + a, [c] + b) <==> Starts(a, b)
  {
    assert ([c] + a)[1..] == a && ([c] + b)[1..] == b;
    assert |b| <= |a| ==> ([c] + a)[..|b| + 1] == [c] + a[..|b|];
  }

  /** The search at a terminator: it ends there if the next field has the tag, and goes on in its value if not. */
  lemma AtTerminator(f: Pair, rest: Bytes, tag: nat)
    requires Canonical(f) && (rest == [] || rest[0] == SOH)
    ensures ValueBehind([SOH] + (Opening(f.tag) + (f.value + rest)), [SOH] + Opening(tag)) ==
      if f.tag == tag then Some(f.value) else ValueBehind(f.value + rest, [SOH] + Opening(tag))
  {
    var w, pat := f.value + rest, [SOH] + Opening(tag);
    var s := [SOH] + (Opening(f.tag) + w);
    OpeningsApart(f.tag, tag, w);
    assert s[1..] == Opening(f.tag) + w;
    if f.tag == tag {
      assert Starts(s, pat);
      assert s[|pat|..] == w;
      ValueOfFirst(f.value, rest);
    } else {
      StartsBehind(SOH, Opening(f.tag) + w, Opening(tag));
      StepBehind(s, pat);
      OpeningHasNo(f.tag);
      SkipBehind(Opening(f.tag), w, pat);
    }
  }

  /** On messages of canonical fields the search finds the value of the first field with the tag, or nothing. */
  lemma {:induction false} SearchIsLookup(fs: seq<Pair>, closed: bool, tag: nat)
    requires AllCanonical(fs)
    ensures TagSearch(Rendered(fs, closed), tag) == Lookup(fs, tag)
  {
    if fs == [] {
      assert !Starts([], ['=']);
    } else {
      assert Canonical(fs[0]);
      Unrendered(fs, closed);
      SearchFirst(fs[0], Behind(fs, closed), tag);
      SearchRest(fs, closed, tag);
    }
  }

  lemma SearchFirst(f: Pair, rest: Bytes, tag: nat)
    requires Canonical(f) && (rest == [] || rest[0] == SOH)
    ensures TagSearch(Opening(f.tag) + (f.value + rest), tag) ==
      if f.tag == tag then Some(f.value) else ValueBehind(f.value + rest, [SOH] + Opening(tag))
  {
    hide Find, ValueAt, Digits;
    var w := f.value + rest;
    var msg := Opening(f.tag) + w;
    OpeningEnds(f.tag, w);
    assert msg[..|Digits(f.tag)| + 1] == Opening(f.tag) && msg[|Digits(f.tag)| + 1..] == w;
    OpeningsApart(f.tag, tag, []);
    assert Opening(f.tag) + [] == Opening(f.tag);
    ValueOfFirst(f.value, rest);
    BehindByPlace(msg, [SOH] + Opening(tag), |Digits(f.tag)| + 1);
  }

  lemma {:induction false} FirstFound(s: Bytes, pat: Bytes, i: nat)
    requires i <= |s| && Starts(s[i..], pat) && forall j :: 0 <= j < i ==> !Starts(s[j..], pat)
    ensures Find(s, pat) == Some(i)
  {
    FindMeaning(s, pat, i);
  }

  lemma {:induction false} NoneFound(s: Bytes, pat: Bytes)
    requires forall j :: 0 <= j <= |s| ==> !Starts(s[j..], pat)
    ensures Find(s, pat) == None
  {
    if Find(s, pat).Some? { FoundStarts(s, pat); }
  }

  lemma {:induction false} FoundStarts(s: Bytes, pat: Bytes)
    requires Find(s, pat).Some?
    ensures Starts(s[Find(s, pat).value..], pat)
    decreases |s|
  {
    if Starts(s, pat) {
      assert s[0..] == s;
    } else {
      FoundStarts(s[1..], pat);
      var i := Find(s[1..], pat).value;
      assert s[1..][i..] == s[i + 1..];
    }
  }

  /** The search from some place on, when nothing matches before place q and q is a match or the end. */
  lemma {:induction false} FoundFrom(msg: Bytes, pat: Bytes, from: nat, q: nat)
    requires pat != [] && from <= q <= |msg| && forall i :: from <= i < q ==> !(pat <= msg[i..])
    ensures pat <= msg[q..] ==> FindFrom(msg, pat, from) == Some(q)
    ensures q == |msg| ==> FindFrom(msg, pat, from) == None
  {
    var s := msg[from..];
    forall j | 0 <= j <= |s| ensures s[j..] == msg[from + j..] {}
    if pat <= msg[q..] { FirstFound(s, pat, q - from); }
    if q == |msg| { NoneFound(s, pat); }
  }

  lemma {:induction false} FirstEquals(msg: Bytes, p: nat)
    requires p < |msg| && msg[p] == '=' && '=' !in msg[..p]
    ensures Find(msg, ['=']) == Some(p)
  {
    forall j | 0 <= j < p ensures !Starts(msg[j..], ['=']) { assert msg[..p][j] == msg[j] == msg[j..][0]; }
    assert msg[p..][0] == '=';
    FirstFound(msg, ['='], p);
  }

  /** The search on any message whatever. Behind the first equals sign, at place p, stands the value if what is in front
      of it is the tag; otherwise the value is behind the first later place q where a terminator, the tag and an equals
      sign stand, and there is none if q is the end. A value goes on to the next terminator or to the end. */
  lemma {:induction false} SearchExact(msg: Bytes, tag: nat, p: nat, q: nat)
    requires p < |msg| && msg[p] == '=' && '=' !in msg[..p] && p < q <= |msg|
    requires forall i :: p < i < q ==> !([1 as char] + Digits(tag) + ['='] <= msg[i..])
    ensures msg[..p] == Digits(tag) ==> TagSearch(msg, tag) == Some(ValueAt(msg[p + 1..]))
    ensures msg[..p] != Digits(tag) && [1 as char] + Digits(tag) + ['='] <= msg[q..] ==>
      TagSearch(msg, tag) == Some(ValueAt(msg[q + |Digits(tag)| + 2..]))
    ensures msg[..p] != Digits(tag) && q == |msg| ==> TagSearch(msg, tag) == None
  {
    hide Find, ValueAt, Digits;
    var pat := [SOH] + Opening(tag);
    FirstEquals(msg, p);
    assert msg[..p + 1] == msg[..p] + ['='];
    if msg[..p + 1] == Opening(tag) { assert msg[..p + 1][..p] == Digits(tag); }
    assert pat == [1 as char] + Digits(tag) + ['='];
    FoundFrom(msg, pat, p + 1, q);
  }

  lemma {:induction false} NoEquals(msg: Bytes, tag: nat)
    requires '=' !in msg
    ensures TagSearch(msg, tag) == None
  {
    forall j | 0 <= j <= |msg| ensures !Starts(msg[j..], ['=']) {
      if j < |msg| { assert msg[j..][0] == msg[j]; }
    }
    NoneFound(msg, ['=']);
  }

  // ---------------------------------------------------------------- one field after another

  datatype Next = Broken | Field(pair: Pair, rest: Bytes)

  /** What stands behind the value at the front of s. */
  function AfterValue(s: Bytes): Bytes {
    match Find(s, [SOH])
    case None => []
    case Some(i) => s[i + 1..]
  }

  /** The field at the front of s, unless its tag is not a number or does not end. */
  function NextField(s: Bytes): (n: Next)
    ensures n.Field? ==> |n.rest| < |s|
  {
    var e := DigitsEnd(s, 0);
    if e == |s| || s[e] != '=' then Broken
    else Field(Pair(Value(s[..e]), ValueAt(s[e + 1..])), AfterValue(s[e + 1..]))
  }

  /** All the fields of a message. */
  function Tokens(s: Bytes): Option<seq<Pair>>
    decreases |s|
  {
    if s == [] then Some([])
    else match NextField(s)
      case Broken => None
      case Field(f, rest) =>
        match Tokens(rest)
        case None => None
        case Some(fs) => Some([f] + fs)
  }

  lemma {:induction false} AfterFirst(v: Bytes, rest: Bytes)
    requires SOH !in v && (rest == [] || rest[0] == SOH)
    ensures AfterValue(v + rest) == if rest == [] then [] else rest[1..]
  {
    SkipTo(v, rest, [SOH]);
    if rest == [] {
      assert !Starts([], [SOH]);
    } else {
      assert Starts(rest, [SOH]);
      assert (v + rest)[|v| + 1..] == rest[1..];
    }
  }

  lemma {:induction false} NextOfField(f: Pair, rest: Bytes)
    requires Canonical(f) && (rest == [] || rest[0] == SOH)
    ensures NextField(Opening(f.tag) + (f.value + rest)) == Field(f, if rest == [] then [] else rest[1..])
  {
    var s, d := Opening(f.tag) + (f.value + rest), Digits(f.tag);
    DigitsAreDigits(f.tag);
    DigitsEndIs(s, 0, |d|);
    assert s[..|d|] == d && s[|d| + 1..] == f.value + rest;
    ValueOfDigits(f.tag);
    ValueOfFirst(f.value, rest);
    AfterFirst(f.value, rest);
  }

  /** What the field at the front of a text is when the digits at the front reach to place e: it ends at the first
      terminator behind its equals sign, or with the text. */
  lemma {:induction false} NextFieldExact(s: Bytes, e: nat)
    requires e <= |s| && AllDigits(s[..e]) && (e < |s| ==> !('0' <= s[e] <= '9'))
    ensures NextField(s).Field? <==> e < |s| && s[e] == '='
    ensures NextField(s).Field? ==> var f, rest := NextField(s).pair, NextField(s).rest;
      && f.tag == Value(s[..e]) && 1 as char !in f.value
      && (s[e + 1..] == f.value + [1 as char] + rest || (s[e + 1..] == f.value && rest == []))
  {
    forall i | 0 <= i < e ensures IsDigit(s[i]) { assert s[..e][i] == s[i]; }
    if e < |s| { DigitsEndIs(s, 0, e); } else { DigitsToTheEnd(s, 0); }
    if e < |s| { ValueExact(s[e + 1..]); }
  }

  lemma ValueEmpty(s: Bytes)
    requires s == [] || s[0] == SOH
    ensures ValueAt(s) == [] && AfterValue(s) == if s == [] then [] else s[1..]
  {
    assert s == [] ==> !Starts(s, [SOH]);
    assert s != [] ==> Starts(s, [SOH]);
  }

  lemma ValueLonger(s: Bytes)
    requires s != [] && s[0] != SOH
    ensures ValueAt(s) == [s[0]] + ValueAt(s[1..]) && AfterValue(s) == AfterValue(s[1..])
  {
    assert !Starts(s, [SOH]);
  }

  lemma {:induction false} ValueExact(s: Bytes)
    ensures SOH !in ValueAt(s)
    ensures s == ValueAt(s) + [SOH] + AfterValue(s) || (s == ValueAt(s) && AfterValue(s) == [])
    decreases |s|
  {
    hide ValueAt, AfterValue;
    if s == [] || s[0] == SOH {
      ValueEmpty(s);
    } else {
      ValueExact(s[1..]);
      ValueLonger(s);
      assert s == [s[0]] + s[1..];
    }
  }

  lemma TokensStep(s: Bytes, f: Pair, rest: Bytes, fs: seq<Pair>)
    requires NextField(s) == Field(f, rest) && Tokens(rest) == Some(fs)
    ensures Tokens(s) == Some([f] + fs)
  {
  }

  /** Printing fields and then reading them one after another gives the same fields. */
  lemma {:induction false} TokensOfRendered(fs: seq<Pair>, closed: bool)
    requires AllCanonical(fs)
    ensures Tokens(Rendered(fs, closed)) == Some(fs)
    decreases |fs|
  {
    if fs != [] {
      var gs, behind := fs[1..], Behind(fs, closed);
      TailCanonical(fs);
      Unrendered(fs, closed);
      NextOfField(fs[0], behind);
      BehindThenRest(fs, closed);
      TokensOfRendered(gs, closed);
      TokensStep(Rendered(fs, closed), fs[0], Rendered(gs, closed), gs);
      assert fs == [fs[0]] + gs;
    }
  }

  /** The search agrees with reading all the fields. */
  lemma {:induction false} SearchAgreesWithTokens(fs: seq<Pair>, closed: bool, tag: nat)
    requires AllCanonical(fs)
    ensures var msg := Rendered(fs, closed);
      Tokens(msg).Some? && TagSearch(msg, tag) == Lookup(Tokens(msg).value, tag)
  {
    SearchIsLookup(fs, closed, tag);
    TokensOfRendered(fs, closed);
  }

  const INT_RANGE: int := 0x8000_0000

  lemma {:induction false} PrefixValue(s: Bytes, k: nat)
    requires k < |s|
    ensures Value(s[..k]) * 10 <= Value(s[..k + 1]) <= Value(s)
    decreases |s|
  {
    assert s[..k + 1][..k] == s[..k];
    if k + 1 == |s| {
      assert s[..k + 1] == s;
    } else {
      var before := s[..|s| - 1];
      assert before[..k] == s[..k] && before[..k + 1] == s[..k + 1];
      PrefixValue(before, k);
    }
  }

  /** The product and the sum when digit k is read fit an int. */
  predicate DigitFits(s: Bytes, k: nat)
    requires k < |s|
  {
    Value(s[..k]) * 10 < INT_RANGE && Value(s[..k + 1]) < INT_RANGE
  }

  /** Every number that arises while a tag is read digit by digit fits an int exactly when the whole tag does. */
  lemma {:induction false} TagInRange(s: Bytes)
    requires s != []
    ensures Value(s) < INT_RANGE <==> forall k :: 0 <= k < |s| ==> DigitFits(s, k)
  {
    if Value(s) < INT_RANGE {
      forall k | 0 <= k < |s| ensures DigitFits(s, k) { PrefixValue(s, k); }
    } else {
      assert s[..|s| - 1 + 1] == s;
      assert !DigitFits(s, |s| - 1);
    }
  }

  class FixTokeniser {
    const msg: Bytes
    var it: nat

    ghost predicate Valid()
      reads this
    {
      it <= |msg|
    }

    ghost function Left(): Bytes
      reads this
      requires Valid()
    {
      msg[it..]
    }

    constructor (msg: Bytes)
      ensures Valid() && this.msg == msg && Left() == msg
    {
      this.msg, it := msg, 0;
    }

    function Empty(): bool
      reads this
    {
      it == |msg|
    }

    /** The tag at the iterator; `bad` stands for the exceptions. */
    method Tag() returns (tag: nat, bad: bool)
      requires Valid() && !Empty()
      modifies this`it
      ensures Valid() && bad == NextField(old(Left())).Broken?
      ensures !bad ==> var e := DigitsEnd(old(Left()), 0);
        tag == Value(old(Left())[..e]) && e < |old(Left())| && Left() == old(Left())[e + 1..]
    {
      hide Find, ValueAt, AfterValue;
      ghost var s, start := Left(), it;
      tag, bad := 0, false;
      if IsDigit(msg[it]) {
        tag := msg[it] as int - 48;
        it := it + 1;
        assert s[..1][..0] == [] && s[..1] == [s[0]];
        while true
          invariant start < it <= |msg| && tag == Value(s[..it - start])
          invariant DigitsEnd(s, 0) == DigitsEnd(s, it - start)
          decreases |msg| - it
        {
          if it == |msg| {
            return 0, true;
          }
          if !IsDigit(msg[it]) {
            break;
          }
          assert s[..it - start + 1][..it - start] == s[..it - start];
          tag := tag * 10 + (msg[it] as int - 48);
          it := it + 1;
        }
      }
      assert s[..0] == [];
      if msg[it] != '=' {
        return 0, true;
      }
      it := it + 1;
    }

    /** The value at the iterator, which moves behind the value's terminator. */
    method NextValue() returns (value: Bytes)
      requires Valid()
      modifies this`it
      ensures Valid() && value == ValueAt(old(Left())) && Left() == AfterValue(old(Left()))
    {
      hide Find, ValueAt, AfterValue;
      ghost var s := Left();
      var begin := it;
      var len := |msg| - begin;
      while it != |msg|
        invariant begin <= it <= |msg| && SOH !in s[..it - begin] && len == |msg| - begin
        decreases |msg| - it
      {
        if msg[it] == SOH {
          len := it - begin;
          assert s == s[..len] + s[len..] && s[len] == SOH;
          ValueOfFirst(s[..len], s[len..]);
          AfterFirst(s[..len], s[len..]);
          it := it + 1;
          return msg[begin..begin + len];
        }
        assert s[..it - begin + 1] == s[..it - begin] + [s[it - begin]];
        it := it + 1;
      }
      assert s[..|s|] == s && s + [] == s;
      ValueOfFirst(s, []);
      AfterFirst(s, []);
      value := msg[begin..begin + len];
    }

    method NextPair() returns (pair: Pair, bad: bool)
      requires Valid() && !Empty()
      modifies this`it
      ensures Valid() && bad == NextField(old(Left())).Broken?
      ensures !bad ==> NextField(old(Left())) == Field(pair, Left())
    {
      var tag, value := 0, [];
      tag, bad := Tag();
      if !bad {
        value := NextValue();
      }
      pair := Pair(tag, value);
    }
  }

  /** The tag and an equals sign, formatted backwards from the end of a small array. */
  method FormatTag(arr: array<Byte>, tag: nat) returns (it: nat)
    requires arr.Length == 12 && tag < 1_000_000_000
    modifies arr
    ensures 1 <= it <= 11 && arr[it..11] == Opening(tag)
  {
    NineDigits(tag);
    it := 10;
    arr[it] := '=';
    var left := tag;
    while true
      invariant 1 < it <= 10 && it > |Digits(left)|
      invariant Opening(tag) == Digits(left) + arr[it..11]
      decreases left
    {
      DigitsAreDigits(left);
      var d := left % 10;
      ghost var was := arr[it..11];
      it := it - 1;
      arr[it] := Digit(d);
      assert arr[it..11] == [Digit(d)] + was;
      left := left / 10;
      if left == 0 { break; }
    }
  }

  /** Searches a message for a tag. */
  method FindTag(msg: Bytes, tag: nat) returns (value: Bytes, found: bool)
    requires tag < 1_000_000_000
    ensures TagSearch(msg, tag) == if found then Some(value) else None
    ensures !found ==> value == []
  {
    var first := Find(msg, ['=']);
    if first.None? {
      return [], false;
    }
    var pos := first.value + 1;
    var arr := new Byte[12](_ => '0');
    var it := FormatTag(arr, tag);
    if msg[..pos] != arr[it..11] {
      it := PrependSoh(arr, it, tag);
      var pat := arr[it..11];
      var next := FindFrom(msg, pat, pos);
      if next.None? {
        return [], false;
      }
      pos := next.value + |pat|;
    }
    value, found := ValueFrom(msg, pos), true;
  }

  method PrependSoh(arr: array<Byte>, at: nat, ghost tag: nat) returns (it: nat)
    requires arr.Length == 12 && 1 <= at <= 11 && arr[at..11] == Opening(tag)
    modifies arr
    ensures it <= 11 && arr[it..11] == [SOH] + Opening(tag)
  {
    ghost var was := arr[at..11];
    it := at - 1;
    arr[it] := SOH;
    assert arr[it..11] == [SOH] + was;
  }

  lemma NineDigits(n: nat)
    requires n < 1_000_000_000
    ensures |Digits(n)| <= 9
  {
    DigitCount(n, 9);
    assert Pow10(9) == 10 * (10 * (10 * Pow10(6)));
    assert Pow10(6) == 10 * (10 * (10 * Pow10(3)));
    assert Pow10(3) == 10 * (10 * (10 * Pow10(0)));
  }

  // ---------------------------------------------------------------- printing fields

  datatype FieldValue = Text(text: Bytes) | Number(n: int)

  function Shown(v: FieldValue): Bytes {
    match v
    case Text(text) => text
    case Number(n) => if n < 0 then ['-'] + Digits(-n) else Digits(n)
  }

  /** A field as the program prints it: anything but a text with the terminator in it can be read back. */
  datatype Written = Written(tag: nat, value: FieldValue)

  predicate Readable(f: Written) {
    f.tag < 1_000_000_000 && (f.value.Text? ==> SOH !in f.value.text)
  }

  function AsPair(f: Written): Pair {
    Pair(f.tag, Shown(f.value))
  }

  function AsPairs(fs: seq<Written>): (ps: seq<Pair>)
    ensures |ps| == |fs|
  {
    seq(|fs|, i requires 0 <= i < |fs| => AsPair(fs[i]))
  }

  lemma {:induction false} NumbersAreClean(n: int)
    ensures SOH !in Shown(Number(n))
  {
    if n < 0 { DigitsAreDigits(-n); } else { DigitsAreDigits(n); }
  }

  /** A number is shown in decimal, behind a minus sign when it is negative. */
  lemma {:induction false} ShownValue(n: int)
    ensures var s := Shown(Number(n)); if n < 0 then s[0] == '-' && AllDigits(s[1..]) && Value(s[1..]) == -n
                                       else AllDigits(s) && Value(s) == n
  {
    var k := if n < 0 then -n else n;
    DigitsAreDigits(k);
    ValueOfDigits(k);
    assert (['-'] + Digits(k))[1..] == Digits(k);
  }

  /** A field is canonical exactly when it is readable; a number always is. */
  lemma {:induction false} ReadableIsCanonical(f: Written)
    ensures Canonical(AsPair(f)) <==> Readable(f)
  {
    if f.value.Number? { NumbersAreClean(f.value.n); }
  }

  lemma {:induction false} RenderedMore(fs: seq<Pair>, f: Pair)
    ensures Rendered(fs + [f], true) == Rendered(fs, true) + FieldText(f)
    decreases |fs|
  {
    if fs == [] {
      assert [f][1..] == [];
    } else {
      assert (fs + [f])[1..] == fs[1..] + [f];
      RenderedMore(fs[1..], f);
    }
  }

  /** A number reaches the stream one character after another. */
  method PrintNumber(os: FixStream, n: int)
    requires os.Writing()
    modifies os`pcount, os`sum, os`text, os.out`mem
    ensures os.Writing() && os.text == old(os.text) + Shown(Number(n)) && os.out.Data() == old(os.out.Data())
  {
    os.PutEach(Shown(Number(n)));
  }

  method PrintTag(os: FixStream, tag: nat)
    requires os.Writing()
    modifies os`pcount, os`sum, os`text, os.out`mem
    ensures os.Writing() && os.text == old(os.text) + Opening(tag) && os.out.Data() == old(os.out.Data())
  {
    PrintNumber(os, tag);
    os.Xsputn(['=']);
  }

  method PrintValue(os: FixStream, v: FieldValue)
    requires os.Writing()
    modifies os`pcount, os`sum, os`text, os.out`mem
    ensures os.Writing() && os.text == old(os.text) + Shown(v) && os.out.Data() == old(os.out.Data())
  {
    match v {
      case Text(text) => os.Xsputn(text);
      case Number(n) => PrintNumber(os, n);
    }
  }

  /** Tag, equals sign, value, terminator. */
  method PrintField(os: FixStream, tag: nat, v: FieldValue)
    requires os.Writing()
    modifies os`pcount, os`sum, os`text, os.out`mem
    ensures os.Writing() && os.text == old(os.text) + FieldText(Pair(tag, Shown(v)))
    ensures os.out.Data() == old(os.out.Data())
  {
    Regroup(os.text, Opening(tag), Shown(v));
    Regroup(os.text, Opening(tag) + Shown(v), [SOH]);
    PrintTag(os, tag);
    PrintValue(os, v);
    os.Xsputn([SOH]);
  }

  /** Fields one after another. */
  method PrintFields(os: FixStream, fs: seq<Written>)
    requires os.Writing()
    modifies os`pcount, os`sum, os`text, os.out`mem
    ensures os.Writing() && os.text == old(os.text) + Rendered(AsPairs(fs), true) && os.out.Data() == old(os.out.Data())
  {
    hide Rendered, FieldText;
    ghost var before, done := os.text, AsPairs([]);
    assert before + Rendered(done, true) == before by { NothingRendered(); }
    for i := 0 to |fs|
      invariant os.Writing() && done == AsPairs(fs[..i]) && os.text == before + Rendered(done, true)
      invariant os.out.Data() == old(os.out.Data())
    {
      RenderedMore(done, AsPair(fs[i]));
      Regroup(before, Rendered(done, true), FieldText(AsPair(fs[i])));
      PrintField(os, fs[i].tag, fs[i].value);
      done := done + [AsPair(fs[i])];
      assert done == AsPairs(fs[..i + 1]);
    }
    assert fs[..|fs|] == fs;
  }

  lemma NothingRendered()
    ensures Rendered(AsPairs([]), true) == []
  {
  }

  /** A whole message, from the header to the checksum. */
  method PrintMessage(os: FixStream, v: Version, fs: seq<Written>)
    requires os.out.Valid() && OneDigit(v) && |Rendered(AsPairs(fs), true)| < Pow10(16)
    modifies os, os.out
    ensures os.out.Valid()
    ensures os.out.Data() == old(os.out.Data()) + Framed(Message(v, Rendered(AsPairs(fs), true)))
  {
    hide Rendered, Framed;
    os.Reset(v);
    PrintFields(os, fs);
    assert os.Body() == Rendered(AsPairs(fs), true);
    os.Commit();
  }

  /** Fields printed into one message, sent in any pieces and read back one by one are the same fields. */
  lemma {:induction false} FieldsSurvive(v: Version, fs: seq<Pair>, pieces: seq<Bytes>)
    requires OneDigit(v) && AllCanonical(fs) && |Rendered(fs, true)| < 10000 < Pow10(16)
    requires Joined(pieces) == Framed(Message(v, Rendered(fs, true)))
    ensures var z := ReceiveAll(ScanLength, pieces);
      && z.delivered == [Delivery(v.major, v.minor, Rendered(fs, true))]
      && Tokens(Rendered(fs, true)) == Some(fs)
  {
    var m := Message(v, Rendered(fs, true));
    assert FrameAll([m]) == Framed(m) + FrameAll([]);
    assert [m][1..] == [];
    RoundTrip([m], pieces);
    TokensOfRendered(fs, true);
  }

  /** The same for what the program prints: numbers come back as their digits, and texts as they are. */
  lemma {:induction false} WrittenFieldsSurvive(v: Version, fs: seq<Written>, pieces: seq<Bytes>)
    requires OneDigit(v) && |Rendered(AsPairs(fs), true)| < 10000 < Pow10(16)
    requires forall i :: 0 <= i < |fs| ==> Readable(fs[i])
    requires Joined(pieces) == Framed(Message(v, Rendered(AsPairs(fs), true)))
    ensures var z := ReceiveAll(ScanLength, pieces);
      && |z.delivered| == 1 && z.delivered[0].Delivery? && Tokens(z.delivered[0].body) == Some(AsPairs(fs))
  {
    forall i | 0 <= i < |fs| ensures Canonical(AsPairs(fs)[i]) { ReadableIsCanonical(fs[i]); }
    FieldsSurvive(v, AsPairs(fs), pieces);
  }
}
