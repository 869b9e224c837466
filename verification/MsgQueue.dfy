/** Trade archival: an id list split into fixed-size messages, posted to the queue, and read back by the journal. */
module MsgQueues {
  import opened Basics
  import opened RingProtocol
  import opened MemQueues

  /** Ids per ArchiveTrade message: what is left of a 248-byte CreateExec after two 8-byte fields, in 8-byte ids. */
  const MAX_IDS: nat := (248 - 8 - 8) / 8

  datatype Msg =
    | CreateExec(exec: int)
    | ArchiveTrade(marketId: int, ids: seq<int>, modified: int)

  // ---------------------------------------------------------------- specification

  /** A message body: the ids, then zeros. */
  function Padded(ids: seq<int>, n: nat): (body: seq<int>)
    requires |ids| <= n
    ensures |body| == n
  {
    ids + seq(n - |ids|, _ => 0)
  }

  /** The bodies that the do-while loop of archive_trade posts; it posts one even for an empty list. */
  function Bodies(ids: seq<int>, n: nat): seq<seq<int>>
    requires n > 0
    decreases |ids|
  {
    if |ids| <= n then [Padded(ids, n)] else [Padded(ids[..n], n)] + Bodies(ids[n..], n)
  }

  /** The ids of a body up to its first zero. */
  function UpToZero(body: seq<int>): seq<int> {
    if body == [] || body[0] == 0 then [] else [body[0]] + UpToZero(body[1..])
  }

  function ReadBack(bodies: seq<seq<int>>): seq<int> {
    if bodies == [] then [] else UpToZero(bodies[0]) + ReadBack(bodies[1..])
  }

  function Steps(size: nat, n: nat): nat
    requires n > 0
  {
    (size + n - 1) / n
  }

  function Messages(marketId: int, bodies: seq<seq<int>>, modified: int): (msgs: seq<Msg>)
    ensures |msgs| == |bodies|
  {
    if bodies == [] then []
    else [ArchiveTrade(marketId, bodies[0], modified)] + Messages(marketId, bodies[1..], modified)
  }

  /** The ids of a message: in a body of 29 stand the ids that there are, then zeros. */
  predicate Holds(body: seq<int>, ids: seq<int>) {
    && |ids| <= 29 == |body| && body[..|ids|] == ids
    && forall j :: |ids| <= j < |body| ==> body[j] == 0
  }

  /** The part of a list that goes into message i. */
  function Part(ids: seq<int>, i: nat): seq<int> {
    if 29 * i >= |ids| then [] else if 29 * i + 29 <= |ids| then ids[29 * i..29 * i + 29] else ids[29 * i..]
  }

  /** What each message of a split says. */
  predicate Says(msg: Msg, marketId: int, ids: seq<int>, modified: int) {
    msg.ArchiveTrade? && msg.marketId == marketId && msg.modified == modified && Holds(msg.ids, ids)
  }

  /** The messages are as many as hold the list, and each says its part of it. */
  lemma {:induction false} MessagesSay(marketId: int, ids: seq<int>, modified: int, i: nat)
    requires i < |Bodies(ids, MAX_IDS)|
    ensures Says(Messages(marketId, Bodies(ids, MAX_IDS), modified)[i], marketId, Part(ids, i), modified)
    decreases i
  {
    var bodies := Bodies(ids, MAX_IDS);
    if i > 0 {
      var rest := ids[MAX_IDS..];
      MessagesSay(marketId, rest, modified, i - 1);
      assert bodies[1..] == Bodies(rest, MAX_IDS);
      assert Part(ids, i) == Part(rest, i - 1);
    }
  }

  /** Reading goes on to the first zero and no further. */
  lemma {:induction false} UpToZeroIs(body: seq<int>)
    ensures var k := |UpToZero(body)|;
      k <= |body| && UpToZero(body) == body[..k] && 0 !in body[..k] && (k < |body| ==> body[k] == 0)
    decreases |body|
  {
    if body != [] && body[0] != 0 {
      UpToZeroIs(body[1..]);
      assert body == [body[0]] + body[1..];
    }
  }

  // ---------------------------------------------------------------- splitting is undone by reading

  lemma {:induction false} UpToZeroOfPadded(ids: seq<int>, n: nat)
    requires |ids| <= n
    ensures 0 !in ids ==> UpToZero(Padded(ids, n)) == ids
    ensures 0 in ids ==> |UpToZero(Padded(ids, n))| < |ids|
    decreases |ids|
  {
    if ids != [] {
      assert Padded(ids, n)[1..] == Padded(ids[1..], n - 1);
      assert 0 in ids <==> ids[0] == 0 || 0 in ids[1..];
      UpToZeroOfPadded(ids[1..], n - 1);
    }
  }

  /** Splitting a list and reading every body up to its first zero gives the list back exactly when the list holds no
      zero; otherwise ids are lost. */
  lemma {:induction false} SplitThenRead(ids: seq<int>, n: nat)
    requires n > 0
    ensures ReadBack(Bodies(ids, n)) == ids <==> 0 !in ids
    ensures |ReadBack(Bodies(ids, n))| <= |ids|
    ensures 0 in ids ==> |ReadBack(Bodies(ids, n))| < |ids|
    decreases |ids|
  {
    if |ids| <= n {
      UpToZeroOfPadded(ids, n);
      assert ReadBack(Bodies(ids, n)) == UpToZero(Padded(ids, n)) + [];
    } else {
      UpToZeroOfPadded(ids[..n], n);
      SplitThenRead(ids[n..], n);
      assert ids == ids[..n] + ids[n..];
      assert Bodies(ids, n)[1..] == Bodies(ids[n..], n);
    }
  }

  lemma {:induction false} StepsOfRest(size: nat, n: nat)
    requires n > 0 && size > n
    ensures Steps(size, n) == 1 + Steps(size - n, n)
  {
    var x := size + n - 1;
    var y := size - 1;
    var a, b := x / n, y / n;
    assert x == n * a + x % n && y == n * b + y % n;
    assert (a - b - 1) * n == y % n - x % n;
    MultipleBound(n, a - b - 1);
  }

  lemma StepsOfOne(size: nat, n: nat)
    requires 0 < size <= n
    ensures Steps(size, n) == 1
  {
    assert (size + n - 1) / n == 1 by {
      assert n <= size + n - 1 < 2 * n;
    }
  }

  /** The number of messages is `steps()`, except for the empty list, where one message goes out and `steps()` is 0. */
  lemma {:induction false} SplitCount(ids: seq<int>, n: nat)
    requires n > 0
    ensures |Bodies(ids, n)| == if ids == [] then 1 else Steps(|ids|, n)
    decreases |ids|
  {
    if |ids| > n {
      SplitCount(ids[n..], n);
      StepsOfRest(|ids|, n);
    } else if |ids| > 0 {
      StepsOfOne(|ids|, n);
    }
  }

  function Least(a: nat, b: nat): nat {
    if a < b then a else b
  }

  /** The messages for the ids from `offset` on. */
  function Remaining(marketId: int, ids: seq<int>, offset: nat, modified: int): (msgs: seq<Msg>)
    requires offset <= |ids|
    ensures msgs != []
  {
    Messages(marketId, Bodies(ids[offset..], MAX_IDS), modified)
  }

  /** The message of the current step, then those of the later steps. */
  lemma RemainingFrom(marketId: int, ids: seq<int>, offset: nat, modified: int)
    requires offset <= |ids|
    ensures var slice := ids[offset..offset + Least(|ids| - offset, MAX_IDS)];
      Remaining(marketId, ids, offset, modified) ==
      [ArchiveTrade(marketId, Padded(slice, MAX_IDS), modified)] +
      (if offset + MAX_IDS < |ids| then Remaining(marketId, ids, offset + MAX_IDS, modified) else [])
  {
    var rest := ids[offset..];
    assert ids[offset..offset + Least(|rest|, MAX_IDS)] == rest[..Least(|rest|, MAX_IDS)];
    if |rest| <= MAX_IDS {
      assert rest == rest[..|rest|];
    } else {
      assert rest[MAX_IDS..] == ids[offset + MAX_IDS..];
      assert Bodies(rest, MAX_IDS)[1..] == Bodies(rest[MAX_IDS..], MAX_IDS);
    }
  }

  // ---------------------------------------------------------------- the code

  /** One message per execution. */
  function ExecMessages(execs: seq<int>): (msgs: seq<Msg>)
    ensures |msgs| == |execs|
  {
    seq(|execs|, i requires 0 <= i < |execs| => CreateExec(execs[i]))
  }

  class Range {
    const stepN: nat
    const size: nat
    var offset: nat

    constructor (stepN: nat, size: nat)
      ensures this.stepN == stepN && this.size == size && offset == 0
    {
      this.stepN := stepN;
      this.size := size;
      offset := 0;
    }

    function StepSize(): nat
      reads this
      requires offset <= size
    {
      Least(size - offset, stepN)
    }

    predicate Done()
      reads this
    {
      offset >= size
    }

    method Next() returns (more: bool)
      modifies this
      ensures offset == old(offset) + stepN && (more <==> offset < size)
    {
      offset := offset + stepN;
      more := !Done();
    }
  }

  class MsgQueue {
    const mq: MemQueue<Msg>

    ghost predicate Valid()
      reads this, mq, mq.elems
    {
      mq.Valid()
    }

    constructor (mq: MemQueue<Msg>)
      requires mq.Valid()
      ensures this.mq == mq && Valid()
    {
      this.mq := mq;
    }

    /** Fills a body of MAX_IDS ids and posts it; throws when the queue is full. */
    method DoArchiveTrade(marketId: int, ids: seq<int>, modified: int) returns (thrown: bool)
      requires Valid() && |ids| <= MAX_IDS
      modifies mq, mq.elems
      ensures Valid()
      ensures thrown <==> |old(mq.contents)| == mq.cap
      ensures mq.contents == if thrown then old(mq.contents)
              else old(mq.contents) + [ArchiveTrade(marketId, Padded(ids, MAX_IDS), modified)]
      ensures !thrown ==> Says(mq.contents[|old(mq.contents)|], marketId, ids, modified)
    {
      var body: seq<int> := [];
      var i := 0;
      while i < |ids|
        invariant i <= |ids| && body == ids[..i]
      {
        body := body + [ids[i]];
        i := i + 1;
      }
      while i < MAX_IDS
        invariant |ids| <= i <= MAX_IDS && body == Padded(ids, i)
      {
        body := body + [0];
        i := i + 1;
      }
      var ok := mq.Post(ArchiveTrade(marketId, body, modified), 0);
      thrown := !ok;
    }

    method DoCreateExec(exec: int) returns (thrown: bool)
      requires Valid()
      modifies mq, mq.elems
      ensures Valid()
      ensures thrown <==> |old(mq.contents)| == mq.cap
      ensures mq.contents == if thrown then old(mq.contents) else old(mq.contents) + [CreateExec(exec)]
    {
      var ok := mq.Post(CreateExec(exec), 0);
      thrown := !ok;
    }

    /** A batch of executions, all or nothing when nobody else is using the queue. */
    method CreateExecs(execs: seq<int>) returns (thrown: bool)
      requires Valid()
      modifies mq, mq.elems
      ensures Valid()
      ensures thrown <==> mq.cap - |old(mq.contents)| < |execs|
      ensures mq.contents == if thrown then old(mq.contents) else old(mq.contents) + ExecMessages(execs)
      ensures !thrown ==>
        && |mq.contents| == |old(mq.contents)| + |execs|
        && forall i :: 0 <= i < |execs| ==> mq.contents[|old(mq.contents)| + i] == CreateExec(execs[i])
    {
      var unused := mq.Unused();
      if unused < |execs| {
        return true;
      }
      ghost var before := mq.contents;
      thrown := false;
      for i := 0 to |execs|
        invariant Valid() && !thrown && mq.contents == before + ExecMessages(execs[..i])
      {
        assert execs[..i + 1] == execs[..i] + [execs[i]];
        assert ExecMessages(execs[..i + 1]) == ExecMessages(execs[..i]) + [CreateExec(execs[i])];
        thrown := DoCreateExec(execs[i]);
        if thrown {
          return;
        }
      }
      assert execs[..|execs|] == execs;
    }

    /** One turn of the archive loop: posts the message for the current step and moves on to the next. */
    method ArchiveStep(marketId: int, ids: seq<int>, r: Range, modified: int) returns (thrown: bool, more: bool)
      requires Valid() && r.stepN == MAX_IDS && r.size == |ids| && r.offset <= |ids|
      modifies mq, mq.elems, r
      ensures Valid()
      ensures thrown <==> |old(mq.contents)| == mq.cap
      ensures thrown ==> mq.contents == old(mq.contents)
      ensures !thrown ==>
        && r.offset == old(r.offset) + MAX_IDS && (more <==> r.offset < |ids|)
        && mq.contents + (if more then Remaining(marketId, ids, r.offset, modified) else [])
           == old(mq.contents) + Remaining(marketId, ids, old(r.offset), modified)
    {
      hide Inv, Remaining, Messages, Bodies;
      var slice := ids[r.offset..r.offset + r.StepSize()];
      ghost var msg := ArchiveTrade(marketId, Padded(slice, MAX_IDS), modified);
      ghost var rest :=
        if r.offset + MAX_IDS < |ids| then Remaining(marketId, ids, r.offset + MAX_IDS, modified) else [];
      RemainingFrom(marketId, ids, r.offset, modified);
      assert Remaining(marketId, ids, r.offset, modified) == [msg] + rest;
      Regroup(mq.contents, [msg], rest);
      thrown := DoArchiveTrade(marketId, slice, modified);
      more := false;
      if !thrown {
        more := r.Next();
      }
    }

    /** All or nothing when nobody else is using the queue: either every message of the split is appended, or the call
        throws and the queue is as it was. */
    method ArchiveTrades(marketId: int, ids: seq<int>, modified: int) returns (thrown: bool)
      requires Valid()
      modifies mq, mq.elems
      ensures Valid()
      ensures thrown <==> mq.cap - |old(mq.contents)| < |Bodies(ids, MAX_IDS)|
      ensures mq.contents == if thrown then old(mq.contents)
              else old(mq.contents) + Messages(marketId, Bodies(ids, MAX_IDS), modified)
      ensures !thrown ==>
        && |mq.contents| - |old(mq.contents)| == (if ids == [] then 1 else (|ids| + 28) / 29)
        && forall i :: 0 <= i < |mq.contents| - |old(mq.contents)| ==>
             Says(mq.contents[|old(mq.contents)| + i], marketId, Part(ids, i), modified)
    {
      hide Inv, Bodies, Messages, Says, Part;
      var r := new Range(MAX_IDS, |ids|);
      var unused := mq.Unused();
      SplitCount(ids, MAX_IDS);
      if unused < Steps(|ids|, MAX_IDS) {
        return true;
      }
      assert ids[0..] == ids;
      ghost var before, all := mq.contents, Remaining(marketId, ids, 0, modified);
      ghost var todo := all;                    // the messages not posted yet
      var more := true;
      thrown := false;
      while more
        invariant !thrown && Valid() && r.stepN == MAX_IDS && r.size == |ids| && fresh(r)
        invariant more ==> r.offset <= |ids| && todo == Remaining(marketId, ids, r.offset, modified) && todo != []
        invariant !more ==> todo == []
        invariant mq.contents + todo == before + all
        invariant ids == [] && more ==> mq.contents == before
        invariant ids != [] || !more ==> |before| + |all| <= mq.cap
        decreases more, |ids| - r.offset
      {
        ghost var c := mq.contents;
        thrown, more := ArchiveStep(marketId, ids, r, modified);
        assert |c| + |todo| == |before| + |all|;
        if thrown {
          return;
        }
        todo := if more then Remaining(marketId, ids, r.offset, modified) else [];
      }
      assert mq.contents == before + all;
      forall i | 0 <= i < |all| ensures Says(mq.contents[|before| + i], marketId, Part(ids, i), modified) {
        MessagesSay(marketId, ids, modified, i);
        assert mq.contents[|before| + i] == all[i];
      }
    }
  }

  /** The journal's side: updates[i] is the i-th execution marked as archived. */
  class Journal {
    var updates: seq<int>

    constructor ()
      ensures updates == []
    {
      updates := [];
    }

    method OnArchiveTrade(body: seq<int>)
      requires |body| == MAX_IDS
      modifies this
      ensures updates == old(updates) + UpToZero(body)
      ensures exists k :: 0 <= k <= |body| && updates == old(updates) + body[..k] && 0 !in body[..k]
                          && (k < |body| ==> body[k] == 0)
    {
      UpToZeroIs(body);
      var i := 0;
      while i < MAX_IDS
        invariant 0 <= i <= MAX_IDS
        invariant updates + UpToZero(body[i..]) == old(updates) + UpToZero(body)
      {
        var id := body[i];
        if id == 0 {
          break;
        }
        updates := updates + [id];
        i := i + 1;
      }
    }
  }
}
