/** What `reserve` promises to a batch writer: one producer, any number of consumers, every interleaving. */
module RingReserve {
  import opened RingProtocol

  predicate Posting<V>(th: Thread<V>) {
    th.PostAt? || th.PostReload? || th.PostTry? || th.PostClaimed? || th.PostWritten?
  }

  predicate IsPost<V>(step: Step<V>) {
    step.BeginPost? || step.PostLoad? || step.PostReread? || step.PostSwap? || step.PostWrite? || step.PostStore?
  }

  /** No thread but p posts, so p's copy of wpos is exact. */
  ghost predicate SoleProducer<V>(s: Ring<V>, p: nat) {
    p in s.threads
    && (forall t :: t in s.threads && t != p ==> !Posting(s.threads[t]))
    && (s.threads[p].PostAt? || s.threads[p].PostTry? ==> s.threads[p].pos == s.wpos)
  }

  /** Every slot from wpos up to `end` is free for its position. */
  ghost predicate FreeAhead<V>(s: Ring<V>, end: int) {
    Shape(s) && end <= s.wpos + s.cap && forall w :: s.wpos <= w < end ==> At(s, w).seqno == w
  }

  /** No fetch of the positions that the next n posts will reuse is between its swap and its store. */
  ghost predicate NoneDraining<V>(s: Ring<V>, n: nat)
    requires Bounds(s)
  {
    forall q :: 0 <= q < s.rpos && s.wpos - s.cap <= q < s.wpos - s.cap + n ==> !FetchesAt(s, s.taker[q], q)
  }

  function Reserve<V>(s: Ring<V>): int {
    s.cap - (s.wpos - s.rpos)
  }

  lemma {:induction false} FreeAheadMeaning<V>(s: Ring<V>, n: nat)
    requires Inv(s) && n <= s.cap
    ensures FreeAhead(s, s.wpos + n) <==> n <= Reserve(s) && NoneDraining(s, n)
  {
    forall w | s.wpos <= w < s.wpos + n
      ensures At(s, w).seqno == w <==>
        (w - s.cap < s.rpos && (w - s.cap >= 0 ==> !FetchesAt(s, s.taker[w - s.cap], w - s.cap)))
    {
      SameSlot(s.cap, w);
      assert SlotOk(s, w - s.cap);
      if 0 <= w - s.cap < s.rpos && FetchesAt(s, s.taker[w - s.cap], w - s.cap) {
        assert ThreadOk(s, s.taker[w - s.cap]);
      }
    }
    if FreeAhead(s, s.wpos + n) {
      if n > 0 { assert At(s, s.wpos + n - 1).seqno == s.wpos + n - 1; }
      forall q | 0 <= q < s.rpos && s.wpos - s.cap <= q < s.wpos - s.cap + n
        ensures !FetchesAt(s, s.taker[q], q)
      {
        assert At(s, q + s.cap).seqno == q + s.cap;
      }
    }
  }

  lemma {:induction false} SoleStep<V>(s: Ring<V>, p: nat, end: int, step: Step<V>)
    requires Inv(s) && SoleProducer(s, p) && FreeAhead(s, end)
    requires Enabled(s, step) && (IsPost(step) ==> step.t == p)
    ensures Inv(Apply(s, step)) && SoleProducer(Apply(s, step), p) && FreeAhead(Apply(s, step), end)
    ensures step.PostLoad? && s.wpos < end ==> Apply(s, step).threads[p].PostTry?
  {
    StepKeepsInv(s, step);
    var s' := Apply(s, step);
    assert ThreadOk(s, step.t);
    forall w | s'.wpos <= w < end ensures At(s', w).seqno == w {
      assert At(s, w).seqno == w;
      SoleSlot(s, step, w);
    }
  }

  lemma {:induction false} PromiseFrees<V>(s: Ring<V>, n: nat)
    requires Inv(s) && n <= Reserve(s) && NoneDraining(s, n)
    ensures FreeAhead(s, s.wpos + n)
  {
    assert n <= s.cap;
    FreeAheadMeaning(s, n);
  }

  /** No step takes a free slot away except the post that claims it. */
  lemma {:induction false} SoleSlot<V>(s: Ring<V>, step: Step<V>, w: int)
    requires Inv(s) && Enabled(s, step)
    requires s.wpos <= w < s.wpos + s.cap && At(s, w).seqno == w
    ensures At(Apply(s, step), w).seqno == w
  {
    if Owns(s, step.t) {
      assert ThreadOk(s, step.t);
      var q := s.threads[step.t].pos;
      if w != q + s.cap {
        SameSlot(s.cap, w);
        DistinctSlots(s.cap, w - s.cap, q);
      } else {
        SameSlot(s.cap, q);
      }
    }
  }

  /** No load of the sequence number by p makes it give up while fewer than the promised posts have been claimed. */
  ghost predicate NoRefusal<V>(s: Ring<V>, p: nat, end: int, steps: seq<Step<V>>)
    requires Shape(s) && Legal(s, steps)
    decreases |steps|
  {
    steps == [] ||
    ((steps[0] == PostLoad(p) && s.wpos < end ==> Apply(s, steps[0]).threads[p].PostTry?)
     && NoRefusal(Apply(s, steps[0]), p, end, steps[1..]))
  }

  /** The promise kept: whatever the fetches do afterwards, the next n posts of the sole producer all succeed. */
  lemma {:induction false} PromisedPostsSucceed<V>(s: Ring<V>, p: nat, n: nat, steps: seq<Step<V>>)
    requires Inv(s) && SoleProducer(s, p)
    requires n <= Reserve(s) && NoneDraining(s, n)
    requires Legal(s, steps) && forall i :: 0 <= i < |steps| && IsPost(steps[i]) ==> steps[i].t == p
    ensures NoRefusal(s, p, s.wpos + n, steps)
  {
    hide *;
    PromiseFrees(s, n);
    FreeRun(s, p, s.wpos + n, steps);
  }

  lemma {:induction false} FreeRun<V>(s: Ring<V>, p: nat, end: int, steps: seq<Step<V>>)
    requires Inv(s) && SoleProducer(s, p) && FreeAhead(s, end)
    requires Legal(s, steps) && forall i :: 0 <= i < |steps| && IsPost(steps[i]) ==> steps[i].t == p
    ensures NoRefusal(s, p, end, steps)
    decreases |steps|
  {
    if steps != [] {
      SoleStep(s, p, end, steps[0]);
      FreeRun(Apply(s, steps[0]), p, end, steps[1..]);
    }
  }

  // ---------------------------------------------------------------- a thread running alone

  lemma FirstThenRest<V>(
      s: Ring<V>, step: Step<V>, rest: seq<Step<V>>, m: Ring<V>, b: seq<Step<V>>, z: Ring<V>)
    requires Shape(s) && Enabled(s, step) && m == Apply(s, step)
    requires Shape(z) && Legal(z, b)
    requires Legal(m, rest + b) && Final(m, rest + b) == Final(z, b)
    ensures Legal(s, [step] + rest + b) && Final(s, [step] + rest + b) == Final(z, b)
  {
    hide Apply, Enabled;
    assert ([step] + rest + b)[1..] == rest + b;
  }

  lemma {:induction false} LegalConcat<V>(s: Ring<V>, a: seq<Step<V>>, b: seq<Step<V>>)
    requires Shape(s) && Legal(s, a) && Legal(Final(s, a), b)
    ensures Legal(s, a + b) && Final(s, a + b) == Final(Final(s, a), b)
    decreases |a|
  {
    if a == [] {
      assert a + b == b;
    } else {
      var m, rest := Apply(s, a[0]), a[1..];
      LegalConcat(m, rest, b);
      FirstThenRest(s, a[0], rest, m, b, Final(s, a));
      assert a == [a[0]] + rest;
    }
  }

  function SoloPost<V>(p: nat, v: V): seq<Step<V>> {
    [BeginPost(p, v), PostLoad(p), PostSwap(p, false), PostWrite(p), PostStore(p)]
  }

  function SoloFetch<V>(p: nat): seq<Step<V>> {
    [BeginFetch(p), FetchLoad(p), FetchSwap(p, false), FetchRead(p), FetchStore(p)]
  }

  lemma FiveSteps<V>(s: Ring<V>, a: Step<V>, b: Step<V>, c: Step<V>, d: Step<V>, e: Step<V>)
    requires Shape(s) && Enabled(s, a)
    requires Enabled(Apply(s, a), b)
    requires Enabled(Apply(Apply(s, a), b), c)
    requires Enabled(Apply(Apply(Apply(s, a), b), c), d)
    requires Enabled(Apply(Apply(Apply(Apply(s, a), b), c), d), e)
    ensures Legal(s, [a, b, c, d, e])
    ensures Final(s, [a, b, c, d, e]) == Apply(Apply(Apply(Apply(Apply(s, a), b), c), d), e)
  {
    var s1 := Apply(s, a);
    var s2 := Apply(s1, b);
    var s3 := Apply(s2, c);
    var s4 := Apply(s3, d);
    var s5 := Apply(s4, e);
    assert [a, b, c, d, e][1..] == [b, c, d, e];
    assert [b, c, d, e][1..] == [c, d, e];
    assert [c, d, e][1..] == [d, e];
    assert [d, e][1..] == [e];
    assert [e][1..] == [];
    assert Legal(s5, []) && Final(s5, []) == s5;
    assert Legal(s4, [e]) && Final(s4, [e]) == s5;
    assert Legal(s3, [d, e]) && Final(s3, [d, e]) == s5;
    assert Legal(s2, [c, d, e]) && Final(s2, [c, d, e]) == s5;
    assert Legal(s1, [b, c, d, e]) && Final(s1, [b, c, d, e]) == s5;
  }

  /** A post with no interference, when the slot is free. */
  lemma {:induction false} SoloPostRuns<V>(s: Ring<V>, p: nat, v: V)
    requires Inv(s) && p in s.threads && s.threads[p].Idle?
    requires At(s, s.wpos).seqno == s.wpos
    ensures Legal(s, SoloPost(p, v))
    ensures Final(s, SoloPost(p, v)) ==
      s.(wpos := s.wpos + 1, posted := s.posted + [v], poster := s.poster + [p],
         slots := s.slots[Idx(s.cap, s.wpos) := Slot(s.wpos + 1, v)])
  {
    var s1 := Apply(s, BeginPost(p, v));
    var s2 := Apply(s1, PostLoad(p));
    var s3 := Apply(s2, PostSwap(p, false));
    var s4 := Apply(s3, PostWrite(p));
    FiveSteps(s, BeginPost(p, v), PostLoad(p), PostSwap(p, false), PostWrite(p), PostStore(p));
    var z := Apply(s4, PostStore(p));
    assert z.threads == s.threads;
    assert z.slots == s.slots[Idx(s.cap, s.wpos) := Slot(s.wpos + 1, v)];
  }

  /** A post with no interference, when the slot is not free: refused, and nothing changed. */
  lemma {:induction false} SoloPostRefused<V>(s: Ring<V>, p: nat, v: V)
    requires Inv(s) && p in s.threads && s.threads[p].Idle?
    requires At(s, s.wpos).seqno != s.wpos
    ensures Legal(s, [BeginPost(p, v), PostLoad(p)]) && Final(s, [BeginPost(p, v), PostLoad(p)]) == s
  {
    var s1 := Apply(s, BeginPost(p, v));
    SameSlot(s.cap, s.wpos);
    assert SlotOk(s, s.wpos - s.cap);
    var s2 := Apply(s1, PostLoad(p));
    assert s2.threads == s.threads;
    var load: seq<Step<V>> := [PostLoad(p)];
    assert [BeginPost(p, v), PostLoad(p)][1..] == load;
    assert load[1..] == [];
    assert Legal(s2, []) && Final(s2, []) == s2;
    assert Legal(s1, load) && Final(s1, load) == s2;
  }

  /** A fetch with no interference, when something is published. */
  lemma {:induction false} SoloFetchRuns<V>(s: Ring<V>, p: nat)
    requires Inv(s) && p in s.threads && s.threads[p].Idle?
    requires s.rpos < s.wpos && At(s, s.rpos).seqno == s.rpos + 1
    ensures Legal(s, SoloFetch(p))
    ensures Final(s, SoloFetch(p)) ==
      s.(rpos := s.rpos + 1, taken := s.taken[s.rpos := s.posted[s.rpos]], taker := s.taker + [p],
         slots := s.slots[Idx(s.cap, s.rpos) := Slot(s.rpos + s.cap, s.posted[s.rpos])])
  {
    assert SlotOk(s, s.rpos);
    var s1 := Apply(s, BeginFetch(p));
    var s2 := Apply(s1, FetchLoad(p));
    var s3 := Apply(s2, FetchSwap(p, false));
    var s4 := Apply(s3, FetchRead(p));
    FiveSteps(s, BeginFetch(p), FetchLoad(p), FetchSwap(p, false), FetchRead(p), FetchStore(p));
    var z := Apply(s4, FetchStore(p));
    assert z.threads == s.threads;
  }

  /** The promise broken: if some fetch is draining one of the next n slots, or fewer than n are unused, the producer
      running alone is refused before its n-th post. */
  lemma {:induction false} BrokenPromise<V>(s: Ring<V>, p: nat, v: V, n: nat) returns (steps: seq<Step<V>>)
    requires Inv(s) && p in s.threads && s.threads[p].Idle? && n <= s.cap
    requires !(n <= Reserve(s) && NoneDraining(s, n))
    ensures Legal(s, steps) && forall i :: 0 <= i < |steps| ==> steps[i].t == p
    ensures !NoRefusal(s, p, s.wpos + n, steps)
  {
    FreeAheadMeaning(s, n);
    steps := Refused(s, p, v, s.wpos + n);
  }

  lemma {:induction false} Refused<V>(s: Ring<V>, p: nat, v: V, end: int) returns (steps: seq<Step<V>>)
    requires Inv(s) && p in s.threads && s.threads[p].Idle?
    requires s.wpos <= end <= s.wpos + s.cap && !FreeAhead(s, end)
    ensures Legal(s, steps) && forall i :: 0 <= i < |steps| ==> steps[i].t == p
    ensures !NoRefusal(s, p, end, steps)
    decreases end - s.wpos
  {
    if At(s, s.wpos).seqno == s.wpos {
      SoloPostRuns(s, p, v);
      RunKeepsInv(s, SoloPost(p, v));
      var z := Final(s, SoloPost(p, v));
      var w :| s.wpos <= w < end && At(s, w).seqno != w;
      DistinctSlots(s.cap, w, s.wpos);
      assert At(z, w) == At(s, w);
      var rest := Refused(z, p, v, end);
      LegalConcat(s, SoloPost(p, v), rest);
      RefusalLater(s, p, end, SoloPost(p, v), rest);
      steps := SoloPost(p, v) + rest;
    } else {
      SoloPostRefused(s, p, v);
      steps := [BeginPost(p, v), PostLoad(p)];
      var s1 := Apply(s, BeginPost(p, v));
      assert steps[1..] == [PostLoad(p)];
      SameSlot(s.cap, s.wpos);
      assert SlotOk(s, s.wpos - s.cap);
      assert !NoRefusal(s1, p, end, [PostLoad(p)]);
    }
  }

  lemma {:induction false} RefusalLater<V>(s: Ring<V>, p: nat, end: int, a: seq<Step<V>>, b: seq<Step<V>>)
    requires Shape(s) && Legal(s, a) && Legal(Final(s, a), b) && Legal(s, a + b)
    requires !NoRefusal(Final(s, a), p, end, b)
    ensures !NoRefusal(s, p, end, a + b)
    decreases |a|
  {
    if a == [] {
      assert a + b == b;
    } else {
      assert (a + b)[1..] == a[1..] + b;
      RefusalLater(Apply(s, a[0]), p, end, a[1..], b);
    }
  }

  /** With every thread between calls the two current slots tell whether the queue is full and whether it is empty,
      and neither is ahead of its position. */
  lemma {:induction false} QuietSlots<V>(s: Ring<V>)
    requires Inv(s) && forall t :: t in s.threads ==> s.threads[t].Idle?
    ensures At(s, s.wpos).seqno <= s.wpos && (At(s, s.wpos).seqno == s.wpos <==> |Queue(s)| < s.cap)
    ensures At(s, s.rpos).seqno <= s.rpos + 1 && (At(s, s.rpos).seqno == s.rpos + 1 <==> Queue(s) != [])
    ensures Queue(s) != [] ==> At(s, s.rpos).val == Queue(s)[0]
  {
    SameSlot(s.cap, s.wpos);
    assert SlotOk(s, s.wpos - s.cap);
    if s.rpos < s.wpos { assert SlotOk(s, s.rpos); }
  }

  lemma {:induction false} PostAlone<V>(s: Ring<V>, p: nat, v: V) returns (z: Ring<V>)
    requires Inv(s) && s.threads == map[p := Idle] && |Queue(s)| < s.cap
    ensures Legal(s, SoloPost(p, v)) && z == Final(s, SoloPost(p, v))
    ensures Inv(z) && Extends(s, z) && Queue(z) == Queue(s) + [v]
    ensures z.rpos == s.rpos && z.wpos == s.wpos + 1 && z.threads == s.threads
    ensures z.slots == s.slots[Idx(s.cap, s.wpos) := Slot(s.wpos + 1, v)]
  {
    QuietSlots(s);
    SoloPostRuns(s, p, v);
    RunKeepsInv(s, SoloPost(p, v));
    z := Final(s, SoloPost(p, v));
  }

  lemma {:induction false} FetchAlone<V>(s: Ring<V>, p: nat) returns (z: Ring<V>)
    requires Inv(s) && s.threads == map[p := Idle] && Queue(s) != []
    ensures Legal(s, SoloFetch(p)) && z == Final(s, SoloFetch(p))
    ensures Inv(z) && Extends(s, z) && Queue(s) == [At(s, s.rpos).val] + Queue(z)
    ensures z.rpos == s.rpos + 1 && z.wpos == s.wpos && z.threads == s.threads
    ensures z.slots == s.slots[Idx(s.cap, s.rpos) := Slot(s.rpos + s.cap, At(s, s.rpos).val)]
  {
    QuietSlots(s);
    SoloFetchRuns(s, p);
    RunKeepsInv(s, SoloFetch(p));
    z := Final(s, SoloFetch(p));
    RunExtends(s, SoloFetch(p));
  }

  // ---------------------------------------------------------------- reading reserve itself

  /** `reserve` loads rpos in state s and wpos in the later state z. The answer never overstates what is unused in z,
      and it is not negative unless somebody posted between the two loads. */
  lemma {:induction false} ReserveIsConservative<V>(s: Ring<V>, steps: seq<Step<V>>)
    requires Inv(s) && Legal(s, steps)
    ensures var z := Final(s, steps);
      && s.cap - (z.wpos - s.rpos) <= Reserve(z)
      && (z.wpos == s.wpos ==> 0 <= s.cap - (z.wpos - s.rpos))
  {
    RunExtends(s, steps);
  }

  /** With posts between the two loads the difference can be negative, which the unsigned result turns into a huge
      reserve. */
  lemma {:induction false} ReserveCanWrap<V>(cap: nat, v: V) returns (steps: seq<Step<V>>)
    requires cap >= 2
    ensures Legal(Start(cap, cap, v, {0}), steps)
    ensures cap - (Final(Start(cap, cap, v, {0}), steps).wpos - Start(cap, cap, v, {0}).rpos) == -1
  {
    StartIsGood(cap, cap, v, {0});
    steps := PostsAndFetches(Start(cap, cap, v, {0}), v, cap + 1);
  }

  lemma {:induction false} PostsAndFetches<V>(s: Ring<V>, v: V, n: nat) returns (steps: seq<Step<V>>)
    requires Inv(s) && s.threads == map[0 := Idle] && s.rpos == s.wpos
    ensures Legal(s, steps) && Final(s, steps).wpos == s.wpos + n
    decreases n
  {
    if n == 0 {
      steps := [];
    } else {
      SameSlot(s.cap, s.wpos);
      assert SlotOk(s, s.wpos - s.cap);
      SoloPostRuns(s, 0, v);
      RunKeepsInv(s, SoloPost(0, v));
      var m := Final(s, SoloPost(0, v));
      SoloFetchRuns(m, 0);
      RunKeepsInv(m, SoloFetch(0));
      LegalConcat(s, SoloPost(0, v), SoloFetch(0));
      var z := Final(m, SoloFetch(0));
      var rest := PostsAndFetches(z, v, n - 1);
      LegalConcat(s, SoloPost(0, v) + SoloFetch(0), rest);
      steps := SoloPost(0, v) + SoloFetch(0) + rest;
    }
  }
}
