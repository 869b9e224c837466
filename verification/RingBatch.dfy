/** A batch that checks `reserve` first and then posts, by one producer beside any number of consumers. */
module RingBatches {
  import opened RingProtocol
  import opened RingReserve

  function BegunBy<V>(step: Step<V>, p: nat): seq<V> {
    if step.BeginPost? && step.t == p then [step.v] else []
  }

  /** What thread p passed to the posts that it began, in order. */
  function Begun<V>(steps: seq<Step<V>>, p: nat): seq<V> {
    if steps == [] then []
    else BegunBy(steps[0], p) + Begun(steps[1..], p)
  }

  /** The value of a post that has begun but not claimed its position yet. */
  function Unclaimed<V>(th: Thread<V>): seq<V> {
    if th.PostAt? || th.PostReload? || th.PostTry? then [th.v] else []
  }

  /** A step of p that is no refusal moves a value from begun to unclaimed or from unclaimed to posted, or neither. */
  lemma BatchValues<V>(s: Ring<V>, p: nat, step: Step<V>, m: Ring<V>)
    requires Shape(s) && p in s.threads && Enabled(s, step) && m == Apply(s, step)
    requires (IsPost(step) ==> step.t == p) && (step.PostLoad? ==> m.threads[p].PostTry?)
    ensures m.posted + Unclaimed(m.threads[p]) == s.posted + Unclaimed(s.threads[p]) + BegunBy(step, p)
  {
  }

  lemma {:induction false} BatchStep<V>(s: Ring<V>, p: nat, end: int, step: Step<V>, m: Ring<V>)
    requires Inv(s) && SoleProducer(s, p) && FreeAhead(s, end)
    requires Enabled(s, step) && m == Apply(s, step) && (IsPost(step) ==> step.t == p)
    requires s.wpos + |Unclaimed(s.threads[p])| <= end
    ensures Inv(m) && SoleProducer(m, p) && FreeAhead(m, end) && |m.posted| == m.wpos
    ensures m.posted + Unclaimed(m.threads[p]) == s.posted + Unclaimed(s.threads[p]) + BegunBy(step, p)
  {
    SoleStep(s, p, end, step);
    BatchValues(s, p, step, m);
  }

  lemma Regroup<V>(s: seq<V>, a: seq<V>, m: seq<V>, z: seq<V>, b: seq<V>)
    requires m == s + a && z == m + b
    ensures z == s + (a + b) && |m| + |b| == |s| + |a + b|
  {
  }

  lemma {:induction false} BatchRun<V>(s: Ring<V>, p: nat, end: int, steps: seq<Step<V>>, z: Ring<V>)
    requires Inv(s) && SoleProducer(s, p) && FreeAhead(s, end)
    requires Legal(s, steps) && z == Final(s, steps)
    requires forall i :: 0 <= i < |steps| && IsPost(steps[i]) ==> steps[i].t == p
    requires |s.posted| + |Unclaimed(s.threads[p])| + |Begun(steps, p)| <= end
    ensures p in z.threads
    ensures z.posted + Unclaimed(z.threads[p]) == s.posted + Unclaimed(s.threads[p]) + Begun(steps, p)
    decreases |steps|
  {
    if steps != [] {
      var m := Apply(s, steps[0]);
      BatchStep(s, p, end, steps[0], m);
      var before, between := s.posted + Unclaimed(s.threads[p]), m.posted + Unclaimed(m.threads[p]);
      var first, rest := BegunBy(steps[0], p), Begun(steps[1..], p);
      assert Begun(steps, p) == first + rest;
      Regroup(before, first, between, between + rest, rest);
      BatchRun(m, p, end, steps[1..], z);
    }
  }

  lemma {:induction false} AfterTheCheck<V>(s: Ring<V>, check: seq<Step<V>>, m: Ring<V>, n: nat)
    requires Inv(s) && Legal(s, check) && m == Final(s, check)
    requires n <= m.cap - (m.wpos - s.rpos)
    ensures Inv(m) && |m.posted| == m.wpos && n <= m.cap && n <= Reserve(m)
  {
    RunKeepsInv(s, check);
    RunExtends(s, check);
  }

  lemma {:induction false} BatchFromHere<V>(m: Ring<V>, p: nat, n: nat, steps: seq<Step<V>>, z: Ring<V>)
    requires Inv(m) && |m.posted| == m.wpos && SoleProducer(m, p) && m.threads[p].Idle?
    requires n <= m.cap && n <= Reserve(m) && NoneDraining(m, n)
    requires Legal(m, steps) && z == Final(m, steps)
    requires forall i :: 0 <= i < |steps| && IsPost(steps[i]) ==> steps[i].t == p
    requires |Begun(steps, p)| <= n
    ensures p in z.threads && z.posted + Unclaimed(z.threads[p]) == m.posted + Begun(steps, p)
  {
    FreeAheadMeaning(m, n);
    BatchRun(m, p, m.wpos + n, steps, z);
  }

  /** The batch is all or nothing beside consumers. The producer loads rpos in state s and wpos in the later state m; if
      the difference leaves room for n posts and no fetch is draining their slots in m, then over every run in which
      it begins at most n posts each of them that has returned has posted its value, in order. */
  lemma {:induction false} BatchBesideConsumers<V>(
      s: Ring<V>, p: nat, n: nat, check: seq<Step<V>>, m: Ring<V>, steps: seq<Step<V>>)
    requires Inv(s) && Legal(s, check) && m == Final(s, check)
    requires SoleProducer(m, p) && m.threads[p].Idle?
    requires n <= m.cap - (m.wpos - s.rpos)
    requires Bounds(m) && NoneDraining(m, n)
    requires Legal(m, steps) && forall i :: 0 <= i < |steps| && IsPost(steps[i]) ==> steps[i].t == p
    requires |Begun(steps, p)| <= n
    ensures var z := Final(m, steps);
      p in z.threads && z.posted + Unclaimed(z.threads[p]) == m.posted + Begun(steps, p)
    ensures Final(m, steps).threads[p].Idle? ==> Final(m, steps).posted == m.posted + Begun(steps, p)
  {
    AfterTheCheck(s, check, m, n);
    BatchFromHere(m, p, n, steps, Final(m, steps));
  }

  // ---------------------------------------------------------------- the condition is not idle

  lemma {:induction false} PostsInARow<V>(s: Ring<V>, p: nat, v: V, n: nat) returns (steps: seq<Step<V>>)
    requires Inv(s) && p in s.threads && s.threads[p].Idle? && FreeAhead(s, s.wpos + n)
    ensures Legal(s, steps)
    ensures var z := Final(s, steps);
      Inv(z) && z.cap == s.cap && z.threads == s.threads && z.rpos == s.rpos && z.wpos == s.wpos + n
    decreases n
  {
    if n == 0 {
      steps := [];
    } else {
      assert At(s, s.wpos).seqno == s.wpos;
      SoloPostRuns(s, p, v);
      RunKeepsInv(s, SoloPost(p, v));
      var m := Final(s, SoloPost(p, v));
      forall w | m.wpos <= w < s.wpos + n ensures At(m, w).seqno == w {
        DistinctSlots(s.cap, w, s.wpos);
        assert At(m, w) == At(s, w);
      }
      var rest := PostsInARow(m, p, v, n - 1);
      LegalConcat(s, SoloPost(p, v), rest);
      steps := SoloPost(p, v) + rest;
    }
  }

  function ClaimFetch<V>(t: nat): seq<Step<V>> {
    [BeginFetch(t), FetchLoad(t), FetchSwap(t, false)]
  }

  /** A fetch up to its claim. */
  lemma {:induction false} ClaimFetchRuns<V>(s: Ring<V>, t: nat)
    requires Inv(s) && t in s.threads && s.threads[t].Idle?
    requires s.rpos < s.wpos && At(s, s.rpos).seqno == s.rpos + 1
    ensures Legal(s, ClaimFetch(t))
    ensures Final(s, ClaimFetch(t)) ==
      s.(rpos := s.rpos + 1, taker := s.taker + [t], threads := s.threads[t := FetchClaimed(s.rpos)])
  {
    var s1 := Apply(s, BeginFetch(t));
    var s2 := Apply(s1, FetchLoad(t));
    var s3 := Apply(s2, FetchSwap(t, false));
    var last: seq<Step<V>> := [FetchSwap(t, false)];
    var two: seq<Step<V>> := [FetchLoad(t), FetchSwap(t, false)];
    assert ClaimFetch<V>(t)[1..] == two && two[1..] == last && last[1..] == [];
    assert Legal(s3, []) && Final(s3, []) == s3;
    assert Legal(s2, last) && Final(s2, last) == s3;
    assert Legal(s1, two) && Final(s1, two) == s3;
    assert s3.threads == s.threads[t := FetchClaimed(s.rpos)];
  }

  lemma {:induction false} FilledByPosts<V>(cap: nat, v: V) returns (posts: seq<Step<V>>, m: Ring<V>)
    requires cap >= 2
    ensures Legal(Start(cap, cap, v, {0, 1}), posts) && m == Final(Start(cap, cap, v, {0, 1}), posts)
    ensures Inv(m) && m.cap == m.wpos == cap && m.rpos == 0 && m.threads == map[0 := Idle, 1 := Idle]
  {
    var s := Start(cap, cap, v, {0, 1});
    StartIsGood(cap, cap, v, {0, 1});
    forall w | 0 <= w < cap ensures At(s, w).seqno == w {
      SmallPosition(cap, w);
    }
    posts := PostsInARow(s, 0, v, cap);
    m := Final(s, posts);
    assert m.threads == map[0 := Idle, 1 := Idle];
  }

  lemma {:induction false} DrainsFirst<V>(z: Ring<V>)
    requires Bounds(z) && z.wpos == z.cap && z.rpos == 1 && z.taker == [1]
    requires z.threads == map[0 := Idle, 1 := FetchClaimed(0)]
    ensures Reserve(z) == 1 && !NoneDraining(z, 1)
  {
    assert FetchesAt(z, z.taker[0], 0);
  }

  /** One fetch of a full queue has claimed but not stored. */
  lemma {:induction false} DrainingAfterClaim<V>(m: Ring<V>) returns (z: Ring<V>)
    requires Inv(m) && m.wpos == m.cap && m.rpos == 0 && m.threads == map[0 := Idle, 1 := Idle]
    ensures Legal(m, ClaimFetch(1)) && z == Final(m, ClaimFetch(1))
    ensures Inv(z) && z.threads == map[0 := Idle, 1 := FetchClaimed(0)]
    ensures Reserve(z) == 1 && !NoneDraining(z, 1)
  {
    assert SlotOk(m, 0);
    ClaimFetchRuns(m, 1);
    RunKeepsInv(m, ClaimFetch(1));
    z := Final(m, ClaimFetch(1));
    assert z.threads == map[0 := Idle, 1 := FetchClaimed(0)];
    DrainsFirst(z);
  }

  /** In a queue of any size a run leads to a state in which `reserve` answers one although the next slot is still being
      drained. */
  lemma {:induction false} DrainingIsReachable<V>(cap: nat, v: V) returns (steps: seq<Step<V>>)
    requires cap >= 2
    ensures Legal(Start(cap, cap, v, {0, 1}), steps)
    ensures var z := Final(Start(cap, cap, v, {0, 1}), steps);
      && Inv(z) && z.threads == map[0 := Idle, 1 := FetchClaimed(0)]
      && Reserve(z) == 1 && !NoneDraining(z, 1)
  {
    var posts, m := FilledByPosts(cap, v);
    var z := DrainingAfterClaim(m);
    LegalConcat(Start(cap, cap, v, {0, 1}), posts, ClaimFetch(1));
    steps := posts + ClaimFetch(1);
  }
}
