/** No thread of the queue waits for another: whatever the others are in the middle of, a thread that is left alone
    finishes its call in a few steps of its own. */
module RingProgress {
  import opened RingProtocol

  /** What a thread does next when its swaps do not fail for no reason. */
  function OwnStep<V>(t: nat, th: Thread<V>): Step<V>
    requires !th.Idle?
  {
    match th
    case PostAt(_, _) => PostLoad(t)
    case PostReload(_) => PostReread(t)
    case PostTry(_, _) => PostSwap(t, false)
    case PostClaimed(_, _) => PostWrite(t)
    case PostWritten(_) => PostStore(t)
    case FetchAt(_) => FetchLoad(t)
    case FetchReload => FetchReread(t)
    case FetchTry(_) => FetchSwap(t, false)
    case FetchClaimed(_) => FetchRead(t)
    case FetchTaken(_) => FetchStore(t)
  }

  /** At most k steps of thread t, up to the end of its call. */
  function LeftAlone<V>(s: Ring<V>, t: nat, k: nat): (z: Ring<V>)
    requires Shape(s) && t in s.threads
    ensures Shape(z) && t in z.threads
    decreases k
  {
    if k == 0 || s.threads[t].Idle? then s else LeftAlone(Apply(s, OwnStep(t, s.threads[t])), t, k - 1)
  }

  lemma NextStep<V>(s: Ring<V>, t: nat, k: nat, z: Ring<V>)
    requires Shape(s) && t in s.threads && !s.threads[t].Idle? && k > 0
    requires z == Apply(s, OwnStep(t, s.threads[t]))
    ensures LeftAlone(s, t, k) == LeftAlone(z, t, k - 1)
  {
  }

  lemma Finished<V>(s: Ring<V>, t: nat, k: nat)
    requires Shape(s) && t in s.threads && s.threads[t].Idle?
    ensures LeftAlone(s, t, k) == s
  {
  }

  /** The call is over: if the slot of the next position was free the value is posted there, and otherwise nothing but
      the thread has changed. */
  ghost predicate PostOver<V>(s: Ring<V>, z: Ring<V>, t: nat, v: V)
    requires Shape(s)
  {
    if At(s, s.wpos).seqno == s.wpos then
      z == s.(threads := s.threads[t := Idle], wpos := s.wpos + 1, posted := s.posted + [v], poster := s.poster + [t],
              slots := s.slots[Idx(s.cap, s.wpos) := Slot(s.wpos + 1, v)])
    else z == s.(threads := s.threads[t := Idle])
  }

  lemma {:induction false} WriteAndStore<V>(s: Ring<V>, t: nat, k: nat, v: V, p: int)
    requires Shape(s) && t in s.threads && s.threads[t] == PostClaimed(v, p) && k >= 2
    ensures LeftAlone(s, t, k) ==
      s.(threads := s.threads[t := Idle], slots := s.slots[Idx(s.cap, p) := Slot(p + 1, v)])
  {
    hide LeftAlone;
    var s1 := Apply(s, PostWrite(t));
    var s2 := Apply(s1, PostStore(t));
    NextStep(s, t, k, s1);
    NextStep(s1, t, k - 1, s2);
    Finished(s2, t, k - 2);
    assert s2.threads == s.threads[t := Idle];
    assert s2.slots == s.slots[Idx(s.cap, p) := Slot(p + 1, v)];
  }

  lemma {:induction false} SwapAndStore<V>(s: Ring<V>, t: nat, k: nat, v: V)
    requires Shape(s) && t in s.threads && s.threads[t] == PostTry(v, s.wpos) && k >= 3
    requires At(s, s.wpos).seqno == s.wpos
    ensures PostOver(s, LeftAlone(s, t, k), t, v)
  {
    hide LeftAlone;
    var s1 := Apply(s, PostSwap(t, false));
    NextStep(s, t, k, s1);
    WriteAndStore(s1, t, k - 1, v, s.wpos);
    assert s1.threads[t := Idle] == s.threads[t := Idle];
  }

  /** From a fresh copy of wpos. */
  lemma {:induction false} FreshPost<V>(s: Ring<V>, t: nat, k: nat, v: V)
    requires Inv(s) && t in s.threads && s.threads[t] == PostAt(v, s.wpos) && k >= 4
    ensures PostOver(s, LeftAlone(s, t, k), t, v)
  {
    hide LeftAlone;
    CurrentSlot(s);
    var s1 := Apply(s, PostLoad(t));
    NextStep(s, t, k, s1);
    if At(s, s.wpos).seqno == s.wpos {
      SwapAndStore(s1, t, k - 1, v);
      assert s1.threads[t := Idle] == s.threads[t := Idle];
    } else {
      Finished(s1, t, k - 1);
    }
  }

  /** A stale copy is replaced by a fresh one. */
  lemma {:induction false} PostAgain<V>(s: Ring<V>, t: nat, k: nat, v: V)
    requires Inv(s) && t in s.threads && k >= 5
    requires var th := s.threads[t];
      th == PostReload(v) || (th.PostTry? && th.v == v && th.pos != s.wpos)
    ensures PostOver(s, LeftAlone(s, t, k), t, v)
  {
    hide LeftAlone, SlotOk, TakenOk, ThreadOk;
    var step := OwnStep(t, s.threads[t]);
    var s1 := Apply(s, step);
    assert s1 == SetThread(s, t, PostAt(v, s.wpos));
    NextStep(s, t, k, s1);
    StepKeepsInv(s, step);
    FreshPost(s1, t, k - 1, v);
    assert s1.threads[t := Idle] == s.threads[t := Idle];
  }

  /** A post that has not claimed a slot yet is over after six steps of its own. It is refused only if the slot of the
      next position is not free. */
  lemma {:induction false} PostFinishes<V>(s: Ring<V>, t: nat)
    requires Inv(s) && t in s.threads
    requires var th := s.threads[t]; th.PostAt? || th.PostReload? || th.PostTry?
    ensures PostOver(s, LeftAlone(s, t, 6), t, s.threads[t].v)
  {
    hide LeftAlone, PostOver, SlotOk, TakenOk;
    var th := s.threads[t];
    assert ThreadOk(s, t);
    if th.PostAt? && th.pos == s.wpos {
      FreshPost(s, t, 6, th.v);
    } else if th.PostAt? {
      StalePost(s, t);
    } else if th.PostTry? && th.pos == s.wpos {
      SwapAndStore(s, t, 6, th.v);
    } else {
      PostAgain(s, t, 6, th.v);
    }
  }

  lemma {:induction false} StalePost<V>(s: Ring<V>, t: nat)
    requires Inv(s) && t in s.threads && s.threads[t].PostAt? && s.threads[t].pos != s.wpos
    ensures PostOver(s, LeftAlone(s, t, 6), t, s.threads[t].v)
  {
    hide LeftAlone, SlotOk, TakenOk, ThreadOk;
    var th := s.threads[t];
    var s1 := Apply(s, PostLoad(t));
    PostRefusal(s, t);
    NextStep(s, t, 6, s1);
    StepKeepsInv(s, PostLoad(t));
    PostAgain(s1, t, 5, th.v);
    assert s1.threads[t := Idle] == s.threads[t := Idle];
  }

  /** Two more steps end the call of a thread that owns a slot. */
  lemma {:induction false} OwnerFinishes<V>(s: Ring<V>, t: nat)
    requires Shape(s) && Owns(s, t)
    ensures LeftAlone(s, t, 2).threads == s.threads[t := Idle]
  {
    var s1 := Apply(s, OwnStep(t, s.threads[t]));
    NextStep(s, t, 2, s1);
    if !s1.threads[t].Idle? { NextStep(s1, t, 1, Apply(s1, OwnStep(t, s1.threads[t]))); }
  }

  // ---------------------------------------------------------------- fetch

  /** The call is over: if a value was published at the next position it has been taken, and otherwise nothing but the
      thread has changed. */
  ghost predicate FetchOver<V>(s: Ring<V>, z: Ring<V>, t: nat)
    requires Shape(s)
  {
    var x := At(s, s.rpos);
    if x.seqno == s.rpos + 1 then
      z == s.(threads := s.threads[t := Idle], rpos := s.rpos + 1, taken := s.taken[s.rpos := x.val],
              taker := s.taker + [t], slots := s.slots[Idx(s.cap, s.rpos) := Slot(s.rpos + s.cap, x.val)])
    else z == s.(threads := s.threads[t := Idle])
  }

  lemma {:induction false} ReadAndRelease<V>(s: Ring<V>, t: nat, k: nat, p: int)
    requires Shape(s) && t in s.threads && s.threads[t] == FetchClaimed(p) && k >= 2
    ensures LeftAlone(s, t, k) ==
      s.(threads := s.threads[t := Idle], taken := s.taken[p := At(s, p).val],
         slots := s.slots[Idx(s.cap, p) := Slot(p + s.cap, At(s, p).val)])
  {
    hide LeftAlone;
    var s1 := Apply(s, FetchRead(t));
    var s2 := Apply(s1, FetchStore(t));
    NextStep(s, t, k, s1);
    NextStep(s1, t, k - 1, s2);
    Finished(s2, t, k - 2);
    assert s2.threads == s.threads[t := Idle];
  }

  lemma {:induction false} SwapAndRelease<V>(s: Ring<V>, t: nat, k: nat)
    requires Shape(s) && t in s.threads && s.threads[t] == FetchTry(s.rpos) && k >= 3
    requires At(s, s.rpos).seqno == s.rpos + 1
    ensures FetchOver(s, LeftAlone(s, t, k), t)
  {
    hide LeftAlone;
    var s1 := Apply(s, FetchSwap(t, false));
    NextStep(s, t, k, s1);
    ReadAndRelease(s1, t, k - 1, s.rpos);
    assert s1.threads[t := Idle] == s.threads[t := Idle];
  }

  /** The slot of the next position to fetch is never ahead of it. */
  lemma {:induction false} FetchSlot<V>(s: Ring<V>)
    requires Inv(s)
    ensures At(s, s.rpos).seqno <= s.rpos + 1
  {
    SameSlot(s.cap, s.rpos);
    if s.rpos < s.wpos { assert SlotOk(s, s.rpos); } else { assert SlotOk(s, s.rpos - s.cap); }
  }

  lemma {:induction false} FreshFetch<V>(s: Ring<V>, t: nat, k: nat)
    requires Inv(s) && t in s.threads && s.threads[t] == FetchAt(s.rpos) && k >= 4
    ensures FetchOver(s, LeftAlone(s, t, k), t)
  {
    hide LeftAlone;
    FetchSlot(s);
    var s1 := Apply(s, FetchLoad(t));
    NextStep(s, t, k, s1);
    if At(s, s.rpos).seqno == s.rpos + 1 {
      SwapAndRelease(s1, t, k - 1);
      assert s1.threads[t := Idle] == s.threads[t := Idle];
    } else {
      Finished(s1, t, k - 1);
    }
  }

  lemma {:induction false} FetchAgain<V>(s: Ring<V>, t: nat, k: nat)
    requires Inv(s) && t in s.threads && k >= 5
    requires s.threads[t].FetchReload? || (s.threads[t].FetchTry? && s.threads[t].pos != s.rpos)
    ensures FetchOver(s, LeftAlone(s, t, k), t)
  {
    hide LeftAlone, SlotOk, TakenOk, ThreadOk;
    var step := OwnStep(t, s.threads[t]);
    var s1 := Apply(s, step);
    assert s1 == SetThread(s, t, FetchAt(s.rpos));
    NextStep(s, t, k, s1);
    StepKeepsInv(s, step);
    FreshFetch(s1, t, k - 1);
    assert s1.threads[t := Idle] == s.threads[t := Idle];
  }

  /** A fetch that has not claimed a slot yet is over after six steps of its own. It comes back empty only if nothing is
      published at the next position. */
  lemma {:induction false} FetchFinishes<V>(s: Ring<V>, t: nat)
    requires Inv(s) && t in s.threads
    requires var th := s.threads[t]; th.FetchAt? || th.FetchReload? || th.FetchTry?
    ensures FetchOver(s, LeftAlone(s, t, 6), t)
  {
    hide LeftAlone, FetchOver, SlotOk, TakenOk;
    var th := s.threads[t];
    assert ThreadOk(s, t);
    if th.FetchAt? && th.pos == s.rpos {
      FreshFetch(s, t, 6);
    } else if th.FetchAt? {
      StaleFetch(s, t);
    } else if th.FetchTry? && th.pos == s.rpos {
      SwapAndRelease(s, t, 6);
    } else {
      FetchAgain(s, t, 6);
    }
  }

  lemma {:induction false} StaleFetch<V>(s: Ring<V>, t: nat)
    requires Inv(s) && t in s.threads && s.threads[t].FetchAt? && s.threads[t].pos != s.rpos
    ensures FetchOver(s, LeftAlone(s, t, 6), t)
  {
    hide LeftAlone, SlotOk, TakenOk, ThreadOk;
    var s1 := Apply(s, FetchLoad(t));
    FetchRefusal(s, t);
    NextStep(s, t, 6, s1);
    StepKeepsInv(s, FetchLoad(t));
    FetchAgain(s1, t, 5);
    assert s1.threads[t := Idle] == s.threads[t := Idle];
  }
}
