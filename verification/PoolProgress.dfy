/** No thread of the pool waits for another: whatever the others are in the middle of, a thread that is left alone
    finishes its allocation or its release in a few steps of its own. */
module PoolProgress {
  import opened MemClasses
  import opened PoolProtocol

  /** What a thread does next when its swaps do not fail for no reason. */
  function OwnStep(t: nat, th: Thread): Step
    requires !th.Idle?
  {
    match th
    case PushTagged(_, _, _) => PushLoad(t)
    case PushLoaded(_, _, _, _) => PushLink(t)
    case PushLinked(_, _, _, _) => PushSwap(t, false)
    case PopLoaded(_, _, _) => PopNext(t)
    case PopRead(_, _, _, _) => PopSwap(t, false)
    case ReserveStart(_, _) => ReserveLoad(t)
    case ReserveLoaded(_, _, _) => ReserveCheck(t)
    case ReserveTry(_, _, _, _) => ReserveSwap(t, false)
  }

  /** At most k steps of thread t, up to the end of its call. */
  ghost function LeftAlone(s: Pool, t: nat, k: nat): (z: Pool)
    requires Shape(s) && t in s.threads && ClassOk(s.threads[t])
    decreases k
  {
    if k == 0 || s.threads[t].Idle? then s else LeftAlone(Apply(s, OwnStep(t, s.threads[t])), t, k - 1)
  }

  lemma NextStep(s: Pool, t: nat, k: nat, z: Pool)
    requires Shape(s) && t in s.threads && ClassOk(s.threads[t]) && !s.threads[t].Idle? && k > 0
    requires z == Apply(s, OwnStep(t, s.threads[t]))
    ensures Shape(z) && t in z.threads && ClassOk(z.threads[t]) && LeftAlone(s, t, k) == LeftAlone(z, t, k - 1)
  {
  }

  lemma Finished(s: Pool, t: nat, k: nat)
    requires Shape(s) && t in s.threads && s.threads[t].Idle?
    ensures LeftAlone(s, t, k) == s
  {
  }

  // ---------------------------------------------------------------- releases

  /** The call is over: the block is the head of its chain and leads to the one that was. */
  ghost predicate PushOver(s: Pool, z: Pool, t: nat, c: nat, node: nat, link: nat)
    requires Shape(s) && c < CLASSES
  {
    && z == s.(threads := s.threads[t := Idle], heads := s.heads[c := link], mem := z.mem,
               stacks := s.stacks[c := [link] + s.stacks[c]],
               blocks := s.blocks[node := Block(ClassBytes(c), Free(c))])
    && forall o: nat :: Word(z.mem, o) == if o == node then s.heads[c] else Word(s.mem, o)
  }

  lemma {:induction false} LinkedPush(s: Pool, t: nat, k: nat, c: nat, node: nat, link: nat)
    requires Shape(s) && t in s.threads && c < CLASSES && k >= 1
    requires s.threads[t] == PushLinked(c, node, link, s.heads[c]) && Word(s.mem, node) == s.heads[c]
    ensures PushOver(s, LeftAlone(s, t, k), t, c, node, link)
  {
    hide LeftAlone;
    var z := Apply(s, PushSwap(t, false));
    NextStep(s, t, k, z);
    Finished(z, t, k - 1);
  }

  /** From a fresh copy of the head. */
  lemma {:induction false} FreshPush(s: Pool, t: nat, k: nat, c: nat, node: nat, link: nat)
    requires Shape(s) && t in s.threads && c < CLASSES && k >= 2
    requires s.threads[t] == PushLoaded(c, node, link, s.heads[c])
    ensures PushOver(s, LeftAlone(s, t, k), t, c, node, link)
  {
    hide LeftAlone;
    var s1 := SetThread(s, t, PushLinked(c, node, link, s.heads[c])).(mem := s.mem[node := s.heads[c]]);
    NextStep(s, t, k, s1);
    LinkedPush(s1, t, k - 1, c, node, link);
    assert s1.threads[t := Idle] == s.threads[t := Idle];
  }

  /** A stale copy is replaced by a fresh one. */
  lemma {:induction false} PushAgain(s: Pool, t: nat, k: nat, c: nat, node: nat, link: nat)
    requires Shape(s) && t in s.threads && c < CLASSES && k >= 3
    requires var th := s.threads[t];
      || th == PushTagged(c, node, link)
      || (th.PushLinked? && th.oldHead != s.heads[c] && th == PushLinked(c, node, link, th.oldHead))
    ensures PushOver(s, LeftAlone(s, t, k), t, c, node, link)
  {
    hide LeftAlone;
    var s1 := SetThread(s, t, PushLoaded(c, node, link, s.heads[c]));
    NextStep(s, t, k, s1);
    FreshPush(s1, t, k - 1, c, node, link);
    assert s1.threads[t := Idle] == s.threads[t := Idle];
  }

  /** A release is over after four steps of its own. */
  lemma {:induction false} PushFinishes(s: Pool, t: nat)
    requires Inv(s) && t in s.threads && Pushes(s.threads[t])
    ensures ClassOk(s.threads[t])
    ensures var th := s.threads[t]; PushOver(s, LeftAlone(s, t, 4), t, th.c, th.node, th.newHead)
  {
    hide LeftAlone, PushOver, BlockOk, StackOk;
    assert ThreadOk(s, t);
    var th := s.threads[t];
    if th.PushTagged? {
      PushAgain(s, t, 4, th.c, th.node, th.newHead);
    } else if th.PushLoaded? && th.oldHead == s.heads[th.c] {
      FreshPush(s, t, 4, th.c, th.node, th.newHead);
    } else if th.PushLoaded? {
      StalePush(s, t);
    } else if th.oldHead == s.heads[th.c] {
      LinkedPush(s, t, 4, th.c, th.node, th.newHead);
    } else {
      PushAgain(s, t, 4, th.c, th.node, th.newHead);
    }
  }

  lemma {:induction false} StalePush(s: Pool, t: nat)
    requires Shape(s) && t in s.threads && s.threads[t].PushLoaded? && ClassOk(s.threads[t])
    requires s.threads[t].oldHead != s.heads[s.threads[t].c]
    ensures var th := s.threads[t]; PushOver(s, LeftAlone(s, t, 4), t, th.c, th.node, th.newHead)
  {
    hide LeftAlone;
    var th := s.threads[t];
    var s1 := SetThread(s, t, PushLinked(th.c, th.node, th.newHead, th.oldHead)).(mem := s.mem[th.node := th.oldHead]);
    NextStep(s, t, 4, s1);
    PushAgain(s1, t, 3, th.c, th.node, th.newHead);
    assert s1.threads[t := Idle] == s.threads[t := Idle];
  }

  // ---------------------------------------------------------------- allocations

  /** The call is over: a new block is handed out, or refused because the rest of the pool is too small. */
  ghost predicate CarveOver(s: Pool, z: Pool, t: nat, c: nat, req: nat)
    requires c < CLASSES
  {
    if s.offset + ClassBytes(c) > s.maxSize then z == SetThread(s, t, Idle)
    else
      z == s.(threads := s.threads[t := Idle], offset := s.offset + ClassBytes(c),
              blocks := s.blocks[s.offset := Block(ClassBytes(c), Live(req))])
  }

  /** The call is over: the top of the free list is handed out if there is one. */
  ghost predicate AllocOver(s: Pool, z: Pool, t: nat, c: nat, req: nat)
    requires Shape(s) && c < CLASSES
  {
    if s.heads[c] == 0 then CarveOver(s, z, t, c, req)
    else
      var node := LinkOffset(s.heads[c]);
      z == s.(threads := s.threads[t := Idle], heads := s.heads[c := Word(s.mem, node)],
              stacks := s.stacks[c := Tail(s.stacks[c])], blocks := s.blocks[node := Block(ClassBytes(c), Live(req))])
  }

  predicate OffsetFits(s: Pool) {
    s.offset <= s.maxSize && s.maxSize + 2048 < U32
  }

  lemma {:induction false} SwapOffset(s: Pool, t: nat, k: nat, c: nat, req: nat)
    requires Shape(s) && t in s.threads && c < CLASSES && k >= 1 && s.offset + ClassBytes(c) <= s.maxSize
    requires s.threads[t] == ReserveTry(c, req, s.offset, s.offset + ClassBytes(c))
    ensures CarveOver(s, LeftAlone(s, t, k), t, c, req)
  {
    hide LeftAlone;
    var z := Apply(s, ReserveSwap(t, false));
    NextStep(s, t, k, z);
    Finished(z, t, k - 1);
  }

  lemma {:induction false} FreshReserve(s: Pool, t: nat, k: nat, c: nat, req: nat)
    requires Shape(s) && OffsetFits(s) && t in s.threads && c < CLASSES && k >= 2
    requires s.threads[t] == ReserveLoaded(c, req, s.offset)
    ensures CarveOver(s, LeftAlone(s, t, k), t, c, req)
  {
    hide LeftAlone, ClassBytes;
    var n := s.offset + ClassBytes(c);
    var s1 := Apply(s, ReserveCheck(t));
    assert n % U32 == n;
    NextStep(s, t, k, s1);
    if n > s.maxSize {
      Finished(s1, t, k - 1);
    } else {
      assert s1 == SetThread(s, t, ReserveTry(c, req, s.offset, n));
      SwapOffset(s1, t, k - 1, c, req);
      assert s1.threads[t := Idle] == s.threads[t := Idle];
    }
  }

  /** From the start, or after a swap that came too late. */
  lemma {:induction false} ReserveAgain(s: Pool, t: nat, k: nat, c: nat, req: nat)
    requires Shape(s) && OffsetFits(s) && t in s.threads && c < CLASSES && k >= 3
    requires var th := s.threads[t];
      th == ReserveStart(c, req) || (th.ReserveTry? && th.c == c && th.req == req && th.oldOffset != s.offset)
    ensures CarveOver(s, LeftAlone(s, t, k), t, c, req)
  {
    hide LeftAlone, ClassBytes;
    var s1 := SetThread(s, t, ReserveLoaded(c, req, s.offset));
    NextStep(s, t, k, s1);
    FreshReserve(s1, t, k - 1, c, req);
    assert s1.threads[t := Idle] == s.threads[t := Idle];
  }

  lemma {:induction false} SwapHead(s: Pool, t: nat, k: nat, c: nat, req: nat)
    requires Shape(s) && t in s.threads && c < CLASSES && k >= 1 && s.heads[c] != 0
    requires s.threads[t] == PopRead(c, req, s.heads[c], Word(s.mem, LinkOffset(s.heads[c])))
    ensures AllocOver(s, LeftAlone(s, t, k), t, c, req)
  {
    hide LeftAlone;
    var z := Apply(s, PopSwap(t, false));
    NextStep(s, t, k, z);
    Finished(z, t, k - 1);
  }

  /** A copy of the null link sends the thread to the rest of the pool. */
  lemma {:induction false} NothingThere(s: Pool, t: nat, k: nat, c: nat, req: nat)
    requires Shape(s) && OffsetFits(s) && t in s.threads && c < CLASSES && k >= 4
    requires s.threads[t] == PopLoaded(c, req, 0)
    ensures CarveOver(s, LeftAlone(s, t, k), t, c, req)
  {
    hide LeftAlone, ClassBytes;
    var s1 := SetThread(s, t, ReserveStart(c, req));
    NextStep(s, t, k, s1);
    ReserveAgain(s1, t, k - 1, c, req);
    assert s1.threads[t := Idle] == s.threads[t := Idle];
  }

  lemma {:induction false} FreshPop(s: Pool, t: nat, k: nat, c: nat, req: nat)
    requires Shape(s) && OffsetFits(s) && t in s.threads && c < CLASSES && k >= 4
    requires s.threads[t] == PopLoaded(c, req, s.heads[c])
    ensures AllocOver(s, LeftAlone(s, t, k), t, c, req)
  {
    hide LeftAlone, ClassBytes;
    if s.heads[c] == 0 {
      NothingThere(s, t, k, c, req);
    } else {
      var s1 := SetThread(s, t, PopRead(c, req, s.heads[c], Word(s.mem, LinkOffset(s.heads[c]))));
      NextStep(s, t, k, s1);
      SwapHead(s1, t, k - 1, c, req);
      assert s1.threads[t := Idle] == s.threads[t := Idle];
    }
  }

  lemma {:induction false} PopAgain(s: Pool, t: nat, k: nat, c: nat, req: nat)
    requires Shape(s) && OffsetFits(s) && t in s.threads && c < CLASSES && k >= 5
    requires var th := s.threads[t]; th.PopRead? && th.c == c && th.req == req && th.oldHead != s.heads[c]
    ensures AllocOver(s, LeftAlone(s, t, k), t, c, req)
  {
    hide LeftAlone, ClassBytes;
    var s1 := SetThread(s, t, PopLoaded(c, req, s.heads[c]));
    NextStep(s, t, k, s1);
    FreshPop(s1, t, k - 1, c, req);
    assert s1.threads[t := Idle] == s.threads[t := Idle];
  }

  lemma {:induction false} StalePop(s: Pool, t: nat)
    requires Shape(s) && OffsetFits(s) && t in s.threads && ClassOk(s.threads[t]) && s.threads[t].PopLoaded?
    requires var th := s.threads[t]; th.oldHead != 0 && th.oldHead != s.heads[th.c]
    ensures var th := s.threads[t]; AllocOver(s, LeftAlone(s, t, 6), t, th.c, th.req)
  {
    hide LeftAlone, ClassBytes;
    var th := s.threads[t];
    var s1 := SetThread(s, t, PopRead(th.c, th.req, th.oldHead, Word(s.mem, LinkOffset(th.oldHead))));
    NextStep(s, t, 6, s1);
    PopAgain(s1, t, 5, th.c, th.req);
    assert s1.threads[t := Idle] == s.threads[t := Idle];
  }

  lemma {:induction false} StaleReserve(s: Pool, t: nat)
    requires Shape(s) && OffsetFits(s) && t in s.threads && ClassOk(s.threads[t]) && s.threads[t].ReserveLoaded?
    requires var th := s.threads[t]; th.oldOffset <= s.maxSize && th.oldOffset != s.offset
    ensures var th, z := s.threads[t], LeftAlone(s, t, 6);
      if th.oldOffset + ClassBytes(th.c) > s.maxSize then z == SetThread(s, t, Idle)
      else CarveOver(s, z, t, th.c, th.req)
  {
    hide LeftAlone, ClassBytes;
    var th := s.threads[t];
    var n := th.oldOffset + ClassBytes(th.c);
    assert n % U32 == n;
    var s1 := Apply(s, ReserveCheck(t));
    NextStep(s, t, 6, s1);
    if n > s.maxSize {
      Finished(s1, t, 5);
    } else {
      ReserveAgain(s1, t, 5, th.c, th.req);
      assert s1.threads[t := Idle] == s.threads[t := Idle];
    }
  }

  /** An allocation is over after six steps of its own. It takes the top of its free list, unless it has already seen
      that list empty; then it is refused only if the rest of the pool is too small, or was when it looked. */
  lemma {:induction false} AllocFinishes(s: Pool, t: nat)
    requires Inv(s) && t in s.threads && !s.threads[t].Idle? && !Pushes(s.threads[t])
    ensures ClassOk(s.threads[t])
    ensures var th, z := s.threads[t], LeftAlone(s, t, 6);
      if Pops(th) && th.oldHead != 0 then AllocOver(s, z, t, th.c, th.req)
      else if th.ReserveLoaded? && th.oldOffset != s.offset && th.oldOffset + ClassBytes(th.c) > s.maxSize then
        z == SetThread(s, t, Idle)
      else CarveOver(s, z, t, th.c, th.req)
  {
    hide LeftAlone, AllocOver, CarveOver, BlockOk, StackOk, ClassBytes, AllocClass;
    assert ThreadOk(s, t);
    var th := s.threads[t];
    match th
    case PopLoaded(c, req, seen) =>
      if seen == 0 { NothingThere(s, t, 6, c, req); }
      else if seen == s.heads[c] { FreshPop(s, t, 6, c, req); }
      else { StalePop(s, t); }
    case PopRead(c, req, seen, _) =>
      if seen == s.heads[c] { PopSeesTop(s, t); SwapHead(s, t, 6, c, req); } else { PopAgain(s, t, 6, c, req); }
    case ReserveStart(c, req) => ReserveAgain(s, t, 6, c, req);
    case ReserveLoaded(c, req, seen) =>
      if seen == s.offset { FreshReserve(s, t, 6, c, req); } else { StaleReserve(s, t); }
    case ReserveTry(c, req, seen, _) =>
      if seen == s.offset { SwapOffset(s, t, 6, c, req); } else { ReserveAgain(s, t, 6, c, req); }
  }
}
