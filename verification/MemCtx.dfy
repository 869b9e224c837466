/** The pool used by one thread without interference: what an allocation and a release then amount to, and where the
    32-bit arithmetic gives out. */
module PoolAlone {
  import opened MemClasses
  import opened PoolProtocol

  lemma {:induction false} LegalConcat(s: Pool, a: seq<Step>, b: seq<Step>)
    requires Shape(s) && Legal(s, a) && Legal(Final(s, a), b)
    ensures Legal(s, a + b) && Final(s, a + b) == Final(Final(s, a), b)
    decreases |a|
  {
    hide Apply, Enabled;
    if a == [] {
      assert a + b == b;
    } else {
      LegalConcat(Apply(s, a[0]), a[1..], b);
      assert (a + b)[1..] == a[1..] + b;
    }
  }

  lemma OneStep(s: Pool, a: Step)
    requires Shape(s) && Enabled(s, a)
    ensures Legal(s, [a]) && Final(s, [a]) == Apply(s, a)
  {
    assert [a][1..] == [];
    assert Legal(Apply(s, a), []) && Final(Apply(s, a), []) == Apply(s, a);
  }

  lemma TwoSteps(s: Pool, a: Step, b: Step)
    requires Shape(s) && Enabled(s, a) && Enabled(Apply(s, a), b)
    ensures Legal(s, [a, b]) && Final(s, [a, b]) == Apply(Apply(s, a), b)
  {
    OneStep(Apply(s, a), b);
    assert [a, b][1..] == [b];
  }

  lemma ThreeSteps(s: Pool, a: Step, b: Step, c: Step)
    requires Shape(s) && Enabled(s, a) && Enabled(Apply(s, a), b) && Enabled(Apply(Apply(s, a), b), c)
    ensures Legal(s, [a, b, c]) && Final(s, [a, b, c]) == Apply(Apply(Apply(s, a), b), c)
  {
    TwoSteps(Apply(s, a), b, c);
    assert [a, b, c][1..] == [b, c];
  }

  /** Carving a new block, when the free list of the class is empty. */
  function SoloCarve(t: nat, req: nat): seq<Step> {
    [BeginAlloc(t, req), PopNext(t)] + [ReserveLoad(t), ReserveCheck(t), ReserveSwap(t, false)]
  }

  /** An allocation that finds its free list empty. */
  lemma {:induction false} EmptyListFound(s: Pool, t: nat, req: nat, c: nat)
    requires Shape(s) && t in s.threads && s.threads[t].Idle? && AllocClass(req) == Class(c) && s.heads[c] == 0
    ensures Legal(s, [BeginAlloc(t, req), PopNext(t)])
    ensures Final(s, [BeginAlloc(t, req), PopNext(t)]) == SetThread(s, t, ReserveStart(c, req))
  {
    TwoSteps(s, BeginAlloc(t, req), PopNext(t));
    assert Apply(Apply(s, BeginAlloc(t, req)), PopNext(t)) == SetThread(s, t, ReserveStart(c, req));
  }

  /** And then moves the bump offset. */
  lemma {:induction false} OffsetMoves(s: Pool, t: nat, req: nat, c: nat)
    requires Shape(s) && t in s.threads && c < CLASSES && s.threads[t] == ReserveStart(c, req)
    requires (s.offset + ClassBytes(c)) % U32 <= s.maxSize
    ensures Legal(s, [ReserveLoad(t), ReserveCheck(t), ReserveSwap(t, false)])
    ensures Final(s, [ReserveLoad(t), ReserveCheck(t), ReserveSwap(t, false)]) ==
      SetThread(s, t, Idle).(offset := (s.offset + ClassBytes(c)) % U32,
                             blocks := s.blocks[s.offset := Block(ClassBytes(c), Live(req))])
  {
    var n := (s.offset + ClassBytes(c)) % U32;
    var s3 := SetThread(s, t, ReserveLoaded(c, req, s.offset));
    assert Apply(s, ReserveLoad(t)) == s3;
    var s4 := SetThread(s, t, ReserveTry(c, req, s.offset, n));
    assert Apply(s3, ReserveCheck(t)) == s4;
    ThreeSteps(s, ReserveLoad(t), ReserveCheck(t), ReserveSwap(t, false));
    assert Apply(s4, ReserveSwap(t, false)).threads == s.threads[t := Idle];
  }

  lemma {:induction false} CarveRuns(s: Pool, t: nat, req: nat, c: nat)
    requires Shape(s) && t in s.threads && s.threads[t].Idle?
    requires AllocClass(req) == Class(c) && s.heads[c] == 0
    requires (s.offset + ClassBytes(c)) % U32 <= s.maxSize
    ensures Legal(s, SoloCarve(t, req))
    ensures Final(s, SoloCarve(t, req)) ==
      s.(offset := (s.offset + ClassBytes(c)) % U32, blocks := s.blocks[s.offset := Block(ClassBytes(c), Live(req))])
  {
    hide Legal, Final, AllocClass, ClassBytes;
    EmptyListFound(s, t, req, c);
    var m := SetThread(s, t, ReserveStart(c, req));
    OffsetMoves(m, t, req, c);
    LegalConcat(s, [BeginAlloc(t, req), PopNext(t)], [ReserveLoad(t), ReserveCheck(t), ReserveSwap(t, false)]);
    assert m.threads[t := Idle] == s.threads;
  }

  /** Taking the top of the free list of the class. */
  function SoloPop(t: nat, req: nat): seq<Step> {
    [BeginAlloc(t, req), PopNext(t), PopSwap(t, false)]
  }

  lemma {:induction false} PopRuns(s: Pool, t: nat, req: nat, c: nat)
    requires Inv(s) && t in s.threads && s.threads[t].Idle?
    requires AllocClass(req) == Class(c) && s.heads[c] != 0
    ensures Legal(s, SoloPop(t, req)) && s.stacks[c] != []
    ensures var node := LinkOffset(s.heads[c]);
      Final(s, SoloPop(t, req)) ==
      s.(heads := s.heads[c := Word(s.mem, node)], stacks := s.stacks[c := s.stacks[c][1..]],
         blocks := s.blocks[node := Block(ClassBytes(c), Live(req))])
  {
    assert StackOk(s, c);
    var s1 := SetThread(s, t, PopLoaded(c, req, s.heads[c]));
    assert Apply(s, BeginAlloc(t, req)) == s1;
    var s2 := SetThread(s, t, PopRead(c, req, s.heads[c], Word(s.mem, LinkOffset(s.heads[c]))));
    assert Apply(s1, PopNext(t)) == s2;
    ThreeSteps(s, BeginAlloc(t, req), PopNext(t), PopSwap(t, false));
    assert Apply(s2, PopSwap(t, false)).threads == s.threads;
  }

  /** Giving a block back. */
  function SoloPush(t: nat, node: nat): seq<Step> {
    [BeginFree(t, node)] + [PushLoad(t), PushLink(t), PushSwap(t, false)]
  }

  lemma {:induction false} LinkAndSwap(s: Pool, t: nat, c: nat, node: nat, link: nat)
    requires Shape(s) && c < CLASSES && t in s.threads && s.threads[t] == PushTagged(c, node, link)
    ensures Legal(s, [PushLoad(t), PushLink(t), PushSwap(t, false)])
    ensures Final(s, [PushLoad(t), PushLink(t), PushSwap(t, false)]) ==
      SetThread(s, t, Idle)
        .(heads := s.heads[c := link], mem := s.mem[node := s.heads[c]], stacks := s.stacks[c := [link] + s.stacks[c]],
          blocks := s.blocks[node := Block(ClassBytes(c), Free(c))])
  {
    var s2 := SetThread(s, t, PushLoaded(c, node, link, s.heads[c]));
    assert Apply(s, PushLoad(t)) == s2;
    var s3 := SetThread(s, t, PushLinked(c, node, link, s.heads[c])).(mem := s.mem[node := s.heads[c]]);
    assert Apply(s2, PushLink(t)) == s3;
    ThreeSteps(s, PushLoad(t), PushLink(t), PushSwap(t, false));
    assert PushSwapped(s3, t, false).threads == s.threads[t := Idle];
  }

  function NextLink(s: Pool, c: nat, node: nat): nat
    requires Shape(s) && c < CLASSES && node < U32
  {
    MakeLink((s.pushes[c] + 1) % U32, node)
  }

  /** The state after a release of `node` to class c. */
  function Pushed(s: Pool, c: nat, node: nat, link: nat): Pool
    requires Shape(s) && c < CLASSES
  {
    s.(heads := s.heads[c := link], pushes := s.pushes[c := s.pushes[c] + 1], mem := s.mem[node := s.heads[c]],
       stacks := s.stacks[c := [link] + s.stacks[c]], blocks := s.blocks[node := Block(ClassBytes(c), Free(c))])
  }

  lemma FreeApplied(s: Pool, t: nat, node: nat, c: nat)
    requires Shape(s) && t in s.threads && s.threads[t].Idle?
    requires node in s.blocks && s.blocks[node].place.Live? && node < U32
    requires DeallocClass(s.blocks[node].place.req) == Class(c)
    ensures Legal(s, [BeginFree(t, node)])
    ensures Final(s, [BeginFree(t, node)]) ==
      SetThread(s, t, PushTagged(c, node, MakeLink((s.pushes[c] + 1) % U32, node)))
        .(pushes := s.pushes[c := s.pushes[c] + 1], blocks := s.blocks[node := Block(ClassBytes(c), Pushing(t))])
  {
    OneStep(s, BeginFree(t, node));
  }

  lemma {:induction false} PushRuns(s: Pool, t: nat, node: nat, c: nat)
    requires Shape(s) && t in s.threads && s.threads[t].Idle?
    requires node in s.blocks && s.blocks[node].place.Live? && node < U32
    requires DeallocClass(s.blocks[node].place.req) == Class(c)
    ensures Legal(s, SoloPush(t, node))
    ensures Final(s, SoloPush(t, node)) == Pushed(s, c, node, NextLink(s, c, node))
  {
    FreeApplied(s, t, node, c);
    var m := Final(s, [BeginFree(t, node)]);
    LinkAndSwap(m, t, c, node, m.threads[t].newHead);
    LegalConcat(s, [BeginFree(t, node)], [PushLoad(t), PushLink(t), PushSwap(t, false)]);
    assert s.threads == m.threads[t := Idle];
    assert m.blocks[node := Block(ClassBytes(c), Free(c))] == s.blocks[node := Block(ClassBytes(c), Free(c))];
  }

  // ---------------------------------------------------------------- the limit on maxSize

  lemma {:induction false} CarveLargest(s: Pool, t: nat) returns (m: Pool)
    requires Shape(s) && s.threads == map[t := Idle] && s.heads[6] == 0 && s.maxSize >= U32 - 2048
    requires s.offset % 2048 == 0 && s.offset < U32
    ensures Legal(s, SoloCarve(t, 2048)) && m == Final(s, SoloCarve(t, 2048))
    ensures m == s.(offset := (s.offset + 2048) % U32, blocks := s.blocks[s.offset := Block(2048, Live(2048))])
  {
    LineRanges((2048 + 63) % SIZE_RANGE / 64);
    CarveRuns(s, t, 2048, 6);
    m := Final(s, SoloCarve(t, 2048));
  }

  lemma {:induction false} CarveMany(s: Pool, t: nat, k: nat) returns (steps: seq<Step>)
    requires Shape(s) && s.threads == map[t := Idle] && s.heads[6] == 0 && s.maxSize >= U32 - 2048
    requires s.offset % 2048 == 0 && s.offset + k * 2048 < U32
    ensures Legal(s, steps)
    ensures var z := Final(s, steps);
      && z.offset == s.offset + k * 2048 && z.maxSize == s.maxSize
      && z.threads == s.threads && z.heads == s.heads && z.pushes == s.pushes
      && (forall b :: b in s.blocks && b < s.offset ==> b in z.blocks && z.blocks[b] == s.blocks[b])
      && (k > 0 ==> s.offset in z.blocks && z.blocks[s.offset] == Block(2048, Live(2048)))
    decreases k
  {
    hide Apply, Enabled, SoloCarve;
    if k == 0 {
      steps := [];
    } else {
      var m := CarveLargest(s, t);
      var rest := CarveMany(m, t, k - 1);
      LegalConcat(s, SoloCarve(t, 2048), rest);
      steps := SoloCarve(t, 2048) + rest;
    }
  }

  /** A limit within 2048 bytes of 2^32 is not safe: some run of a single thread, which only allocates, is handed a
      block that ends past the limit, and the bump offset is back at 0 while the block there is still live. Together
      with EveryRunIsSafe: the pool is safe for a limit below 2^32 exactly when limit + 2048 is below it too. */
  lemma {:induction false} LimitTooLarge(maxSize: nat, t: nat) returns (steps: seq<Step>)
    requires U32 - 2048 <= maxSize < U32
    ensures Legal(Start(maxSize, {t}), steps)
    ensures var z := Final(Start(maxSize, {t}), steps);
      && z.offset == 0 && FewPushes(z)
      && 0 in z.blocks && z.blocks[0] == Block(2048, Live(2048))
      && (exists b :: b in z.blocks && b + z.blocks[b].bytes > maxSize)
  {
    hide Legal, Final, Apply, SoloCarve;
    var s := Start(maxSize, {t});
    assert s.threads == map[t := Idle];
    var k := U32 / 2048 - 1;
    var first := CarveMany(s, t, k);
    var m := Final(s, first);
    var z := CarveLargest(m, t);
    LegalConcat(s, first, SoloCarve(t, 2048));
    steps := first + SoloCarve(t, 2048);
    assert U32 - 2048 in z.blocks;
  }

  lemma NoWrap(n: nat)
    requires n < U32
    ensures n % U32 == n
  {
  }

  /** A release, seen from outside: the block is now the head of its chain and nothing else has changed hands. */
  lemma {:induction false} PushOutcome(s: Pool, t: nat, node: nat, c: nat) returns (z: Pool)
    requires Inv(s) && t in s.threads && s.threads[t].Idle?
    requires node in s.blocks && s.blocks[node].place.Live? && node < U32
    requires DeallocClass(s.blocks[node].place.req) == Class(c) && s.pushes[c] + 1 < U32
    ensures Legal(s, SoloPush(t, node)) && z == Final(s, SoloPush(t, node)) && Inv(z)
    ensures z == Pushed(s, c, node, NextLink(s, c, node))
    ensures NextLink(s, c, node) != 0 && LinkOffset(NextLink(s, c, node)) == node
  {
    PushRuns(s, t, node, c);
    NextLinkParts(s, c, node);
    z := Final(s, SoloPush(t, node));
    RunKeepsInv(s, SoloPush(t, node));
  }

  lemma NextLinkParts(s: Pool, c: nat, node: nat)
    requires Inv(s) && c < CLASSES && node < U32 && s.pushes[c] + 1 < U32
    ensures NextLink(s, c, node) != 0 && LinkOffset(NextLink(s, c, node)) == node
    ensures FewPushes(Pushed(s, c, node, NextLink(s, c, node)))
  {
    NoWrap(s.pushes[c] + 1);
    LinkParts(s.pushes[c] + 1, node);
  }

  lemma {:induction false} ChainAfterPush(s: Pool, z: Pool, c: nat, link: nat)
    requires Inv(s) && Inv(z) && c < CLASSES && z.stacks[c] == [link] + s.stacks[c]
    ensures Chain(z, c) == [LinkOffset(link)] + Chain(s, c)
  {
    ChainHoldsFree(s, c);
    ChainHoldsFree(z, c);
  }

  /** A live block lies where a 32-bit offset reaches. It has a class to go back to unless it is one of 64 bytes that
      was handed out for a size near 2^64. */
  lemma {:induction false} LiveBlock(s: Pool, node: nat)
    requires Inv(s) && node in s.blocks && s.blocks[node].place.Live?
    ensures node < U32 && AllocClass(s.blocks[node].place.req).Class?
    ensures DeallocClass(s.blocks[node].place.req).Class? <==> s.blocks[node].place.req <= 2048
    ensures s.blocks[node].bytes == ClassBytes(AllocClass(s.blocks[node].place.req).index)
  {
    assert BlockOk(s, node);
    ReleasableExact(s.blocks[node].place.req);
  }

  // ---------------------------------------------------------------- release and allocation undo each other

  /** Giving a block back and asking for the same size again returns that block and restores every stack and block,
      unless the size is one that dealloc files under a smaller class. */
  lemma {:induction false} ReleasedBlockIsReused(s: Pool, t: nat, node: nat) returns (m: Pool, z: Pool)
    requires Inv(s) && t in s.threads && s.threads[t].Idle?
    requires node in s.blocks && s.blocks[node].place.Live? && !Shrinks(s.blocks[node].place.req)
    requires DeallocClass(s.blocks[node].place.req).Class?
    requires forall c :: 0 <= c < CLASSES ==> s.pushes[c] + 1 < U32
    ensures Legal(s, SoloPush(t, node)) && m == Final(s, SoloPush(t, node))
    ensures Legal(m, SoloPop(t, s.blocks[node].place.req)) && z == Final(m, SoloPop(t, s.blocks[node].place.req))
    ensures z.blocks == s.blocks && z.stacks == s.stacks && z.heads == s.heads && z.offset == s.offset
  {
    LiveBlock(s, node);
    var req := s.blocks[node].place.req;
    DeallocNeverGrows(req);
    var c := DeallocClass(req).index;
    m := PushOutcome(s, t, node, c);
    PopRuns(m, t, req, c);
    z := Final(m, SoloPop(t, req));
    PushedThenPopped(s, c, node, NextLink(s, c, node), s.blocks[node]);
  }

  /** What a pop takes off after a push is what the push put on. */
  lemma PushedThenPopped(s: Pool, c: nat, node: nat, link: nat, block: Block)
    requires Shape(s) && c < CLASSES && node in s.blocks && s.blocks[node] == block
    ensures var m := Pushed(s, c, node, link);
      && m.heads[c] == link && m.stacks[c] != [] && m.heads[c := Word(m.mem, node)] == s.heads
      && m.stacks[c := m.stacks[c][1..]] == s.stacks && m.blocks[node := block] == s.blocks && m.offset == s.offset
  {
    var m := Pushed(s, c, node, link);
    assert m.heads[c := s.heads[c]] == s.heads;
    assert m.stacks[c][1..] == s.stacks[c];
    assert m.stacks[c := s.stacks[c]] == s.stacks;
  }

  // ---------------------------------------------------------------- what one thread's calls come to

  lemma {:induction false} NewBase(s: Pool)
    requires Inv(s)
    ensures forall b :: b in s.blocks ==> b < s.offset
  {
    forall b | b in s.blocks ensures b < s.offset { assert BlockOk(s, b); }
  }

  /** The head of a chain is null exactly when its stack is empty, and a bump that fits does not wrap. */
  lemma {:induction false} HeadTells(s: Pool, c: nat)
    requires Inv(s) && c < CLASSES
    ensures Shape(s) && (s.heads[c] == 0 <==> s.stacks[c] == [])
    ensures (s.offset + ClassBytes(c)) % U32 == s.offset + ClassBytes(c)
  {
    assert StackOk(s, c);
    if s.stacks[c] != [] { OnStackIsFree(s, c, s.stacks[c][0]); }
  }

  lemma {:induction false} Popped(s: Pool, t: nat, req: nat, c: nat) returns (z: Pool)
    requires Inv(s) && s.threads == map[t := Idle] && AllocClass(req) == Class(c) && s.heads[c] != 0
    ensures Inv(z) && s.stacks[c] != [] && s.stacks[c][0] == s.heads[c]
    ensures var node := LinkOffset(s.heads[c]);
      && node in s.blocks && s.blocks[node].place == Free(c)
      && z == s.(heads := s.heads[c := Word(s.mem, node)], stacks := s.stacks[c := s.stacks[c][1..]],
                 blocks := s.blocks[node := Block(ClassBytes(c), Live(req))])
  {
    hide AllocClass, ClassBytes;
    assert StackOk(s, c);
    PopRuns(s, t, req, c);
    OnStackIsFree(s, c, s.heads[c]);
    z := Final(s, SoloPop(t, req));
    RunKeepsInv(s, SoloPop(t, req));
  }

  lemma {:induction false} Carved(s: Pool, t: nat, req: nat, c: nat) returns (z: Pool)
    requires Inv(s) && s.threads == map[t := Idle] && AllocClass(req) == Class(c) && s.heads[c] == 0
    requires (s.offset + ClassBytes(c)) % U32 <= s.maxSize
    ensures Inv(z) && s.offset !in s.blocks
    ensures z == s.(offset := (s.offset + ClassBytes(c)) % U32,
                    blocks := s.blocks[s.offset := Block(ClassBytes(c), Live(req))])
  {
    hide AllocClass, ClassBytes;
    CarveRuns(s, t, req, c);
    NewBase(s);
    z := Final(s, SoloCarve(t, req));
    RunKeepsInv(s, SoloCarve(t, req));
  }

  // ---------------------------------------------------------------- the last tag

  /** The pool between two uses of the block at offset 0, after k pushes of its class. */
  ghost predicate Cycling(s: Pool, t: nat, k: nat) {
    && Inv(s) && s.threads == map[t := Idle] && 0 in s.blocks && s.blocks[0] == Block(64, Live(64))
    && s.stacks[0] == [] && s.pushes[0] == k && forall c :: 1 <= c < CLASSES ==> s.pushes[c] == 0
  }

  lemma SixtyFour()
    ensures AllocClass(64) == Class(0) && DeallocClass(64) == Class(0)
  {
    LineRanges(1);
  }

  /** Giving the block back and taking it again. */
  lemma {:induction false} Cycle(s: Pool, t: nat, k: nat) returns (steps: seq<Step>)
    requires Cycling(s, t, k) && k + 1 < U32
    ensures Legal(s, steps) && Cycling(Final(s, steps), t, k + 1)
  {
    SixtyFour();
    assert StackOk(s, 0);
    var m := PushOutcome(s, t, 0, 0);
    PopRuns(m, t, 64, 0);
    PushedThenPopped(s, 0, 0, NextLink(s, 0, 0), Block(64, Live(64)));
    RunKeepsInv(m, SoloPop(t, 64));
    LegalConcat(s, SoloPush(t, 0), SoloPop(t, 64));
    steps := SoloPush(t, 0) + SoloPop(t, 64);
  }

  lemma {:induction false} Cycles(s: Pool, t: nat, k: nat, n: nat) returns (steps: seq<Step>)
    requires Cycling(s, t, k) && k + n < U32
    ensures Legal(s, steps) && Cycling(Final(s, steps), t, k + n)
    decreases n
  {
    if n == 0 {
      steps := [];
    } else {
      var first := Cycle(s, t, k);
      var rest := Cycles(Final(s, first), t, k + 1, n - 1);
      LegalConcat(s, first, rest);
      steps := first + rest;
    }
  }

  /** The first allocation. */
  lemma {:induction false} FirstBlock(maxSize: nat, t: nat)
    requires 64 <= maxSize && maxSize + 2048 < U32
    ensures var s := Start(maxSize, {t}); Legal(s, SoloCarve(t, 64)) && Cycling(Final(s, SoloCarve(t, 64)), t, 0)
  {
    var s := Start(maxSize, {t});
    SixtyFour();
    assert s.threads == map[t := Idle];
    assert Inv(s);
    NoWrap(64);
    CarveRuns(s, t, 64, 0);
    RunKeepsInv(s, SoloCarve(t, 64));
  }

  /** The bound on pushes is needed. In a run of one thread that takes and returns the block at offset 0 over and
      over, the tag of the 2^32nd push is 0 again, the link of that block is then the null link, and the block is free
      but on no list. */
  lemma {:induction false} LastTagLosesBlock(maxSize: nat, t: nat) returns (steps: seq<Step>)
    requires 64 <= maxSize && maxSize + 2048 < U32
    ensures Legal(Start(maxSize, {t}), steps)
    ensures var z := Final(Start(maxSize, {t}), steps);
      && z.pushes[0] == U32 && (forall c :: 1 <= c < CLASSES ==> z.pushes[c] == 0)
      && 0 in z.blocks && z.blocks[0] == Block(64, Free(0)) && Chain(z, 0) == []
  {
    var s0 := Start(maxSize, {t});
    FirstBlock(maxSize, t);
    var s := Final(s0, SoloCarve(t, 64));
    var many := Cycles(s, t, 0, U32 - 1);
    LegalConcat(s0, SoloCarve(t, 64), many);
    var m := Final(s, many);
    var before := SoloCarve(t, 64) + many;
    LastPush(m, t);
    LegalConcat(s0, before, SoloPush(t, 0));
    steps := before + SoloPush(t, 0);
  }

  lemma {:induction false} LastPush(m: Pool, t: nat)
    requires Cycling(m, t, U32 - 1)
    ensures Legal(m, SoloPush(t, 0))
    ensures var z := Final(m, SoloPush(t, 0));
      && z.pushes[0] == U32 && (forall c :: 1 <= c < CLASSES ==> z.pushes[c] == 0)
      && 0 in z.blocks && z.blocks[0] == Block(64, Free(0)) && Chain(z, 0) == []
  {
    SixtyFour();
    PushRuns(m, t, 0, 0);
    assert NextLink(m, 0, 0) == 0;
  }
}

/** The allocator's memory, updated in place by a thread that runs without interference; the ghost field is the
    interleaved machine in the same state. */
module MemCtxs {
  import opened MemClasses
  import opened PoolProtocol
  import opened PoolAlone

  datatype Address = Nowhere | At(offset: nat)

  class MemCtx {
    const me: nat                // the calling thread
    const maxSize: nat
    var offset: nat
    var heads: seq<nat>
    var tags: seq<nat>
    var mem: map<nat, nat>
    ghost var pool: Pool

    ghost function Tag(p: Pool, c: nat): nat
      requires Shape(p) && c < CLASSES
    {
      p.pushes[c] % U32
    }

    ghost predicate Mirrors()
      reads this
    {
      && Shape(pool) && pool.maxSize == maxSize && pool.offset == offset && pool.heads == heads && pool.mem == mem
      && |tags| == CLASSES && forall c :: 0 <= c < CLASSES ==> tags[c] == Tag(pool, c)
    }

    ghost predicate Valid()
      reads this
    {
      Mirrors() && Inv(pool) && pool.threads == map[me := Idle]
    }

    constructor (me: nat, maxSize: nat)
      requires maxSize + 2048 < U32
      ensures Valid() && pool == Start(maxSize, {me}) && this.me == me && this.maxSize == maxSize
    {
      this.me := me;
      this.maxSize := maxSize;
      offset := 0;
      heads, tags := seq(CLASSES, _ => 0), seq(CLASSES, _ => 0);
      mem := map[];
      pool := Start(maxSize, {me});
    }

    method Pop(c: nat, spurious: nat) returns (r: Address)
      requires c < CLASSES && |heads| == CLASSES
      modifies this`heads
      ensures old(heads[c]) == 0 ==> r.Nowhere? && heads == old(heads)
      ensures old(heads[c]) != 0 ==>
        r == At(LinkOffset(old(heads[c]))) && heads == old(heads)[c := Word(mem, LinkOffset(old(heads[c])))]
    {
      var left, oldHead := spurious, heads[c];
      while true
        invariant heads == old(heads) && oldHead == heads[c]
        decreases left
      {
        if oldHead == 0 {
          return Nowhere;
        }
        var node := LinkOffset(oldHead);
        var next := Word(mem, node);
        if left > 0 {
          left, oldHead := left - 1, heads[c];
        } else {
          heads := heads[c := next];
          return At(node);
        }
      }
    }

    method Push(c: nat, node: nat, spurious: nat)
      requires c < CLASSES && |heads| == |tags| == CLASSES && node < U32
      modifies this`heads, this`tags, this`mem
      ensures tags == old(tags)[c := (old(tags[c]) + 1) % U32]
      ensures heads == old(heads)[c := MakeLink((old(tags[c]) + 1) % U32, node)]
      ensures mem == old(mem)[node := old(heads[c])]
    {
      tags := tags[c := (tags[c] + 1) % U32];
      var newHead := MakeLink(tags[c], node);
      var left, oldHead := spurious, heads[c];
      mem := mem[node := oldHead];
      while left > 0
        invariant heads == old(heads) && oldHead == heads[c] && mem == old(mem)[node := oldHead]
        invariant tags == old(tags)[c := (old(tags[c]) + 1) % U32]
      {
        left, oldHead := left - 1, heads[c];
        mem := mem[node := oldHead];
        assert old(mem)[node := oldHead][node := oldHead] == old(mem)[node := oldHead];
      }
      heads := heads[c := newHead];
    }

    method Reserve(bytes: nat, spurious: nat) returns (r: Address)
      modifies this`offset
      ensures if (old(offset) + bytes) % U32 > maxSize then r.Nowhere? && offset == old(offset)
              else r == At(old(offset)) && offset == (old(offset) + bytes) % U32
    {
      var left, oldOffset := spurious, offset;
      while true
        invariant oldOffset == offset == old(offset)
        decreases left
      {
        var newOffset := (oldOffset + bytes) % U32;
        if newOffset > maxSize {
          return Nowhere;
        }
        if left > 0 {
          left, oldOffset := left - 1, offset;
        } else {
          offset := newOffset;
          return At(oldOffset);
        }
      }
    }

    /** Throws bad_alloc (Nowhere) exactly when the size has no class, or its free list is empty and the rest of the
        pool is too small. The block handed out is new or was free, and is the top of the free list if there is one. */
    method Alloc(size: nat, spurious: nat) returns (r: Address)
      requires Valid()
      modifies this
      ensures Valid()
      ensures r.Nowhere? <==>
        (AllocClass(size).Class? ==>
           old(pool.stacks)[AllocClass(size).index] == []
           && old(offset) + ClassBytes(AllocClass(size).index) > maxSize)
      ensures r.Nowhere? ==> pool == old(pool)
      ensures r.At? ==>
        && pool.blocks == old(pool.blocks)[r.offset := Block(ClassBytes(AllocClass(size).index), Live(size))]
        && pool.pushes == old(pool.pushes)
        && var st := old(pool.stacks)[AllocClass(size).index];
           if st == [] then r.offset == old(offset) && r.offset !in old(pool.blocks)
           else r.offset == LinkOffset(st[0]) && r.offset in old(pool.blocks)
                && old(pool.blocks)[r.offset].place == Free(AllocClass(size).index)
    {
      hide Inv, Legal, Final, AllocClass, ClassBytes;
      var choice := AllocClass(size);
      if choice.NoClass? {
        return Nowhere;
      }
      var c := choice.index;
      HeadTells(pool, c);
      r := Pop(c, spurious);
      if r.At? {
        pool := Popped(pool, me, size, c);
      } else {
        r := Reserve(ClassBytes(c), spurious);
        if r.At? {
          pool := Carved(pool, me, size, c);
        }
      }
    }

    /** Takes back a live block under the size it was asked for; it becomes the top of the chain of its class. A size
        that has no class, which alloc serves only when its sum has run over, aborts the program. */
    method Dealloc(addr: nat, size: nat, spurious: nat) returns (aborted: bool)
      requires Valid() && addr in pool.blocks && pool.blocks[addr].place == Live(size)
      requires forall c :: 0 <= c < CLASSES ==> pool.pushes[c] + 1 < U32
      modifies this
      ensures Valid() && offset == old(offset)
      ensures aborted <==> size > 2048
      ensures aborted ==> pool == old(pool)
      ensures !aborted ==> DeallocClass(size).Class? && var c := DeallocClass(size).index;
        && pool.blocks == old(pool.blocks)[addr := Block(ClassBytes(c), Free(c))]
        && Chain(pool, c) == [addr] + Chain(old(pool), c)
        && forall d :: 0 <= d < CLASSES && d != c ==> pool.stacks[d] == old(pool.stacks)[d]
    {
      hide Inv, AllocClass, DeallocClass, ClassBytes, Chain, Legal, Final;
      LiveBlock(pool, addr);
      var choice := DeallocClass(size);
      if choice.NoClass? {
        return true;
      }
      aborted := false;
      var c := choice.index;
      NoWrap(pool.pushes[c]);
      NoWrap(pool.pushes[c] + 1);
      Push(c, addr, spurious);
      ghost var z := PushOutcome(pool, me, addr, c);
      ChainAfterPush(pool, z, c, NextLink(pool, c, addr));
      pool := z;
    }
  }
}
