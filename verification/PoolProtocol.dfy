/** The lock-free block pool as an interleaved state machine: seven tagged stacks of free blocks and one bump
    allocator, all reached by loads and weak compare-and-swaps of any number of threads. */
module PoolProtocol {
  import opened MemClasses

  const U32: nat := 0x1_0000_0000

  /** A link has a tag in its upper and an offset in its lower 32 bits. */
  function MakeLink(tag: nat, offset: nat): nat
    requires tag < U32 && offset < U32
  {
    tag * U32 + offset
  }

  function LinkOffset(link: nat): nat {
    link % U32
  }

  function LinkTag(link: nat): nat {
    link / U32
  }

  lemma LinkParts(tag: nat, offset: nat)
    requires tag < U32 && offset < U32
    ensures LinkTag(MakeLink(tag, offset)) == tag && LinkOffset(MakeLink(tag, offset)) == offset
  {
  }

  /** Offsets are counted in the lower half of a link and tags in the upper one: a null offset without a tag is the null
      link, and one more tag is 2^32 more. */
  lemma LinkHalves(tag: nat, offset: nat)
    requires tag < U32 - 1 && offset < U32
    ensures MakeLink(0, offset) == offset && MakeLink(tag + 1, offset) == MakeLink(tag, offset) + 4294967296
    ensures MakeLink(tag, offset) == 0 <==> tag == 0 == offset
  {
  }

  /** Every 64-bit word is the link of its parts. */
  lemma LinkOfParts(link: nat)
    requires link <= 0xFFFF_FFFF_FFFF_FFFF
    ensures LinkTag(link) < U32 && LinkOffset(link) < U32 && MakeLink(LinkTag(link), LinkOffset(link)) == link
  {
  }

  datatype Thread =
    | Idle
    | PushTagged(c: nat, node: nat, newHead: nat)                    // about to load head
    | PushLoaded(c: nat, node: nat, newHead: nat, oldHead: nat)      // about to write node->next
    | PushLinked(c: nat, node: nat, newHead: nat, oldHead: nat)      // about to swap head
    | PopLoaded(c: nat, req: nat, oldHead: nat)                      // about to read node->next
    | PopRead(c: nat, req: nat, oldHead: nat, next: nat)             // about to swap head
    | ReserveStart(c: nat, req: nat)
    | ReserveLoaded(c: nat, req: nat, oldOffset: nat)
    | ReserveTry(c: nat, req: nat, oldOffset: nat, newOffset: nat)   // about to swap offset

  datatype Place =
    | Live(req: nat)      // handed out for a request of req bytes
    | Pushing(t: nat)     // given back, held by thread t inside push
    | Free(c: nat)        // on the stack of class c

  datatype Block = Block(bytes: nat, place: Place)

  /** Shared memory (`offset`, `heads`, `mem`), the number of pushes so far of each class (the tag is this number modulo
      2^32) and the threads. `stacks` and `blocks` record what the machine did: the links pushed and not popped, newest
      first, and every block ever carved, by its offset. */
  datatype Pool = Pool(
    maxSize: nat, offset: nat, heads: seq<nat>, pushes: seq<nat>, mem: map<nat, nat>, threads: map<nat, Thread>,
    stacks: seq<seq<nat>>, blocks: map<nat, Block>)

  /** Mapped memory is zero until written. */
  function Word(mem: map<nat, nat>, offset: nat): nat {
    if offset in mem then mem[offset] else 0
  }

  datatype Step =
    | BeginAlloc(t: nat, req: nat)
    | PopNext(t: nat)
    | PopSwap(t: nat, spurious: bool)
    | ReserveLoad(t: nat)
    | ReserveCheck(t: nat)
    | ReserveSwap(t: nat, spurious: bool)
    | BeginFree(t: nat, node: nat)
    | PushLoad(t: nat)
    | PushLink(t: nat)
    | PushSwap(t: nat, spurious: bool)
    | ClientWrite(node: nat, m: map<nat, nat>)   // a client overwrites a block it holds, link field included

  predicate Shape(s: Pool) {
    |s.heads| == |s.pushes| == |s.stacks| == CLASSES && s.maxSize < U32
  }

  /** Which class a thread is busy with. */
  predicate ClassOk(th: Thread) {
    !th.Idle? ==> th.c < CLASSES
  }

  ghost predicate Enabled(s: Pool, step: Step) {
    if step.ClientWrite? then
      step.node in s.blocks && s.blocks[step.node].place.Live?
      && forall o: nat :: o < step.node || o >= step.node + s.blocks[step.node].bytes ==>
           Word(step.m, o) == Word(s.mem, o)
    else
      step.t in s.threads && ClassOk(s.threads[step.t]) &&
      var th := s.threads[step.t];
      match step
      case BeginAlloc(_, _) => th.Idle?
      case PopNext(_) => th.PopLoaded?
      case PopSwap(_, _) => th.PopRead?
      case ReserveLoad(_) => th.ReserveStart?
      case ReserveCheck(_) => th.ReserveLoaded?
      case ReserveSwap(_, _) => th.ReserveTry?
      case BeginFree(_, node) =>
        th.Idle? && node in s.blocks && s.blocks[node].place.Live? && node < U32
        && DeallocClass(s.blocks[node].place.req).Class?
      case PushLoad(_) => th.PushTagged?
      case PushLink(_) => th.PushLoaded?
      case PushSwap(_, _) => th.PushLinked?
  }

  function SetThread(s: Pool, t: nat, th: Thread): Pool {
    s.(threads := s.threads[t := th])
  }

  function Tail(st: seq<nat>): seq<nat> {
    if st == [] then [] else st[1..]
  }

  ghost function Apply(s: Pool, step: Step): (s': Pool)
    requires Shape(s) && Enabled(s, step)
    ensures Shape(s') && s'.maxSize == s.maxSize && s'.threads.Keys == s.threads.Keys
  {
    if step.ClientWrite? then s.(mem := step.m)
    else
      var t := step.t;
      var th := s.threads[t];
      match step
      case BeginAlloc(_, req) =>
        var c := AllocClass(req);
        if c.NoClass? then s else SetThread(s, t, PopLoaded(c.index, req, s.heads[c.index]))
      case PopNext(_) =>
        SetThread(s, t, if th.oldHead == 0 then ReserveStart(th.c, th.req)
                        else PopRead(th.c, th.req, th.oldHead, Word(s.mem, LinkOffset(th.oldHead))))
      case PopSwap(_, spurious) => PopSwapped(s, t, spurious)
      case ReserveLoad(_) =>
        SetThread(s, t, ReserveLoaded(th.c, th.req, s.offset))
      case ReserveCheck(_) => ReserveChecked(s, t)
      case ReserveSwap(_, spurious) => ReserveSwapped(s, t, spurious)
      case BeginFree(_, node) => FreeBegun(s, t, node)
      case PushLoad(_) =>
        SetThread(s, t, PushLoaded(th.c, th.node, th.newHead, s.heads[th.c]))
      case PushLink(_) =>
        SetThread(s, t, PushLinked(th.c, th.node, th.newHead, th.oldHead)).(mem := s.mem[th.node := th.oldHead])
      case PushSwap(_, spurious) => PushSwapped(s, t, spurious)
  }

  /** The sum is computed in 32 bits before it is compared with the limit. */
  function ReserveChecked(s: Pool, t: nat): (s': Pool)
    requires Shape(s) && t in s.threads && s.threads[t].ReserveLoaded? && ClassOk(s.threads[t])
    ensures Shape(s')
  {
    var th := s.threads[t];
    var n := (th.oldOffset + ClassBytes(th.c)) % U32;
    SetThread(s, t, if n > s.maxSize then Idle else ReserveTry(th.c, th.req, th.oldOffset, n))
  }

  function ReserveSwapped(s: Pool, t: nat, spurious: bool): (s': Pool)
    requires Shape(s) && t in s.threads && s.threads[t].ReserveTry? && ClassOk(s.threads[t])
    ensures Shape(s')
  {
    var th := s.threads[t];
    if s.offset == th.oldOffset && !spurious then
      SetThread(s, t, Idle)
        .(offset := th.newOffset, blocks := s.blocks[th.oldOffset := Block(ClassBytes(th.c), Live(th.req))])
    else
      SetThread(s, t, ReserveLoaded(th.c, th.req, s.offset))
  }

  function PopSwapped(s: Pool, t: nat, spurious: bool): (s': Pool)
    requires Shape(s) && t in s.threads && s.threads[t].PopRead? && ClassOk(s.threads[t])
    ensures Shape(s')
  {
    var th := s.threads[t];
    var c := th.c;
    if s.heads[c] == th.oldHead && !spurious then
      SetThread(s, t, Idle)
        .(heads := s.heads[c := th.next], stacks := s.stacks[c := Tail(s.stacks[c])],
          blocks := s.blocks[LinkOffset(th.oldHead) := Block(ClassBytes(c), Live(th.req))])
    else
      SetThread(s, t, PopLoaded(c, th.req, s.heads[c]))
  }

  function FreeBegun(s: Pool, t: nat, node: nat): (s': Pool)
    requires Shape(s) && t in s.threads && node in s.blocks && s.blocks[node].place.Live? && node < U32
    requires DeallocClass(s.blocks[node].place.req).Class?
    ensures Shape(s')
  {
    var c := DeallocClass(s.blocks[node].place.req).index;
    SetThread(s, t, PushTagged(c, node, MakeLink((s.pushes[c] + 1) % U32, node)))
      .(pushes := s.pushes[c := s.pushes[c] + 1], blocks := s.blocks[node := Block(ClassBytes(c), Pushing(t))])
  }

  function PushSwapped(s: Pool, t: nat, spurious: bool): (s': Pool)
    requires Shape(s) && t in s.threads && s.threads[t].PushLinked? && ClassOk(s.threads[t])
    ensures Shape(s')
  {
    var th := s.threads[t];
    var c := th.c;
    if s.heads[c] == th.oldHead && !spurious then
      SetThread(s, t, Idle)
        .(heads := s.heads[c := th.newHead], stacks := s.stacks[c := [th.newHead] + s.stacks[c]],
          blocks := s.blocks[th.node := Block(ClassBytes(c), Free(c))])
    else
      SetThread(s, t, PushLoaded(c, th.node, th.newHead, s.heads[c]))
  }

  // ---------------------------------------------------------------- the invariant

  predicate Pushes(th: Thread) {
    th.PushTagged? || th.PushLoaded? || th.PushLinked?
  }

  predicate Pops(th: Thread) {
    th.PopLoaded? || th.PopRead?
  }

  /** Offsets and tags stay within 32 bits. */
  ghost predicate Bounds(s: Pool) {
    && Shape(s) && s.maxSize + 2048 < U32
    && s.offset <= s.maxSize && s.offset % CACHE_LINE == 0
    && (forall c :: 0 <= c < CLASSES ==> s.pushes[c] < U32)
  }

  ghost predicate BlockOk(s: Pool, b: nat)
    requires Bounds(s) && b in s.blocks
  {
    var x := s.blocks[b];
    && b % CACHE_LINE == 0 && x.bytes >= CACHE_LINE && b + x.bytes <= s.offset
    && match x.place
       case Live(req) => AllocClass(req).Class? && x.bytes == ClassBytes(AllocClass(req).index)
       case Pushing(t) => t in s.threads && Pushes(s.threads[t]) && s.threads[t].node == b
       case Free(c) => c < CLASSES && x.bytes == ClassBytes(c)
                       && exists i :: 0 <= i < |s.stacks[c]| && LinkOffset(s.stacks[c][i]) == b
  }

  ghost predicate Disjoint(blocks: map<nat, Block>) {
    forall a, b :: a in blocks && b in blocks && a < b ==> a + blocks[a].bytes <= b
  }

  /** The link at place i of a stack: a free block of the class, whose next field leads to place i + 1. */
  ghost predicate NodeOk(s: Pool, c: nat, i: nat)
    requires Bounds(s) && c < CLASSES && i < |s.stacks[c]|
  {
    var st := s.stacks[c];
    && 1 <= LinkTag(st[i]) <= s.pushes[c]
    && LinkOffset(st[i]) in s.blocks && s.blocks[LinkOffset(st[i])].place == Free(c)
    && Word(s.mem, LinkOffset(st[i])) == if i + 1 < |st| then st[i + 1] else 0
  }

  ghost predicate StackOk(s: Pool, c: nat)
    requires Bounds(s) && c < CLASSES
  {
    var st := s.stacks[c];
    && s.heads[c] == (if st == [] then 0 else st[0])
    && (forall i :: 0 <= i < |st| ==> NodeOk(s, c, i))
    && (forall i, j :: 0 <= i < j < |st| ==> LinkOffset(st[i]) != LinkOffset(st[j]))
  }

  ghost predicate ThreadOk(s: Pool, t: nat)
    requires Bounds(s) && t in s.threads
  {
    var th := s.threads[t];
    ClassOk(th) &&
    match th
    case Idle => true
    case PushTagged(c, node, newHead) => PushOk(s, t, c, node, newHead)
    case PushLoaded(c, node, newHead, _) => PushOk(s, t, c, node, newHead)
    case PushLinked(c, node, newHead, oldHead) => PushOk(s, t, c, node, newHead) && Word(s.mem, node) == oldHead
    case PopLoaded(c, req, oldHead) =>
      AllocClass(req) == Class(c) && LinkTag(oldHead) <= s.pushes[c]
    case PopRead(c, req, oldHead, next) =>
      && AllocClass(req) == Class(c) && LinkTag(oldHead) <= s.pushes[c] && oldHead != 0
      && (oldHead in s.stacks[c] ==> next == Word(s.mem, LinkOffset(oldHead)))
    case ReserveStart(c, req) => AllocClass(req) == Class(c)
    case ReserveLoaded(c, req, at) => AllocClass(req) == Class(c) && at <= s.maxSize && at % CACHE_LINE == 0
    case ReserveTry(c, req, at, n) =>
      AllocClass(req) == Class(c) && at % CACHE_LINE == 0 && n == at + ClassBytes(c) && n <= s.maxSize
  }

  ghost predicate PushOk(s: Pool, t: nat, c: nat, node: nat, newHead: nat)
    requires Bounds(s) && c < CLASSES
  {
    && node in s.blocks && s.blocks[node] == Block(ClassBytes(c), Pushing(t))
    && LinkOffset(newHead) == node && 1 <= LinkTag(newHead) <= s.pushes[c]
  }

  predicate ThreadsApart(a: Thread, b: Thread) {
    Pops(a) && Pushes(b) && a.c == b.c ==> a.oldHead != b.newHead
  }

  /** A link that some pop holds is never the link that some push is about to install: this is what the tag is for. */
  ghost predicate Apart(s: Pool) {
    forall t, u :: t in s.threads && u in s.threads ==> ThreadsApart(s.threads[t], s.threads[u])
  }

  ghost predicate Inv(s: Pool) {
    && Bounds(s)
    && (forall b :: b in s.blocks ==> BlockOk(s, b))
    && Disjoint(s.blocks)
    && (forall c :: 0 <= c < CLASSES ==> StackOk(s, c))
    && (forall t :: t in s.threads ==> ThreadOk(s, t))
    && Apart(s)
  }

  // ---------------------------------------------------------------- each step keeps it

  /** A stack whose links, head, blocks and next fields are untouched is still good. */
  lemma {:induction false} FrameStack(s: Pool, z: Pool, c: nat)
    requires Bounds(s) && Bounds(z) && c < CLASSES && StackOk(s, c)
    requires z.stacks[c] == s.stacks[c] && z.heads[c] == s.heads[c] && s.pushes[c] <= z.pushes[c]
    requires forall b :: b in s.blocks && s.blocks[b].place == Free(c) ==>
      b in z.blocks && z.blocks[b] == s.blocks[b] && Word(z.mem, b) == Word(s.mem, b)
    ensures StackOk(z, c)
  {
    forall i | 0 <= i < |z.stacks[c]| ensures NodeOk(z, c, i) { assert NodeOk(s, c, i); }
  }

  /** A block whose bytes and place are untouched and which is still pushed, or still on its stack. */
  lemma {:induction false} FrameBlock(s: Pool, z: Pool, b: nat)
    requires Bounds(s) && Bounds(z) && b in s.blocks && BlockOk(s, b)
    requires b in z.blocks && z.blocks[b] == s.blocks[b] && s.offset <= z.offset
    requires var p := s.blocks[b].place; p.Pushing? ==>
      p.t in z.threads && Pushes(z.threads[p.t]) && z.threads[p.t].node == b
    requires var p := s.blocks[b].place; p.Free? && p.c < CLASSES ==>
      forall link :: link in s.stacks[p.c] && LinkOffset(link) == b ==> link in z.stacks[p.c]
    ensures BlockOk(z, b)
  {
    var p := s.blocks[b].place;
    if p.Free? {
      var i :| 0 <= i < |s.stacks[p.c]| && LinkOffset(s.stacks[p.c][i]) == b;
      var link := s.stacks[p.c][i];
      assert link in s.stacks[p.c];
      var j :| 0 <= j < |z.stacks[p.c]| && z.stacks[p.c][j] == link;
    }
  }

  /** A thread that stays where it is. */
  lemma {:induction false} FrameThread(s: Pool, z: Pool, u: nat)
    requires Bounds(s) && Bounds(z) && u in s.threads && ThreadOk(s, u)
    requires u in z.threads && z.threads[u] == s.threads[u] && z.maxSize == s.maxSize
    requires forall c :: 0 <= c < CLASSES ==> s.pushes[c] <= z.pushes[c]
    requires var th := s.threads[u]; Pushes(th) ==>
      th.node in z.blocks && z.blocks[th.node] == s.blocks[th.node] && Word(z.mem, th.node) == Word(s.mem, th.node)
    requires var th := s.threads[u]; th.PopRead? && th.oldHead in z.stacks[th.c] ==>
      th.oldHead in s.stacks[th.c] && Word(z.mem, LinkOffset(th.oldHead)) == Word(s.mem, LinkOffset(th.oldHead))
    ensures ThreadOk(z, u)
  {
  }

  /** A step that changes nothing but where thread t stands, and leaves what it pushes alone. */
  lemma {:induction false} MoveKeepsInv(s: Pool, t: nat, th: Thread)
    requires Inv(s) && t in s.threads
    requires ThreadOk(SetThread(s, t, th), t)
    requires Pushes(th) <==> Pushes(s.threads[t])
    requires Pushes(th) ==> th.c == s.threads[t].c && th.node == s.threads[t].node && th.newHead == s.threads[t].newHead
    requires forall u :: u in s.threads ==> ThreadsApart(th, s.threads[u])
    ensures Inv(SetThread(s, t, th))
  {
    var z := SetThread(s, t, th);
    forall b | b in z.blocks ensures BlockOk(z, b) { assert BlockOk(s, b); FrameBlock(s, z, b); }
    forall c | 0 <= c < CLASSES ensures StackOk(z, c) { FrameStack(s, z, c); }
    forall u | u in z.threads ensures ThreadOk(z, u) { if u != t { FrameThread(s, z, u); } }
    forall u, w | u in z.threads && w in z.threads ensures ThreadsApart(z.threads[u], z.threads[w]) {
      assert ThreadsApart(s.threads[u], s.threads[w]);
      assert ThreadsApart(th, s.threads[w]);
    }
  }

  lemma {:induction false} OnStackIsFree(s: Pool, c: nat, link: nat)
    requires Inv(s) && c < CLASSES && link in s.stacks[c]
    ensures LinkOffset(link) in s.blocks && s.blocks[LinkOffset(link)].place == Free(c)
    ensures link != 0 && s.heads[c] in s.stacks[c]
  {
    assert StackOk(s, c);
    var i :| 0 <= i < |s.stacks[c]| && s.stacks[c][i] == link;
    assert NodeOk(s, c, i);
  }

  /** The current head is no pending push's link. */
  lemma {:induction false} HeadIsNotPending(s: Pool, c: nat, u: nat)
    requires Inv(s) && c < CLASSES && u in s.threads && Pushes(s.threads[u]) && s.threads[u].c == c
    ensures s.heads[c] != s.threads[u].newHead
  {
    assert ThreadOk(s, u) && StackOk(s, c);
    if s.stacks[c] != [] { OnStackIsFree(s, c, s.stacks[c][0]); }
  }

  lemma {:induction false} PopLoadKeepsInv(s: Pool, t: nat, c: nat, req: nat)
    requires Inv(s) && t in s.threads && !Pushes(s.threads[t])
    requires AllocClass(req) == Class(c)
    ensures Inv(SetThread(s, t, PopLoaded(c, req, s.heads[c])))
  {
    assert StackOk(s, c);
    if s.stacks[c] != [] { assert NodeOk(s, c, 0); }
    forall u | u in s.threads ensures ThreadsApart(PopLoaded(c, req, s.heads[c]), s.threads[u]) {
      if Pushes(s.threads[u]) && s.threads[u].c == c { HeadIsNotPending(s, c, u); }
    }
    MoveKeepsInv(s, t, PopLoaded(c, req, s.heads[c]));
  }

  /** When pop's swap is about to succeed, its link is the top of the stack and what it installs is that block's
      current next, whatever happened between its loads. */
  lemma {:induction false} PopSeesTop(s: Pool, t: nat)
    requires Inv(s) && t in s.threads && s.threads[t].PopRead?
    requires ClassOk(s.threads[t]) && s.heads[s.threads[t].c] == s.threads[t].oldHead
    ensures var th := s.threads[t];
      && s.stacks[th.c] != [] && s.stacks[th.c][0] == th.oldHead
      && th.next == Word(s.mem, LinkOffset(th.oldHead))
      && th.next == (if |s.stacks[th.c]| > 1 then s.stacks[th.c][1] else 0)
      && LinkOffset(th.oldHead) in s.blocks && s.blocks[LinkOffset(th.oldHead)].place == Free(th.c)
  {
    var th := s.threads[t];
    assert ThreadOk(s, t) && StackOk(s, th.c);
    assert NodeOk(s, th.c, 0);
    assert s.stacks[th.c][0] in s.stacks[th.c];
  }

  /** Taking the top off a stack. */
  lemma {:induction false} PoppedStack(s: Pool, z: Pool, c: nat, next: nat)
    requires Bounds(s) && Bounds(z) && c < CLASSES && StackOk(s, c) && s.stacks[c] != []
    requires z.stacks[c] == s.stacks[c][1..] && z.heads[c] == next && z.mem == s.mem && z.pushes == s.pushes
    requires next == if |s.stacks[c]| > 1 then s.stacks[c][1] else 0
    requires forall b :: b in s.blocks && s.blocks[b].place == Free(c) && b != LinkOffset(s.stacks[c][0]) ==>
      b in z.blocks && z.blocks[b] == s.blocks[b]
    ensures StackOk(z, c)
  {
    forall i | 0 <= i < |z.stacks[c]| ensures NodeOk(z, c, i) { assert NodeOk(s, c, i + 1); }
  }

  lemma {:induction false} PopSwapKeepsThreads(s: Pool, z: Pool, t: nat)
    requires Inv(s) && t in s.threads && s.threads[t].PopRead?
    requires ClassOk(s.threads[t]) && s.heads[s.threads[t].c] == s.threads[t].oldHead
    requires z == PopSwapped(s, t, false) && Bounds(z)
    ensures (forall u :: u in z.threads ==> ThreadOk(z, u)) && Apart(z)
  {
    hide StackOk, Disjoint;
    PopSeesTop(s, t);
    forall u | u in z.threads ensures ThreadOk(z, u) {
      assert ThreadOk(s, u);
      if u != t { FrameThread(s, z, u); }
    }
    forall u, w | u in z.threads && w in z.threads ensures ThreadsApart(z.threads[u], z.threads[w]) {
      assert ThreadsApart(s.threads[u], s.threads[w]);
    }
  }

  lemma {:induction false} PopSwapKeepsInv(s: Pool, t: nat)
    requires Inv(s) && t in s.threads && s.threads[t].PopRead?
    requires ClassOk(s.threads[t]) && s.heads[s.threads[t].c] == s.threads[t].oldHead
    ensures Inv(PopSwapped(s, t, false))
  {
    PopSeesTop(s, t);
    assert ThreadOk(s, t);
    var th := s.threads[t];
    var c, node := th.c, LinkOffset(th.oldHead);
    var z := PopSwapped(s, t, false);
    assert BlockOk(s, node);
    assert Bounds(z);
    forall d | 0 <= d < CLASSES ensures StackOk(z, d) {
      if d == c { PoppedStack(s, z, c, th.next); } else { FrameStack(s, z, d); }
    }
    forall b | b in z.blocks ensures BlockOk(z, b) {
      assert BlockOk(s, b);
      if b != node {
        assert s.stacks[c] == [th.oldHead] + z.stacks[c];
        FrameBlock(s, z, b);
      }
    }
    PopSwapKeepsThreads(s, z, t);
  }

  lemma {:induction false} ReserveSwapKeepsThreads(s: Pool, z: Pool, t: nat, c: nat, req: nat)
    requires Inv(s) && t in s.threads && c < CLASSES && s.offset + ClassBytes(c) <= s.maxSize
    requires z == SetThread(s, t, Idle).(offset := s.offset + ClassBytes(c),
                                         blocks := s.blocks[s.offset := Block(ClassBytes(c), Live(req))])
    requires Bounds(z) && s.offset !in s.blocks
    ensures (forall u :: u in z.threads ==> ThreadOk(z, u)) && Apart(z)
  {
    hide StackOk, Disjoint, BlockOk;
    forall u | u in z.threads ensures ThreadOk(z, u) {
      assert ThreadOk(s, u);
      if u != t { FrameThread(s, z, u); }
    }
    forall u, w | u in z.threads && w in z.threads ensures ThreadsApart(z.threads[u], z.threads[w]) {
      assert ThreadsApart(s.threads[u], s.threads[w]);
    }
  }

  lemma {:induction false} ReserveSwapKeepsInv(s: Pool, z: Pool, t: nat, c: nat, req: nat)
    requires Inv(s) && t in s.threads && AllocClass(req) == Class(c) && s.offset + ClassBytes(c) <= s.maxSize
    requires s.threads[t] == ReserveTry(c, req, s.offset, s.offset + ClassBytes(c))
    requires z == SetThread(s, t, Idle).(offset := s.offset + ClassBytes(c),
                                         blocks := s.blocks[s.offset := Block(ClassBytes(c), Live(req))])
    ensures Inv(z)
  {
    hide StackOk, ThreadOk, Apart;
    assert Bounds(z);
    forall b | b in s.blocks ensures BlockOk(s, b) && b < s.offset {}
    forall b | b in z.blocks ensures BlockOk(z, b) { if b != s.offset { assert BlockOk(s, b); FrameBlock(s, z, b); } }
    forall d | 0 <= d < CLASSES ensures StackOk(z, d) { FrameStack(s, z, d); }
    ReserveSwapKeepsThreads(s, z, t, c, req);
  }

  /** What a new push looks like to everybody else: its link is new. */
  lemma {:induction false} FreshLink(s: Pool, t: nat, c: nat, node: nat)
    requires Inv(s) && t in s.threads && c < CLASSES && node < U32 && s.pushes[c] + 1 < U32
    ensures var th := PushTagged(c, node, MakeLink((s.pushes[c] + 1) % U32, node));
      && LinkOffset(th.newHead) == node && LinkTag(th.newHead) == s.pushes[c] + 1
      && forall u :: u in s.threads ==> ThreadsApart(s.threads[u], th)
  {
    LinkParts(s.pushes[c] + 1, node);
    forall u | u in s.threads
      ensures ThreadsApart(s.threads[u], PushTagged(c, node, MakeLink((s.pushes[c] + 1) % U32, node))) {
      assert ThreadOk(s, u);
    }
  }

  lemma {:induction false} FreeKeepsThreads(s: Pool, z: Pool, t: nat, node: nat, c: nat)
    requires Inv(s) && t in s.threads && s.threads[t].Idle?
    requires node in s.blocks && s.blocks[node].place.Live? && node < U32
    requires c < CLASSES && s.pushes[c] + 1 < U32 && Bounds(z)
    requires z == SetThread(s, t, PushTagged(c, node, MakeLink((s.pushes[c] + 1) % U32, node)))
      .(pushes := s.pushes[c := s.pushes[c] + 1], blocks := s.blocks[node := Block(ClassBytes(c), Pushing(t))])
    ensures (forall u :: u in z.threads ==> ThreadOk(z, u)) && Apart(z)
  {
    FreshLink(s, t, c, node);
    forall u | u in z.threads ensures ThreadOk(z, u) {
      assert ThreadOk(s, u);
      if u != t { FrameThread(s, z, u); } else { assert PushOk(z, t, c, node, z.threads[t].newHead); }
    }
    forall u, w | u in z.threads && w in z.threads ensures ThreadsApart(z.threads[u], z.threads[w]) {
      assert ThreadsApart(s.threads[u], s.threads[w]);
      assert ThreadsApart(s.threads[u], z.threads[t]);
    }
  }

  lemma {:induction false} FreeKeepsInv(s: Pool, z: Pool, t: nat, node: nat, c: nat)
    requires Inv(s) && t in s.threads && s.threads[t].Idle?
    requires node in s.blocks && s.blocks[node].place.Live? && node < U32
    requires c < CLASSES && s.pushes[c] + 1 < U32 && ClassBytes(c) <= s.blocks[node].bytes
    requires z == SetThread(s, t, PushTagged(c, node, MakeLink((s.pushes[c] + 1) % U32, node)))
      .(pushes := s.pushes[c := s.pushes[c] + 1], blocks := s.blocks[node := Block(ClassBytes(c), Pushing(t))])
    ensures Inv(z)
  {
    assert BlockOk(s, node) && Bounds(z);
    forall b | b in z.blocks ensures BlockOk(z, b) { assert BlockOk(s, b); if b != node { FrameBlock(s, z, b); } }
    forall d | 0 <= d < CLASSES ensures StackOk(z, d) { FrameStack(s, z, d); }
    FreeKeepsThreads(s, z, t, node, c);
  }

  /** Memory may change anywhere but in the words of free blocks and of blocks that are linked and waiting to be
      pushed. */
  lemma {:induction false} MemoryChange(s: Pool, m: map<nat, nat>)
    requires Inv(s)
    requires forall b :: b in s.blocks && s.blocks[b].place.Free? ==> Word(m, b) == Word(s.mem, b)
    requires forall u :: u in s.threads && s.threads[u].PushLinked? ==>
      Word(m, s.threads[u].node) == Word(s.mem, s.threads[u].node)
    ensures Inv(s.(mem := m))
  {
    var z := s.(mem := m);
    forall b | b in z.blocks ensures BlockOk(z, b) { assert BlockOk(s, b); FrameBlock(s, z, b); }
    forall d | 0 <= d < CLASSES ensures StackOk(z, d) { FrameStack(s, z, d); }
    forall u | u in z.threads ensures ThreadOk(z, u) {
      assert ThreadOk(s, u);
      var th := s.threads[u];
      if th.PopRead? && th.oldHead in s.stacks[th.c] { OnStackIsFree(s, th.c, th.oldHead); }
    }
  }

  lemma {:induction false} PushLinkKeepsInv(s: Pool, z: Pool, t: nat)
    requires Inv(s) && t in s.threads && s.threads[t].PushLoaded?
    requires var th := s.threads[t];
      z == SetThread(s, t, PushLinked(th.c, th.node, th.newHead, th.oldHead)).(mem := s.mem[th.node := th.oldHead])
    ensures Inv(z)
  {
    var th := s.threads[t];
    assert ThreadOk(s, t);
    forall u | u in s.threads && s.threads[u].PushLinked? ensures s.threads[u].node != th.node {
      assert ThreadOk(s, u);
    }
    var m := s.mem[th.node := th.oldHead];
    MemoryChange(s, m);
    MoveKeepsInv(s.(mem := m), t, PushLinked(th.c, th.node, th.newHead, th.oldHead));
  }

  /** Putting a link on top of a stack. */
  lemma {:induction false} PushedStack(s: Pool, z: Pool, c: nat, link: nat)
    requires Bounds(s) && Bounds(z) && c < CLASSES && StackOk(s, c)
    requires z.stacks[c] == [link] + s.stacks[c] && z.heads[c] == link && z.mem == s.mem && z.pushes == s.pushes
    requires 1 <= LinkTag(link) <= z.pushes[c] && Word(s.mem, LinkOffset(link)) == s.heads[c]
    requires LinkOffset(link) in z.blocks && z.blocks[LinkOffset(link)].place == Free(c)
    requires LinkOffset(link) in s.blocks && s.blocks[LinkOffset(link)].place != Free(c)
    requires forall b :: b in s.blocks && s.blocks[b].place == Free(c) ==> b in z.blocks && z.blocks[b] == s.blocks[b]
    ensures StackOk(z, c)
  {
    forall i | 0 <= i < |s.stacks[c]| ensures LinkOffset(s.stacks[c][i]) != LinkOffset(link) { assert NodeOk(s, c, i); }
    forall i | 0 <= i < |z.stacks[c]| ensures NodeOk(z, c, i) { if i > 0 { assert NodeOk(s, c, i - 1); } }
  }

  lemma {:induction false} PushSwapKeepsThreads(s: Pool, z: Pool, t: nat)
    requires Inv(s) && t in s.threads && s.threads[t].PushLinked? && ClassOk(s.threads[t])
    requires s.heads[s.threads[t].c] == s.threads[t].oldHead && z == PushSwapped(s, t, false) && Bounds(z)
    ensures (forall u :: u in z.threads ==> ThreadOk(z, u)) && Apart(z)
  {
    var th := s.threads[t];
    assert ThreadOk(s, t);
    forall u | u in z.threads ensures ThreadOk(z, u) {
      if u != t {
        assert ThreadOk(s, u);
        assert ThreadsApart(s.threads[u], th);
        FrameThread(s, z, u);
      }
    }
    forall u, w | u in z.threads && w in z.threads ensures ThreadsApart(z.threads[u], z.threads[w]) {
      assert ThreadsApart(s.threads[u], s.threads[w]);
    }
  }

  lemma {:induction false} PushSwapKeepsInv(s: Pool, t: nat)
    requires Inv(s) && t in s.threads && s.threads[t].PushLinked?
    requires ClassOk(s.threads[t]) && s.heads[s.threads[t].c] == s.threads[t].oldHead
    ensures Inv(PushSwapped(s, t, false))
  {
    assert ThreadOk(s, t);
    var th := s.threads[t];
    var c, node := th.c, th.node;
    var z := PushSwapped(s, t, false);
    assert BlockOk(s, node) && Bounds(z);
    forall d | 0 <= d < CLASSES ensures StackOk(z, d) {
      if d == c { PushedStack(s, z, c, th.newHead); } else { FrameStack(s, z, d); }
    }
    forall b | b in z.blocks ensures BlockOk(z, b) {
      assert BlockOk(s, b);
      if b == node {
        assert LinkOffset(z.stacks[c][0]) == b;
      } else {
        FrameBlock(s, z, b);
      }
    }
    PushSwapKeepsThreads(s, z, t);
  }

  lemma {:induction false} ClientWriteKeepsInv(s: Pool, node: nat, m: map<nat, nat>)
    requires Inv(s) && Enabled(s, ClientWrite(node, m))
    ensures Inv(s.(mem := m))
  {
    assert BlockOk(s, node);
    forall b | b in s.blocks && b != node ensures Word(m, b) == Word(s.mem, b) { assert BlockOk(s, b); }
    forall u | u in s.threads && s.threads[u].PushLinked? ensures s.threads[u].node != node { assert ThreadOk(s, u); }
    MemoryChange(s, m);
  }

  lemma {:induction false} PopNextKeepsInv(s: Pool, t: nat)
    requires Inv(s) && t in s.threads && s.threads[t].PopLoaded?
    ensures Enabled(s, PopNext(t)) && Inv(Apply(s, PopNext(t)))
  {
    assert ThreadOk(s, t);
    var th := s.threads[t];
    forall u | u in s.threads ensures ThreadsApart(Apply(s, PopNext(t)).threads[t], s.threads[u]) {
      assert ThreadsApart(th, s.threads[u]);
    }
    MoveKeepsInv(s, t, Apply(s, PopNext(t)).threads[t]);
  }

  /** Pop's swap, successful or not. */
  lemma {:induction false} PopSwapStep(s: Pool, t: nat, spurious: bool)
    requires Inv(s) && t in s.threads && s.threads[t].PopRead? && ClassOk(s.threads[t])
    ensures Inv(PopSwapped(s, t, spurious))
  {
    assert ThreadOk(s, t);
    var th := s.threads[t];
    if s.heads[th.c] == th.oldHead && !spurious { PopSwapKeepsInv(s, t); } else { PopLoadKeepsInv(s, t, th.c, th.req); }
  }

  /** Below the limit the 32-bit sum is the true sum. */
  lemma SumDoesNotWrap(s: Pool, t: nat)
    requires Shape(s) && t in s.threads && s.threads[t].ReserveLoaded? && ClassOk(s.threads[t])
    requires s.threads[t].oldOffset <= s.maxSize && s.maxSize + 2048 < U32
    ensures var th := s.threads[t];
      ReserveChecked(s, t) == SetThread(s, t,
        if th.oldOffset + ClassBytes(th.c) > s.maxSize then Idle
        else ReserveTry(th.c, th.req, th.oldOffset, th.oldOffset + ClassBytes(th.c)))
  {
  }

  lemma {:induction false} ReserveCheckStep(s: Pool, t: nat, th: Thread)
    requires Inv(s) && t in s.threads && s.threads[t].ReserveLoaded? && ClassOk(s.threads[t])
    requires var at := s.threads[t];
      th == if at.oldOffset + ClassBytes(at.c) > s.maxSize then Idle
            else ReserveTry(at.c, at.req, at.oldOffset, at.oldOffset + ClassBytes(at.c))
    ensures Inv(SetThread(s, t, th))
  {
    assert ThreadOk(s, t);
    MoveKeepsInv(s, t, th);
  }

  lemma {:induction false} ReserveSwapStep(s: Pool, t: nat, spurious: bool)
    requires Inv(s) && t in s.threads && s.threads[t].ReserveTry? && ClassOk(s.threads[t])
    ensures Inv(ReserveSwapped(s, t, spurious))
  {
    assert ThreadOk(s, t);
    var th := s.threads[t];
    if s.offset == th.oldOffset && !spurious {
      ReserveSwapKeepsInv(s, ReserveSwapped(s, t, spurious), t, th.c, th.req);
    } else {
      MoveKeepsInv(s, t, ReserveLoaded(th.c, th.req, s.offset));
    }
  }

  lemma {:induction false} ReserveLoadStep(s: Pool, t: nat)
    requires Inv(s) && t in s.threads && s.threads[t].ReserveStart?
    ensures Inv(SetThread(s, t, ReserveLoaded(s.threads[t].c, s.threads[t].req, s.offset)))
  {
    assert ThreadOk(s, t);
    MoveKeepsInv(s, t, ReserveLoaded(s.threads[t].c, s.threads[t].req, s.offset));
  }

  /** No class has seen 2^32 pushes. */
  ghost predicate FewPushes(s: Pool) {
    |s.pushes| == CLASSES && forall c :: 0 <= c < CLASSES ==> s.pushes[c] < U32
  }

  /** A live block that has a class to go back to is long enough for it. */
  lemma {:induction false} ReleaseFits(s: Pool, node: nat)
    requires Inv(s) && node in s.blocks && s.blocks[node].place.Live?
    requires DeallocClass(s.blocks[node].place.req).Class?
    ensures var c := DeallocClass(s.blocks[node].place.req).index;
      c < CLASSES && |s.pushes| == CLASSES && ClassBytes(c) <= s.blocks[node].bytes
  {
    assert BlockOk(s, node);
    ReleasableExact(s.blocks[node].place.req);
    DeallocNeverGrows(s.blocks[node].place.req);
  }

  lemma {:induction false} FreeStep(s: Pool, t: nat, node: nat)
    requires Inv(s) && t in s.threads && s.threads[t].Idle?
    requires node in s.blocks && s.blocks[node].place.Live? && node < U32
    requires DeallocClass(s.blocks[node].place.req).Class? && FewPushes(FreeBegun(s, t, node))
    ensures Inv(FreeBegun(s, t, node))
  {
    hide Inv, BlockOk, AllocClass, DeallocClass, ClassBytes;
    ReleaseFits(s, node);
    var c := DeallocClass(s.blocks[node].place.req).index;
    assert FreeBegun(s, t, node).pushes[c] == s.pushes[c] + 1;
    FreeKeepsInv(s, FreeBegun(s, t, node), t, node, c);
  }

  lemma {:induction false} PushLoadStep(s: Pool, t: nat)
    requires Inv(s) && t in s.threads && Pushes(s.threads[t]) && ClassOk(s.threads[t])
    ensures var th := s.threads[t]; Inv(SetThread(s, t, PushLoaded(th.c, th.node, th.newHead, s.heads[th.c])))
  {
    assert ThreadOk(s, t);
    var th := s.threads[t];
    MoveKeepsInv(s, t, PushLoaded(th.c, th.node, th.newHead, s.heads[th.c]));
  }

  /** Every step keeps the invariant, as long as no class has seen 2^32 pushes. */
  lemma {:induction false} StepKeepsInv(s: Pool, step: Step)
    requires Inv(s) && Enabled(s, step)
    requires FewPushes(Apply(s, step))
    ensures Inv(Apply(s, step))
  {
    if step.ClientWrite? {
      ClientWriteKeepsInv(s, step.node, step.m);
    } else {
      var t := step.t;
      match step
      case BeginAlloc(_, req) =>
        if AllocClass(req).Class? { PopLoadKeepsInv(s, t, AllocClass(req).index, req); }
      case PopNext(_) => PopNextKeepsInv(s, t);
      case PopSwap(_, spurious) => PopSwapStep(s, t, spurious);
      case ReserveLoad(_) => ReserveLoadStep(s, t);
      case ReserveCheck(_) =>
        assert ThreadOk(s, t);
        SumDoesNotWrap(s, t);
        ReserveCheckStep(s, t, ReserveChecked(s, t).threads[t]);
      case ReserveSwap(_, spurious) => ReserveSwapStep(s, t, spurious);
      case BeginFree(_, node) => FreeStep(s, t, node);
      case PushLoad(_) => PushLoadStep(s, t);
      case PushLink(_) => PushLinkKeepsInv(s, Apply(s, step), t);
      case PushSwap(_, spurious) =>
        if s.heads[s.threads[t].c] == s.threads[t].oldHead && !spurious {
          PushSwapKeepsInv(s, t);
        } else {
          PushLoadStep(s, t);
        }
    }
  }

  // ---------------------------------------------------------------- runs

  ghost predicate Legal(s: Pool, steps: seq<Step>)
    requires Shape(s)
    decreases |steps|
  {
    steps == [] || (Enabled(s, steps[0]) && Legal(Apply(s, steps[0]), steps[1..]))
  }

  ghost function Final(s: Pool, steps: seq<Step>): (z: Pool)
    requires Shape(s) && Legal(s, steps)
    ensures Shape(z)
    decreases |steps|
  {
    if steps == [] then s else Final(Apply(s, steps[0]), steps[1..])
  }

  /** A freshly mapped pool. */
  function Start(maxSize: nat, tids: set<nat>): Pool {
    Pool(maxSize, 0, seq(CLASSES, _ => 0), seq(CLASSES, _ => 0), map[], map t | t in tids :: Idle,
         seq(CLASSES, _ => []), map[])
  }

  lemma StepPushes(s: Pool, step: Step)
    requires Shape(s) && Enabled(s, step) && FewPushes(Apply(s, step))
    ensures FewPushes(s)
  {
    forall c | 0 <= c < CLASSES ensures s.pushes[c] < U32 { assert s.pushes[c] <= Apply(s, step).pushes[c]; }
  }

  lemma {:induction false} PushesOnlyGrow(s: Pool, steps: seq<Step>)
    requires Shape(s) && Legal(s, steps) && FewPushes(Final(s, steps))
    ensures FewPushes(s)
    decreases |steps|
  {
    if steps != [] {
      PushesOnlyGrow(Apply(s, steps[0]), steps[1..]);
      StepPushes(s, steps[0]);
    }
  }

  lemma {:induction false} RunKeepsInv(s: Pool, steps: seq<Step>)
    requires Inv(s) && Legal(s, steps) && FewPushes(Final(s, steps))
    ensures Inv(Final(s, steps))
    decreases |steps|
  {
    if steps != [] {
      PushesOnlyGrow(Apply(s, steps[0]), steps[1..]);
      StepKeepsInv(s, steps[0]);
      RunKeepsInv(Apply(s, steps[0]), steps[1..]);
    }
  }

  /** The offsets met when following next fields from a link, at most n of them. */
  function Walk(mem: map<nat, nat>, link: nat, n: nat): seq<nat>
    decreases n
  {
    if link == 0 || n == 0 then [] else [LinkOffset(link)] + Walk(mem, Word(mem, LinkOffset(link)), n - 1)
  }

  function Offsets(links: seq<nat>): seq<nat> {
    seq(|links|, i requires 0 <= i < |links| => LinkOffset(links[i]))
  }

  /** Following the chain in memory from place i of a stack meets the rest of the stack, and then the end. */
  lemma {:induction false} WalkIsStack(s: Pool, c: nat, i: nat, n: nat)
    requires Inv(s) && c < CLASSES && i <= |s.stacks[c]| && n >= |s.stacks[c]| - i
    ensures Walk(s.mem, if i < |s.stacks[c]| then s.stacks[c][i] else 0, n) == Offsets(s.stacks[c][i..])
    decreases |s.stacks[c]| - i
  {
    var st := s.stacks[c];
    if i < |st| {
      assert StackOk(s, c) && NodeOk(s, c, i);
      WalkIsStack(s, c, i + 1, n - 1);
      assert Offsets(st[i..]) == [LinkOffset(st[i])] + Offsets(st[i + 1..]);
    }
  }

  /** What a reader of the memory sees: the blocks on the chain of a class. */
  function Chain(s: Pool, c: nat): seq<nat>
    requires Shape(s) && c < CLASSES
  {
    Walk(s.mem, s.heads[c], |s.stacks[c]| + 1)
  }

  /** The main theorem. Over every interleaving of allocations, releases and client writes with fewer than 2^32 pushes
      per class: blocks are pairwise disjoint and inside [0, maxSize); a live block is at least as long as was asked
      for, except when that was one of the sizes near 2^64 that alloc takes for nothing; the chain in memory from each
      head is that class's stack of pushed and not yet popped links, without repeats, and holds exactly the free
      blocks of the class, so no block is both live and free and none is lost. */
  lemma {:induction false} EveryRunIsSafe(maxSize: nat, tids: set<nat>, steps: seq<Step>)
    requires maxSize + 2048 < U32 && Legal(Start(maxSize, tids), steps)
    requires FewPushes(Final(Start(maxSize, tids), steps))
    ensures var z := Final(Start(maxSize, tids), steps);
      && Inv(z) && Disjoint(z.blocks)
      && (forall b :: b in z.blocks ==> b + z.blocks[b].bytes <= z.offset <= z.maxSize)
      && (forall b :: b in z.blocks && z.blocks[b].place.Live? ==>
            (z.blocks[b].place.req <= z.blocks[b].bytes <==> z.blocks[b].place.req <= 2048))
      && (forall c :: 0 <= c < CLASSES ==> Chain(z, c) == Offsets(z.stacks[c]))
      && (forall c, i, j :: 0 <= c < CLASSES && 0 <= i < j < |Chain(z, c)| ==> Chain(z, c)[i] != Chain(z, c)[j])
      && (forall c, b :: 0 <= c < CLASSES ==>
            (b in Chain(z, c) <==> b in z.blocks && z.blocks[b].place == Free(c)))
  {
    var s := Start(maxSize, tids);
    assert Inv(s);
    RunKeepsInv(s, steps);
    var z := Final(s, steps);
    forall b | b in z.blocks
      ensures b + z.blocks[b].bytes <= z.offset <= z.maxSize
      ensures var x := z.blocks[b]; x.place.Live? ==> (x.place.req <= x.bytes <==> x.place.req <= 2048)
    {
      assert BlockOk(z, b);
      if z.blocks[b].place.Live? && z.blocks[b].place.req <= 2048 { AllocFits(z.blocks[b].place.req); }
    }
    forall c | 0 <= c < CLASSES
      ensures Chain(z, c) == Offsets(z.stacks[c])
      ensures forall i, j :: 0 <= i < j < |Chain(z, c)| ==> Chain(z, c)[i] != Chain(z, c)[j]
      ensures forall b :: b in Chain(z, c) <==> b in z.blocks && z.blocks[b].place == Free(c)
    {
      ChainHoldsFree(z, c);
    }
  }

  lemma {:induction false} ChainHoldsFree(z: Pool, c: nat)
    requires Inv(z) && c < CLASSES
    ensures Chain(z, c) == Offsets(z.stacks[c])
    ensures forall i, j :: 0 <= i < j < |Chain(z, c)| ==> Chain(z, c)[i] != Chain(z, c)[j]
    ensures forall b :: b in Chain(z, c) <==> b in z.blocks && z.blocks[b].place == Free(c)
  {
    assert StackOk(z, c);
    WalkIsStack(z, c, 0, |z.stacks[c]| + 1);
    assert z.stacks[c][0..] == z.stacks[c];
    var chain := Chain(z, c);
    forall b | b in chain ensures b in z.blocks && z.blocks[b].place == Free(c) {
      var i :| 0 <= i < |chain| && chain[i] == b;
      assert NodeOk(z, c, i);
    }
    forall b | b in z.blocks && z.blocks[b].place == Free(c) ensures b in chain {
      assert BlockOk(z, b);
      var i :| 0 <= i < |z.stacks[c]| && LinkOffset(z.stacks[c][i]) == b;
      assert chain[i] == b;
    }
  }
}
