/** The bounded multi-producer, multi-consumer queue as an interleaved state machine. Every load, compare-and-swap
    and store of `post` and `fetch` is one step of one thread, and steps of different threads interleave freely
    (sequentially consistent memory). A compare-and-swap may also fail spuriously. */
module RingProtocol {
  datatype Slot<+V> = Slot(seqno: int, val: V)

  /** Where a thread stands inside `post` or `fetch`; `pos` is its local copy of wpos or rpos. */
  datatype Thread<+V> =
    | Idle
    | PostAt(v: V, pos: int)       // about to load the slot's sequence number
    | PostReload(v: V)             // the slot was ahead: about to load wpos again
    | PostTry(v: V, pos: int)      // sequence number matched: about to swap wpos
    | PostClaimed(v: V, pos: int)  // owns the slot: about to write the value
    | PostWritten(pos: int)        // about to store the sequence number
    | FetchAt(pos: int)
    | FetchReload
    | FetchTry(pos: int)
    | FetchClaimed(pos: int)       // owns the slot: about to read the value
    | FetchTaken(pos: int)         // about to store the sequence number

  /** Shared memory, thread positions and, for each position ever claimed, who claimed it and what was passed:
      `posted` and `poster` by the claims of wpos, `taken` and `taker` by the claims of rpos. */
  datatype Ring<V> = Ring(
    cap: nat, rpos: int, wpos: int, slots: seq<Slot<V>>, threads: map<nat, Thread<V>>,
    posted: seq<V>, poster: seq<nat>, taken: map<int, V>, taker: seq<nat>)

  datatype Step<V> =
    | BeginPost(t: nat, v: V)
    | PostLoad(t: nat)
    | PostReread(t: nat)
    | PostSwap(t: nat, spurious: bool)
    | PostWrite(t: nat)
    | PostStore(t: nat)
    | BeginFetch(t: nat)
    | FetchLoad(t: nat)
    | FetchReread(t: nat)
    | FetchSwap(t: nat, spurious: bool)
    | FetchRead(t: nat)
    | FetchStore(t: nat)

  /** The slot of a position. For a power of two this is `pos & mask`. */
  function Idx(cap: nat, pos: int): (i: nat)
    requires cap > 0
    ensures i < cap
  {
    pos % cap
  }

  ghost predicate Shape<V>(s: Ring<V>) {
    s.cap >= 2 && |s.slots| == s.cap
  }

  function At<V>(s: Ring<V>, pos: int): Slot<V>
    requires s.cap >= 2 && |s.slots| == s.cap
  {
    s.slots[Idx(s.cap, pos)]
  }

  function SetThread<V>(s: Ring<V>, t: nat, th: Thread<V>): Ring<V> {
    s.(threads := s.threads[t := th])
  }

  predicate Enabled<V>(s: Ring<V>, step: Step<V>) {
    step.t in s.threads &&
    var th := s.threads[step.t];
    match step
    case BeginPost(_, _) => th.Idle?
    case PostLoad(_) => th.PostAt?
    case PostReread(_) => th.PostReload?
    case PostSwap(_, _) => th.PostTry?
    case PostWrite(_) => th.PostClaimed?
    case PostStore(_) => th.PostWritten?
    case BeginFetch(_) => th.Idle?
    case FetchLoad(_) => th.FetchAt?
    case FetchReread(_) => th.FetchReload?
    case FetchSwap(_, _) => th.FetchTry?
    case FetchRead(_) => th.FetchClaimed?
    case FetchStore(_) => th.FetchTaken?
  }

  function Apply<V>(s: Ring<V>, step: Step<V>): (s': Ring<V>)
    requires Shape(s) && Enabled(s, step)
    ensures Shape(s') && s'.threads.Keys == s.threads.Keys
  {
    var t := step.t;
    var th := s.threads[t];
    match step
    case BeginPost(_, v) =>
      SetThread(s, t, PostAt(v, s.wpos))
    case PostLoad(_) =>
      var diff := At(s, th.pos).seqno - th.pos;
      SetThread(s, t, if diff == 0 then PostTry(th.v, th.pos)
                      else if diff < 0 then Idle        // returns false
                      else PostReload(th.v))
    case PostReread(_) =>
      SetThread(s, t, PostAt(th.v, s.wpos))
    case PostSwap(_, spurious) =>
      if s.wpos == th.pos && !spurious then
        SetThread(s, t, PostClaimed(th.v, th.pos))
          .(wpos := s.wpos + 1, posted := s.posted + [th.v], poster := s.poster + [t])
      else
        SetThread(s, t, PostAt(th.v, s.wpos))
    case PostWrite(_) =>
      var i := Idx(s.cap, th.pos);
      SetThread(s, t, PostWritten(th.pos)).(slots := s.slots[i := s.slots[i].(val := th.v)])
    case PostStore(_) =>
      var i := Idx(s.cap, th.pos);
      SetThread(s, t, Idle).(slots := s.slots[i := s.slots[i].(seqno := th.pos + 1)])
    case BeginFetch(_) =>
      SetThread(s, t, FetchAt(s.rpos))
    case FetchLoad(_) =>
      var diff := At(s, th.pos).seqno - (th.pos + 1);
      SetThread(s, t, if diff == 0 then FetchTry(th.pos)
                      else if diff < 0 then Idle        // returns false
                      else FetchReload)
    case FetchReread(_) =>
      SetThread(s, t, FetchAt(s.rpos))
    case FetchSwap(_, spurious) =>
      if s.rpos == th.pos && !spurious then
        SetThread(s, t, FetchClaimed(th.pos))
          .(rpos := s.rpos + 1, taker := s.taker + [t])
      else
        SetThread(s, t, FetchAt(s.rpos))
    case FetchRead(_) =>
      SetThread(s, t, FetchTaken(th.pos)).(taken := s.taken[th.pos := At(s, th.pos).val])
    case FetchStore(_) =>
      var i := Idx(s.cap, th.pos);
      SetThread(s, t, Idle).(slots := s.slots[i := s.slots[i].(seqno := th.pos + s.cap)])
  }

  // ---------------------------------------------------------------- the invariant

  predicate PostsAt<V>(s: Ring<V>, t: nat, pos: int) {
    t in s.threads && (s.threads[t].PostClaimed? || s.threads[t].PostWritten?) && s.threads[t].pos == pos
  }

  predicate FetchesAt<V>(s: Ring<V>, t: nat, pos: int) {
    t in s.threads && (s.threads[t].FetchClaimed? || s.threads[t].FetchTaken?) && s.threads[t].pos == pos
  }

  ghost predicate Bounds<V>(s: Ring<V>) {
    Shape(s) && 0 <= s.rpos <= s.wpos <= s.rpos + s.cap
    && |s.posted| == |s.poster| == s.wpos && |s.taker| == s.rpos
    && (forall r :: r in s.taken ==> 0 <= r < s.rpos)
  }

  /** What the slot of position q, one of the last `cap` positions, holds. */
  ghost predicate SlotOk<V>(s: Ring<V>, q: int)
    requires Bounds(s) && s.wpos - s.cap <= q < s.wpos
  {
    var x := At(s, q);
    if q < 0 then
      x.seqno == q + s.cap                                              // never used
    else if q < s.rpos then
      || x.seqno == q + s.cap                                           // drained
      || (x.seqno == q + 1 && x.val == s.posted[q] && FetchesAt(s, s.taker[q], q))   // draining
    else
      || (x.seqno == q && PostsAt(s, s.poster[q], q))                   // being filled
      || (x.seqno == q + 1 && x.val == s.posted[q])                     // published
  }

  ghost predicate TakenOk<V>(s: Ring<V>, r: int)
    requires Bounds(s) && 0 <= r < s.rpos
  {
    if r in s.taken then s.taken[r] == s.posted[r]
    else s.taker[r] in s.threads && s.threads[s.taker[r]] == FetchClaimed(r)
  }

  /** What holds while thread t stands at th. */
  ghost predicate Fits<V>(s: Ring<V>, t: nat, th: Thread<V>)
    requires Bounds(s)
  {
    match th
    case Idle => true
    case PostAt(_, w) => 0 <= w <= s.wpos
    case PostReload(_) => true
    case PostTry(_, w) => 0 <= w <= s.wpos && (w == s.wpos ==> At(s, w).seqno == w)
    case PostClaimed(v, w) =>
      s.rpos <= w < s.wpos && s.poster[w] == t && At(s, w).seqno == w && s.posted[w] == v
    case PostWritten(w) =>
      s.rpos <= w < s.wpos && s.poster[w] == t && At(s, w) == Slot(w, s.posted[w])
    case FetchAt(r) => 0 <= r <= s.rpos
    case FetchReload => true
    case FetchTry(r) => 0 <= r <= s.rpos && (r == s.rpos ==> r < s.wpos && At(s, r).seqno == r + 1)
    case FetchClaimed(r) =>
      0 <= r < s.rpos && s.wpos - s.cap <= r && s.taker[r] == t && At(s, r).seqno == r + 1 && r !in s.taken
    case FetchTaken(r) =>
      0 <= r < s.rpos && s.wpos - s.cap <= r && s.taker[r] == t && At(s, r).seqno == r + 1 && r in s.taken
  }

  ghost predicate ThreadOk<V>(s: Ring<V>, t: nat)
    requires Bounds(s) && t in s.threads
  {
    Fits(s, t, s.threads[t])
  }

  predicate Owner<V>(th: Thread<V>) {
    th.PostClaimed? || th.PostWritten? || th.FetchClaimed? || th.FetchTaken?
  }

  ghost predicate Inv<V>(s: Ring<V>) {
    && Bounds(s)
    && (forall q :: s.wpos - s.cap <= q < s.wpos ==> SlotOk(s, q))
    && (forall r :: 0 <= r < s.rpos ==> TakenOk(s, r))
    && (forall t :: t in s.threads ==> ThreadOk(s, t))
  }

  lemma MultipleBound(cap: nat, k: int)
    ensures k >= 1 ==> k * cap >= cap
    ensures k <= -1 ==> k * cap <= 0 - cap
  {
    if k >= 1 {
      assert k * cap == (k - 1) * cap + cap;
    } else if k <= -1 {
      assert k * cap == (k + 1) * cap - cap;
    }
  }

  /** Two different positions less than one lap apart have different slots. */
  lemma DistinctSlots(cap: nat, p: int, q: int)
    requires cap > 0 && p != q && 0 - cap < p - q < cap
    ensures Idx(cap, p) != Idx(cap, q)
  {
    var a, b := p / cap, q / cap;
    assert p == cap * a + p % cap && q == cap * b + q % cap;
    assert p - q == (a - b) * cap + (p % cap - q % cap);
    MultipleBound(cap, a - b);
  }

  /** Positions a whole lap apart share a slot. */
  lemma SameSlot(cap: nat, p: int)
    requires cap > 0
    ensures Idx(cap, p) == Idx(cap, p + cap) == Idx(cap, p - cap)
  {
    NextLap(cap, p);
    NextLap(cap, p - cap);
  }

  lemma NextLap(cap: nat, p: int)
    requires cap > 0
    ensures Idx(cap, p) == Idx(cap, p + cap)
  {
    var r := p + cap;
    var a, b := p / cap, r / cap;
    assert p == cap * a + p % cap && r == cap * b + r % cap;
    assert r % cap - p % cap == (a + 1 - b) * cap;
    MultipleBound(cap, a + 1 - b);
  }

  /** A thread that owns no slot moves: begin, load, reread, failed swap. */
  lemma {:induction false} MoveKeepsInv<V>(s: Ring<V>, t: nat, th: Thread<V>)
    requires Inv(s) && t in s.threads && !Owner(s.threads[t])
    requires !Owner(th) && Fits(s, t, th)
    ensures Inv(SetThread(s, t, th))
  {
    var s' := SetThread(s, t, th);
    forall q | s'.wpos - s'.cap <= q < s'.wpos ensures SlotOk(s', q) { assert SlotOk(s, q); }
    forall r | 0 <= r < s'.rpos ensures TakenOk(s', r) { assert TakenOk(s, r); }
    forall u | u in s'.threads ensures ThreadOk(s', u) { if u != t { assert ThreadOk(s, u); } }
  }

  /** The slot of the next position to post never looks published. */
  lemma {:induction false} CurrentSlot<V>(s: Ring<V>)
    requires Inv(s)
    ensures At(s, s.wpos).seqno <= s.wpos
  {
    SameSlot(s.cap, s.wpos);
    assert SlotOk(s, s.wpos - s.cap);
  }

  lemma {:induction false} PostClaimKeepsInv<V>(s: Ring<V>, t: nat)
    requires Inv(s) && t in s.threads && s.threads[t].PostTry? && s.threads[t].pos == s.wpos
    ensures Inv(SetThread(s, t, PostClaimed(s.threads[t].v, s.wpos))
                  .(wpos := s.wpos + 1, posted := s.posted + [s.threads[t].v], poster := s.poster + [t]))
  {
    var v, p := s.threads[t].v, s.wpos;
    var s' := SetThread(s, t, PostClaimed(v, p)).(wpos := p + 1, posted := s.posted + [v], poster := s.poster + [t]);
    assert ThreadOk(s, t);
    SameSlot(s.cap, p);
    assert SlotOk(s, p - s.cap);
    forall q | s'.wpos - s'.cap <= q < s'.wpos ensures SlotOk(s', q) { if q < p { assert SlotOk(s, q); } }
    forall r | 0 <= r < s'.rpos ensures TakenOk(s', r) { assert TakenOk(s, r); }
    forall u | u in s'.threads ensures ThreadOk(s', u) { if u != t { assert ThreadOk(s, u); } }
  }

  lemma {:induction false} FetchClaimKeepsInv<V>(s: Ring<V>, t: nat)
    requires Inv(s) && t in s.threads && s.threads[t].FetchTry? && s.threads[t].pos == s.rpos
    ensures Inv(SetThread(s, t, FetchClaimed(s.rpos)).(rpos := s.rpos + 1, taker := s.taker + [t]))
  {
    var p := s.rpos;
    var s' := SetThread(s, t, FetchClaimed(p)).(rpos := p + 1, taker := s.taker + [t]);
    assert ThreadOk(s, t) && SlotOk(s, p);
    forall q | s'.wpos - s'.cap <= q < s'.wpos ensures SlotOk(s', q) { assert SlotOk(s, q); }
    forall r | 0 <= r < s'.rpos ensures TakenOk(s', r) { if r < p { assert TakenOk(s, r); } }
    forall u | u in s'.threads ensures ThreadOk(s', u) { if u != t { assert ThreadOk(s, u); } }
  }

  /** Changing the slot of p leaves the slots of the other current positions alone. */
  lemma {:induction false} SlotUpdate<V>(s: Ring<V>, p: int, x: Slot<V>)
    requires Bounds(s) && s.wpos - s.cap <= p < s.wpos
    ensures var z := s.(slots := s.slots[Idx(s.cap, p) := x]);
      && At(z, p) == x && At(z, p + s.cap) == x
      && forall q :: s.wpos - s.cap <= q <= s.wpos && q != p && q != p + s.cap ==> At(z, q) == At(s, q)
  {
    SameSlot(s.cap, p);
    forall q | s.wpos - s.cap <= q <= s.wpos && q != p && q != p + s.cap ensures Idx(s.cap, q) != Idx(s.cap, p) {
      DistinctSlots(s.cap, q, p);
    }
  }

  lemma {:induction false} PostWriteKeepsInv<V>(s: Ring<V>, t: nat)
    requires Inv(s) && t in s.threads && s.threads[t].PostClaimed?
    ensures Inv(Apply(s, PostWrite(t)))
  {
    var v, p := s.threads[t].v, s.threads[t].pos;
    var s' := Apply(s, PostWrite(t));
    assert ThreadOk(s, t);
    SlotUpdate(s, p, Slot(p, v));
    assert s'.slots == s.slots[Idx(s.cap, p) := Slot(p, v)];
    forall q | s.wpos - s.cap <= q <= s.wpos && q != p && q != p + s.cap ensures At(s', q) == At(s, q) {}
    forall q | s'.wpos - s'.cap <= q < s'.wpos ensures SlotOk(s', q) { assert SlotOk(s, q); }
    forall r | 0 <= r < s'.rpos ensures TakenOk(s', r) { assert TakenOk(s, r); }
    forall u | u in s'.threads ensures ThreadOk(s', u) { if u != t { assert ThreadOk(s, u); } }
  }

  lemma {:induction false} PostStoreKeepsInv<V>(s: Ring<V>, t: nat)
    requires Inv(s) && t in s.threads && s.threads[t].PostWritten?
    ensures Inv(Apply(s, PostStore(t)))
  {
    var p := s.threads[t].pos;
    var s' := Apply(s, PostStore(t));
    assert ThreadOk(s, t);
    SlotUpdate(s, p, Slot(p + 1, s.posted[p]));
    assert s'.slots == s.slots[Idx(s.cap, p) := Slot(p + 1, s.posted[p])];
    forall q | s.wpos - s.cap <= q <= s.wpos && q != p && q != p + s.cap ensures At(s', q) == At(s, q) {}
    forall q | s'.wpos - s'.cap <= q < s'.wpos ensures SlotOk(s', q) { assert SlotOk(s, q); }
    forall r | 0 <= r < s'.rpos ensures TakenOk(s', r) { assert TakenOk(s, r); }
    forall u | u in s'.threads ensures ThreadOk(s', u) { if u != t { assert ThreadOk(s, u); } }
  }

  lemma {:induction false} FetchReadKeepsInv<V>(s: Ring<V>, t: nat)
    requires Inv(s) && t in s.threads && s.threads[t].FetchClaimed?
    ensures Inv(Apply(s, FetchRead(t)))
  {
    var p := s.threads[t].pos;
    var s' := Apply(s, FetchRead(t));
    assert ThreadOk(s, t) && SlotOk(s, p);
    assert s' == SetThread(s, t, FetchTaken(p)).(taken := s.taken[p := s.posted[p]]);
    forall q | s'.wpos - s'.cap <= q < s'.wpos ensures SlotOk(s', q) { assert SlotOk(s, q); }
    forall r | 0 <= r < s'.rpos ensures TakenOk(s', r) { assert TakenOk(s, r); }
    forall u | u in s'.threads ensures ThreadOk(s', u) { if u != t { assert ThreadOk(s, u); } }
  }

  lemma {:induction false} FetchStoreKeepsInv<V>(s: Ring<V>, t: nat)
    requires Inv(s) && t in s.threads && s.threads[t].FetchTaken?
    ensures Inv(Apply(s, FetchStore(t)))
  {
    var p := s.threads[t].pos;
    var s' := Apply(s, FetchStore(t));
    assert ThreadOk(s, t) && SlotOk(s, p);
    SlotUpdate(s, p, Slot(p + s.cap, At(s, p).val));
    assert s'.slots == s.slots[Idx(s.cap, p) := Slot(p + s.cap, At(s, p).val)];
    forall q | s.wpos - s.cap <= q <= s.wpos && q != p && q != p + s.cap ensures At(s', q) == At(s, q) {}
    forall q | s'.wpos - s'.cap <= q < s'.wpos ensures SlotOk(s', q) { assert SlotOk(s, q); }
    forall r | 0 <= r < s'.rpos ensures TakenOk(s', r) { assert TakenOk(s, r); }
    forall u | u in s'.threads ensures ThreadOk(s', u) { if u != t { assert ThreadOk(s, u); } }
  }

  /** Every step of every thread keeps the invariant. */
  lemma StepKeepsInv<V>(s: Ring<V>, step: Step<V>)
    requires Inv(s) && Enabled(s, step)
    ensures Inv(Apply(s, step))
  {
    hide SlotOk, TakenOk;
    var t, th := step.t, s.threads[step.t];
    assert ThreadOk(s, t);
    match step
    case BeginPost(_, v) => MoveKeepsInv(s, t, PostAt(v, s.wpos));
    case PostLoad(_) => MoveKeepsInv(s, t, Apply(s, step).threads[t]);
    case PostReread(_) => MoveKeepsInv(s, t, PostAt(th.v, s.wpos));
    case PostSwap(_, spurious) =>
      if s.wpos == th.pos && !spurious { PostClaimKeepsInv(s, t); } else { MoveKeepsInv(s, t, PostAt(th.v, s.wpos)); }
    case PostWrite(_) => PostWriteKeepsInv(s, t);
    case PostStore(_) => PostStoreKeepsInv(s, t);
    case BeginFetch(_) => MoveKeepsInv(s, t, FetchAt(s.rpos));
    case FetchLoad(_) =>
      CurrentSlot(s);
      MoveKeepsInv(s, t, Apply(s, step).threads[t]);
    case FetchReread(_) => MoveKeepsInv(s, t, FetchAt(s.rpos));
    case FetchSwap(_, spurious) =>
      if s.rpos == th.pos && !spurious { FetchClaimKeepsInv(s, t); } else { MoveKeepsInv(s, t, FetchAt(s.rpos)); }
    case FetchRead(_) => FetchReadKeepsInv(s, t);
    case FetchStore(_) => FetchStoreKeepsInv(s, t);
  }

  // ---------------------------------------------------------------- runs

  /** Each step is enabled where it is taken. */
  ghost predicate Legal<V>(s: Ring<V>, steps: seq<Step<V>>)
    requires Shape(s)
    decreases |steps|
  {
    steps == [] || (Enabled(s, steps[0]) && Legal(Apply(s, steps[0]), steps[1..]))
  }

  ghost function Final<V>(s: Ring<V>, steps: seq<Step<V>>): (z: Ring<V>)
    requires Shape(s) && Legal(s, steps)
    ensures Shape(z)
    decreases |steps|
  {
    if steps == [] then s else Final(Apply(s, steps[0]), steps[1..])
  }

  /** A freshly mapped queue of `cap` slots of which the constructor numbered the first `numbered`. */
  function Start<V>(cap: nat, numbered: nat, zero: V, tids: set<nat>): Ring<V> {
    Ring(cap, 0, 0, seq(cap, i requires 0 <= i < cap => Slot(if i < numbered then i else 0, zero)),
         map t | t in tids :: Idle, [], [], map[], [])
  }

  lemma StartIsGood<V>(cap: nat, numbered: nat, zero: V, tids: set<nat>)
    requires 2 <= numbered <= cap
    ensures Inv(Start(cap, numbered, zero, tids)) <==> numbered == cap
  {
    var s := Start(cap, numbered, zero, tids);
    forall q | 0 - cap <= q < 0 ensures Idx(cap, q) == q + cap {
      SameSlot(cap, q);
      SmallPosition(cap, q + cap);
    }
    if numbered == cap {
      forall q | s.wpos - s.cap <= q < s.wpos ensures SlotOk(s, q) {
        assert Idx(cap, q) == q + cap;
      }
    } else {
      assert Idx(cap, numbered - cap) == numbered;
      assert !SlotOk(s, numbered - cap) || !Bounds(s);
    }
  }

  lemma SmallPosition(cap: nat, p: nat)
    requires p < cap
    ensures Idx(cap, p) == p
  {
  }

  lemma {:induction false} RunKeepsInv<V>(s: Ring<V>, steps: seq<Step<V>>)
    requires Inv(s) && Legal(s, steps)
    ensures Inv(Final(s, steps))
    decreases |steps|
  {
    if steps != [] {
      StepKeepsInv(s, steps[0]);
      RunKeepsInv(Apply(s, steps[0]), steps[1..]);
    }
  }

  predicate Owns<V>(s: Ring<V>, t: nat) {
    t in s.threads && Owner(s.threads[t])
  }

  /** Two claims never meet in a slot. */
  lemma {:induction false} OwnersApart<V>(s: Ring<V>, t: nat, u: nat)
    requires Inv(s) && Owns(s, t) && Owns(s, u) && t != u
    ensures s.threads[t].pos != s.threads[u].pos
    ensures Idx(s.cap, s.threads[t].pos) != Idx(s.cap, s.threads[u].pos)
  {
    assert ThreadOk(s, t) && ThreadOk(s, u);
    DistinctSlots(s.cap, s.threads[t].pos, s.threads[u].pos);
  }

  /** Between its claim and its store the owner of a slot alone touches it. */
  lemma {:induction false} OwnerAloneTouches<V>(s: Ring<V>, t: nat, step: Step<V>)
    requires Inv(s) && Owns(s, t) && Enabled(s, step) && step.t != t
    ensures At(Apply(s, step), s.threads[t].pos) == At(s, s.threads[t].pos)
    ensures step.FetchRead? ==> Idx(s.cap, s.threads[step.t].pos) != Idx(s.cap, s.threads[t].pos)
  {
    if Owns(s, step.t) { OwnersApart(s, t, step.t); }
  }

  /** The first-in first-out queue that the ring stands for: what was claimed by post and not yet by fetch. */
  function Queue<V>(s: Ring<V>): seq<V>
    requires Bounds(s)
  {
    s.posted[s.rpos..]
  }

  predicate Enqueues<V>(s: Ring<V>, step: Step<V>)
    requires Enabled(s, step)
  {
    step.PostSwap? && !step.spurious && s.wpos == s.threads[step.t].pos
  }

  predicate Dequeues<V>(s: Ring<V>, step: Step<V>)
    requires Enabled(s, step)
  {
    step.FetchSwap? && !step.spurious && s.rpos == s.threads[step.t].pos
  }

  /** Refinement: a successful swap of wpos appends to a queue that is not full, a successful swap of rpos takes the
      head of a queue that is not empty, and no other step changes the queue. A fetch reads what was then the head. */
  lemma {:induction false} StepRefinesQueue<V>(s: Ring<V>, step: Step<V>)
    requires Inv(s) && Enabled(s, step)
    ensures Inv(Apply(s, step))
    ensures |Queue(s)| <= s.cap
    ensures Enqueues(s, step) ==>
      |Queue(s)| < s.cap && Queue(Apply(s, step)) == Queue(s) + [s.threads[step.t].v]
    ensures Dequeues(s, step) ==>
      Queue(s) != [] && [s.posted[s.rpos]] + Queue(Apply(s, step)) == Queue(s)
      && Apply(s, step).threads[step.t] == FetchClaimed(s.rpos)
    ensures !Enqueues(s, step) && !Dequeues(s, step) ==> Queue(Apply(s, step)) == Queue(s)
    ensures step.FetchRead? ==>
      Apply(s, step).taken == s.taken[s.threads[step.t].pos := s.posted[s.threads[step.t].pos]]
  {
    StepKeepsInv(s, step);
    assert ThreadOk(s, step.t);
    if step.FetchRead? { assert SlotOk(s, s.threads[step.t].pos); }
  }

  /** What a state has recorded no later state forgets or alters. */
  ghost predicate Extends<V>(s: Ring<V>, z: Ring<V>) {
    s.cap == z.cap && s.wpos <= z.wpos && s.rpos <= z.rpos
    && s.posted <= z.posted && s.poster <= z.poster && s.taker <= z.taker
    && (forall r :: r in s.taken ==> r in z.taken && z.taken[r] == s.taken[r])
  }

  lemma {:induction false} RunExtends<V>(s: Ring<V>, steps: seq<Step<V>>)
    requires Inv(s) && Legal(s, steps)
    ensures Extends(s, Final(s, steps))
    decreases |steps|
  {
    if steps != [] {
      StepKeepsInv(s, steps[0]);
      assert ThreadOk(s, steps[0].t);
      var m := Apply(s, steps[0]);
      assert Extends(s, m);
      RunExtends(m, steps[1..]);
    }
  }

  /** The main theorem: over every interleaving from a fully numbered queue, at most `cap` positions are ahead of the
      readers, positions are handed out once each and in order, and what the fetch of a position read is what the
      post of that position passed. A fetched position without a value yet is still in its owner's hands. */
  lemma {:induction false} EveryRunIsFifo<V>(cap: nat, zero: V, tids: set<nat>, steps: seq<Step<V>>)
    requires cap >= 2
    requires Legal(Start(cap, cap, zero, tids), steps)
    ensures var z := Final(Start(cap, cap, zero, tids), steps);
      && Inv(z)
      && 0 <= z.wpos - z.rpos <= cap
      && |z.posted| == |z.poster| == z.wpos && |z.taker| == z.rpos
      && (forall r :: r in z.taken ==> 0 <= r < z.rpos && z.taken[r] == z.posted[r])
      && (forall r :: 0 <= r < z.rpos && r !in z.taken ==> FetchesAt(z, z.taker[r], r))
      && (forall t, u :: Owns(z, t) && Owns(z, u) && t != u ==>
            Idx(cap, z.threads[t].pos) != Idx(cap, z.threads[u].pos))
  {
    var s := Start(cap, cap, zero, tids);
    StartIsGood(cap, cap, zero, tids);
    RunKeepsInv(s, steps);
    RunExtends(s, steps);
    var z := Final(s, steps);
    forall r | 0 <= r < z.rpos ensures r in z.taken ==> z.taken[r] == z.posted[r]
                               ensures r !in z.taken ==> FetchesAt(z, z.taker[r], r) {
      assert TakenOk(z, r);
    }
    forall t, u | Owns(z, t) && Owns(z, u) && t != u
      ensures Idx(cap, z.threads[t].pos) != Idx(cap, z.threads[u].pos) {
      OwnersApart(z, t, u);
    }
  }

  // ---------------------------------------------------------------- what a refusal means

  /** The latest position before `end` that uses the slot of p. */
  lemma LatestLap(cap: nat, p: int, end: int) returns (q: int)
    requires cap > 0 && p < end
    ensures end - cap <= q < end && Idx(cap, q) == Idx(cap, p)
    ensures q == p || q >= p + cap
    decreases end - p
  {
    if p + cap < end {
      SameSlot(cap, p);
      q := LatestLap(cap, p + cap, end);
    } else {
      q := p;
    }
  }

  /** Post gives up exactly when its position is the current one and the position a lap behind is still undrained:
      either not fetched at all, so that the queue is full, or fetched by a thread that has not stored yet. */
  lemma {:induction false} PostRefusal<V>(s: Ring<V>, t: nat)
    requires Inv(s) && Enabled(s, PostLoad(t))
    ensures Apply(s, PostLoad(t)).threads[t].Idle? <==>
      var p := s.threads[t].pos;
      p == s.wpos && p >= s.cap && (|Queue(s)| == s.cap || FetchesAt(s, s.taker[p - s.cap], p - s.cap))
  {
    assert ThreadOk(s, t);
    var p := s.threads[t].pos;
    if p < s.wpos {
      var q := LatestLap(s.cap, p, s.wpos);
      assert SlotOk(s, q);
    } else {
      SameSlot(s.cap, p);
      assert SlotOk(s, p - s.cap);
      if s.cap <= p && p - s.cap < s.rpos && FetchesAt(s, s.taker[p - s.cap], p - s.cap) {
        assert ThreadOk(s, s.taker[p - s.cap]);
      }
    }
  }

  /** Fetch gives up exactly when its position is the current one and nothing has been published there: either the
      queue is empty or the post of that position has not stored yet. */
  lemma {:induction false} FetchRefusal<V>(s: Ring<V>, t: nat)
    requires Inv(s) && Enabled(s, FetchLoad(t))
    ensures Apply(s, FetchLoad(t)).threads[t].Idle? <==>
      var p := s.threads[t].pos;
      p == s.rpos && (Queue(s) == [] || PostsAt(s, s.poster[p], p))
  {
    assert ThreadOk(s, t);
    var p := s.threads[t].pos;
    if p < s.wpos {
      var q := LatestLap(s.cap, p, s.wpos);
      assert SlotOk(s, q);
      if p == s.rpos && PostsAt(s, s.poster[p], p) { assert ThreadOk(s, s.poster[p]); }
    } else {
      SameSlot(s.cap, p);
      assert SlotOk(s, p - s.cap);
    }
  }

  // ---------------------------------------------------------------- a partly numbered queue

  /** No slot past the numbered ones is ever used. */
  ghost predicate Stuck<V>(s: Ring<V>, numbered: nat) {
    && Shape(s) && 2 <= numbered < s.cap
    && s.slots[numbered].seqno == 0
    && 0 <= s.rpos <= numbered && 0 <= s.wpos <= numbered
    && (forall t :: t in s.threads ==> StuckThread(s.threads[t], numbered))
  }

  predicate StuckThread<V>(th: Thread<V>, numbered: nat) {
    match th
    case Idle => true
    case PostAt(_, w) => 0 <= w <= numbered
    case PostReload(_) => true
    case PostTry(_, w) => 0 <= w < numbered
    case PostClaimed(_, w) => 0 <= w < numbered
    case PostWritten(w) => 0 <= w < numbered
    case FetchAt(r) => 0 <= r <= numbered
    case FetchReload => true
    case FetchTry(r) => 0 <= r < numbered
    case FetchClaimed(r) => 0 <= r < numbered
    case FetchTaken(r) => 0 <= r < numbered
  }

  lemma StuckStep<V>(s: Ring<V>, numbered: nat, step: Step<V>)
    requires Stuck(s, numbered) && Enabled(s, step)
    ensures Stuck(Apply(s, step), numbered)
  {
    var t, th := step.t, s.threads[step.t];
    var s' := Apply(s, step);
    assert StuckThread(th, numbered);
    if !th.Idle? && !th.PostReload? && !th.FetchReload? { SmallPosition(s.cap, th.pos); }
    assert s'.slots[numbered].seqno == 0;
    assert 0 <= s'.rpos <= numbered && 0 <= s'.wpos <= numbered;
    assert StuckThread(s'.threads[t], numbered);
    forall u | u in s'.threads ensures StuckThread(s'.threads[u], numbered) {
      if u != t { assert s'.threads[u] == s.threads[u]; }
    }
  }

  lemma {:induction false} StuckStays<V>(s: Ring<V>, numbered: nat, steps: seq<Step<V>>)
    requires Stuck(s, numbered) && Legal(s, steps)
    ensures Stuck(Final(s, steps), numbered)
    decreases |steps|
  {
    if steps != [] {
      StuckStep(s, numbered, steps[0]);
      StuckStays(Apply(s, steps[0]), numbered, steps[1..]);
    }
  }

  /** The in-memory constructor numbers `capacity` slots of the next power of two. Unless the two agree, the queue
      accepts at most `capacity` posts over its whole life, however many are fetched in between. */
  lemma {:induction false} PartlyNumberedQueueJams<V>(
      cap: nat, capacity: nat, zero: V, tids: set<nat>, steps: seq<Step<V>>)
    requires 2 <= capacity < cap
    requires Legal(Start(cap, capacity, zero, tids), steps)
    ensures Final(Start(cap, capacity, zero, tids), steps).wpos <= capacity
  {
    StuckStays(Start(cap, capacity, zero, tids), capacity, steps);
  }
}
