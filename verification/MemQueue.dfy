/** Powers of two, as the source's Math.hpp computes them. */
module PowersOfTwo {
  function Doubled(p: nat, n: nat): (r: nat)
    requires p > 0
    ensures n <= r
    decreases if p < n then n - p else 0
  {
    if p >= n then p else Doubled(2 * p, n)
  }

  /** The least power of two not below n. */
  function NextPow2(n: nat): nat {
    Doubled(1, n)
  }

  ghost predicate IsPow2(p: nat) {
    exists k: nat :: p == Pow2(k)
  }

  function Pow2(k: nat): (p: nat)
    ensures p > 0
  {
    if k == 0 then 1 else 2 * Pow2(k - 1)
  }

  lemma {:induction false} DoubledIsLeast(k: nat, n: nat, j: nat)
    requires j >= k && Pow2(j) >= n
    ensures IsPow2(Doubled(Pow2(k), n)) && Doubled(Pow2(k), n) <= Pow2(j)
    decreases if Pow2(k) < n then n - Pow2(k) else 0
  {
    if Pow2(k) >= n {
      assert Doubled(Pow2(k), n) == Pow2(k);
      Pow2Grows(k, j);
    } else {
      assert Pow2(k + 1) == 2 * Pow2(k);
      DoubledIsLeast(k + 1, n, j);
    }
  }

  lemma {:induction false} Pow2Grows(k: nat, j: nat)
    requires k <= j
    ensures Pow2(k) <= Pow2(j)
    decreases j - k
  {
    if k < j { Pow2Grows(k, j - 1); }
  }

  /** NextPow2 is a power of two, reaches n, and no smaller power of two does. */
  lemma NextPow2IsLeast(n: nat, j: nat)
    requires Pow2(j) >= n
    ensures n <= NextPow2(n) <= Pow2(j) && IsPow2(NextPow2(n))
  {
    DoubledIsLeast(0, n, j);
  }
}

/** The queue's memory, updated in place by a thread that runs without interference. The ghost field is the
    interleaved machine in the same state; each call moves it along the run that the call is. */
module MemQueues {
  import opened RingProtocol
  import opened RingReserve
  import opened PowersOfTwo

  datatype Fetched<+V> = Empty | Got(val: V)

  class MemQueue<V> {
    const me: nat                     // the calling thread
    const cap: nat
    const elems: array<Slot<V>>
    var rpos: int
    var wpos: int
    ghost var ring: Ring<V>
    ghost var contents: seq<V>        // the queue, oldest first

    /** Memory and ghost machine agree, and the calling thread is between calls. */
    ghost predicate Mirrors()
      reads this, elems
    {
      && cap >= 2 && elems.Length == cap
      && ring.cap == cap && ring.rpos == rpos && ring.wpos == wpos && ring.slots == elems[..]
    }

    ghost predicate Valid()
      reads this, elems
    {
      Mirrors() && Inv(ring) && ring.threads == map[me := Idle] && contents == Queue(ring)
    }

    constructor (me: nat, capacity: nat, zero: V)
      requires capacity >= 2
      ensures fresh(elems) && cap == NextPow2(capacity) && this.me == me
      ensures Mirrors() && ring == Start(cap, capacity, zero, {me})
      ensures contents == [] && (Valid() <==> capacity == NextPow2(capacity))
    {
      var n := NextPow2(capacity);
      this.me := me;
      cap := n;
      elems := new Slot<V>[n](_ => Slot(0, zero));
      rpos, wpos := 0, 0;
      ring, contents := Start(n, capacity, zero, {me}), [];
      new;
      var i := 0;
      while i < capacity
        invariant 0 <= i <= capacity <= cap == elems.Length && rpos == wpos == 0 && contents == []
        invariant ring == Start(cap, capacity, zero, {me})
        invariant forall j :: 0 <= j < cap ==> elems[j] == Slot(if j < i then j else 0, zero)
      {
        elems[i] := elems[i].(seqno := i);
        i := i + 1;
      }
      StartIsGood(cap, capacity, zero, {me});
    }

    /** `spurious` counts the times the weak compare-and-swap fails for no reason. */
    method Post(v: V, spurious: nat) returns (ok: bool)
      requires Valid()
      modifies this`wpos, this`ring, this`contents, elems
      ensures Valid()
      ensures if ok then Legal(old(ring), SoloPost(me, v)) && ring == Final(old(ring), SoloPost(me, v))
              else ring == old(ring)
      ensures ok <==> |old(contents)| < cap
      ensures contents == if ok then old(contents) + [v] else old(contents)
    {
      QuietSlots(ring);
      var left, pos := spurious, wpos;
      while true
        invariant Mirrors() && pos == wpos && ring == old(ring) && contents == old(contents)
        decreases left
      {
        var i := pos % cap;
        var diff := elems[i].seqno - pos;
        assert diff <= 0;                          // alone, post never finds the slot ahead
        if diff < 0 {
          return false;
        }
        if left > 0 {
          left, pos := left - 1, wpos;
        } else {
          wpos := pos + 1;
          elems[i] := elems[i].(val := v);
          elems[i] := elems[i].(seqno := pos + 1);
          ring := PostAlone(ring, me, v);
          contents := contents + [v];
          return true;
        }
      }
    }

    method Fetch(spurious: nat) returns (r: Fetched<V>)
      requires Valid()
      modifies this`rpos, this`ring, this`contents, elems
      ensures Valid()
      ensures if r.Got? then Legal(old(ring), SoloFetch(me)) && ring == Final(old(ring), SoloFetch(me))
              else ring == old(ring)
      ensures r.Empty? <==> old(contents) == []
      ensures r.Got? ==> old(contents) == [r.val] + contents
      ensures r.Empty? ==> contents == old(contents)
    {
      QuietSlots(ring);
      var left, pos := spurious, rpos;
      while true
        invariant Mirrors() && pos == rpos && ring == old(ring) && contents == old(contents)
        decreases left
      {
        var i := pos % cap;
        var diff := elems[i].seqno - (pos + 1);
        assert diff <= 0;                          // alone, fetch never finds the slot ahead
        if diff < 0 {
          return Empty;
        }
        if left > 0 {
          left, pos := left - 1, rpos;
        } else {
          rpos := pos + 1;
          r := Got(elems[i].val);
          elems[i] := elems[i].(seqno := pos + cap);
          ring := FetchAlone(ring, me);
          contents := contents[1..];
          return;
        }
      }
    }

    /** The number of unused elements. */
    method Unused() returns (n: nat)
      requires Valid()
      ensures n == cap - |contents|
    {
      n := cap - (wpos - rpos);
    }
  }
}
