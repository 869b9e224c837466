/** Size classes of the shared-memory allocator: which free list serves a request, and which one takes it back. */
module MemClasses {
  import opened PowersOfTwo

  datatype Choice = NoClass | Class(index: nat)

  const CACHE_LINE: nat := 64
  const CLASSES: nat := 7

  /** Sizes are below this. */
  const SIZE_RANGE: nat := 0x1_0000_0000_0000_0000

  function ClassBytes(c: nat): (bytes: nat)
    requires c < CLASSES
    ensures bytes % CACHE_LINE == 0 && CACHE_LINE <= bytes <= 2048
  {
    if c == 0 then 64 else if c == 1 then 128 else if c == 2 then 192 else if c == 3 then 256
    else if c == 4 then 512 else if c == 5 then 1024 else 2048
  }

  /** The switch on the next power of two of a number of cache lines, shared by alloc and dealloc. */
  function ClassOfLines(lines: nat): (c: Choice)
    ensures c.Class? ==> c.index < CLASSES
  {
    var p := NextPow2(lines);
    if p == 1 then Class(0)
    else if p == 2 then Class(1)
    else if p == 4 then (if lines == 3 then Class(2) else Class(3))
    else if p == 8 then Class(4)
    else if p == 16 then Class(5)
    else if p == 32 then Class(6)
    else NoClass
  }

  /** Alloc rounds the size up to cache lines, with a sum in 64 bits. */
  function AllocClass(size: nat): (c: Choice)
    ensures c.Class? ==> c.index < CLASSES
  {
    ClassOfLines((size + (CACHE_LINE - 1)) % SIZE_RANGE / CACHE_LINE)
  }

  /** The sum runs over for the 63 greatest sizes. */
  predicate SumWraps(size: nat) {
    size > 0xFFFF_FFFF_FFFF_FFC0
  }

  /** Dealloc rounds it down. */
  function DeallocClass(size: nat): (c: Choice)
    ensures c.Class? ==> c.index < CLASSES
  {
    ClassOfLines(size / CACHE_LINE)
  }

  lemma LineRanges(lines: nat)
    ensures ClassOfLines(lines) ==
      if lines <= 1 then Class(0) else if lines == 2 then Class(1) else if lines == 3 then Class(2)
      else if lines == 4 then Class(3) else if lines <= 8 then Class(4) else if lines <= 16 then Class(5)
      else if lines <= 32 then Class(6) else NoClass
  {
    assert NextPow2(lines) == Doubled(1, lines);
    assert lines > 1 ==> Doubled(1, lines) == Doubled(2, lines);
    assert lines > 2 ==> Doubled(2, lines) == Doubled(4, lines);
    assert lines > 4 ==> Doubled(4, lines) == Doubled(8, lines);
    assert lines > 8 ==> Doubled(8, lines) == Doubled(16, lines);
    assert lines > 16 ==> Doubled(16, lines) == Doubled(32, lines);
  }

  /** A request gets a class exactly when it is at most 2048 bytes or one of the 63 greatest sizes. In the first case
      the block is long enough, and no class with shorter blocks would do; in the second it is one of 64 bytes, far
      too short. */
  lemma AllocFits(size: nat)
    requires size <= 0xFFFF_FFFF_FFFF_FFFF
    ensures AllocClass(size).Class? <==> size <= 2048 || SumWraps(size)
    ensures AllocClass(size).Class? ==> (size <= ClassBytes(AllocClass(size).index) <==> size <= 2048)
    ensures size <= 2048 ==> forall c: nat :: c < AllocClass(size).index ==> ClassBytes(c) < size
    ensures SumWraps(size) ==> AllocClass(size) == Class(0)
  {
    LineRanges((size + (CACHE_LINE - 1)) % SIZE_RANGE / CACHE_LINE);
  }

  /** What alloc serves dealloc takes back, unless the size is one of those for which the sum runs over: then it
      aborts. */
  lemma ReleasableExact(size: nat)
    requires AllocClass(size).Class?
    ensures DeallocClass(size).Class? <==> size <= 2048
  {
    LineRanges((size + (CACHE_LINE - 1)) % SIZE_RANGE / CACHE_LINE);
    LineRanges(size / CACHE_LINE);
  }

  /** Whole and partial cache lines that dealloc files under a smaller class than alloc served. */
  predicate Shrinks(size: nat) {
    size % CACHE_LINE != 0 && size / CACHE_LINE in {1, 2, 3, 4, 8, 16}
  }

  /** Dealloc always finds a class for what alloc served, never a larger one, and the same one unless the size is a
      partial line past 1, 2, 3, 4, 8 or 16 whole ones. So multiples of 64 always go back where they came from. */
  lemma DeallocNeverGrows(size: nat)
    requires size <= 2048
    ensures AllocClass(size).Class? && DeallocClass(size).Class?
    ensures DeallocClass(size).index <= AllocClass(size).index
    ensures ClassBytes(DeallocClass(size).index) <= ClassBytes(AllocClass(size).index)
    ensures DeallocClass(size).index < AllocClass(size).index <==> Shrinks(size)
  {
    LineRanges((size + (CACHE_LINE - 1)) % SIZE_RANGE / CACHE_LINE);
    LineRanges(size / CACHE_LINE);
  }
}
