/** Where the allocator's promises end: a request of 4,295,000,064 bytes, once freed, leaves a span
    whose split wraps the 32-bit product of pages and page size. */
module LongSpans {
  import opened PageHeap
  import opened Allocator
  import opened AllocatorRuns
  import opened AllocatorSafety
  import LostSpan

  const LONG := WRAP_PAGES + 8

  /** No span of 8 pages or more is on file. */
  predicate NoneFiled(h: Heap) {
    |h.rings| == 256 && forall i :: 7 <= i < 256 ==> h.rings[i] == []
  }

  /** Ring 255 holds just `d`, so long that a split by 8 pages wraps. */
  predicate OnlyLong(h: Heap, d: Ptr) {
    && |h.rings| == 256 && (forall i :: 7 <= i < 255 ==> h.rings[i] == []) && h.rings[255] == [d]
    && d in h.spans && h.spans[d].pageSize == LONG
  }

  /** With nothing on file the long request is served by a block of its own. */
  lemma LongFetched(h: Heap) returns (h': Heap, d: Ptr)
    requires HeapInv(h) && NoneFiled(h)
    ensures FetchSpan(h, LONG) == (h', d) && SplitFits(h, LONG)
    ensures HeapInv(h') && NoneFiled(h') && Held(h', d) && Clean(h'.spans[d]) && h'.spans[d].pageSize == LONG
    ensures h'.base == h.base
  {
    h', d := FetchSpanOk(h, LONG);
    PreparedOk(h, LONG);
  }

  lemma LongReturned(h: Heap, d: Ptr)
    requires HeapInv(h) && NoneFiled(h) && Held(h, d) && Clean(h.spans[d]) && h.spans[d].pageSize == LONG
    ensures HeapInv(ReturnSpan(h, d)) && OnlyLong(ReturnSpan(h, d), d) && ReturnSpan(h, d).base == h.base
    ensures ReturnSpan(h, d).spans[d].start == h.spans[d].start
  {
    ReturnSpanOk(h, d);
  }

  lemma LongCut(h: Heap, d: Ptr, x: Ptr)
    requires OnlyLong(h, d) && x in h.spans && x != d && h.spans[x].pageSize == 8
    ensures var h' := CutFrom(h, x, 255);
      && h'.spans[x].start == h.spans[d].start && h'.spans[d].start == h.spans[d].start
      && h'.spans[d].pageSize == WRAP_PAGES && |h'.rings| == 256 && h'.rings[255] == [d]
  {
    assert Bytes32(WRAP_PAGES) == 0;
  }

  lemma FirstIsLong(h: Heap, d: Ptr)
    requires OnlyLong(h, d)
    ensures FirstFiled(h.rings, 8) == 255 && h.rings[RingIndex(8)] == []
  {
  }

  lemma LongPrepared(h: Heap, d: Ptr) returns (h1: Heap, x: Ptr)
    requires HeapInv(h) && OnlyLong(h, d)
    ensures Prepare(h, 8) == (h1, x) && OnlyLong(h1, d) && h1.spans[d] == h.spans[d]
    ensures x in h1.spans && x != d && h1.spans[x].pageSize == 8
  {
    h1, x := PrepareOk(h, 8);
  }

  /** The next 8 pages are said to start where the span they were cut from starts, and that span is
      still on file with its 2^20 other pages. */
  lemma LongSplit(h: Heap, d: Ptr) returns (h': Heap, x: Ptr)
    requires HeapInv(h) && OnlyLong(h, d)
    ensures FetchSpan(h, 8) == (h', x) && !SplitFits(h, 8) && x in h'.spans && d in h'.spans && x != d
    ensures h'.spans[x].start == h.spans[d].start && h'.spans[d].start == h.spans[d].start
    ensures h'.spans[d].pageSize == WRAP_PAGES && |h'.rings| == 256 && h'.rings[255] == [d]
  {
    var h1;
    h1, x := LongPrepared(h, d);
    FirstIsLong(h, d);
    FirstIsLong(h1, d);
    LongCut(h1, d, x);
    h' := CutFrom(h1, x, 255);
  }

  /** In any state with no span of 8 pages or more on file, three calls of one thread do it: a
      request of 2^20 + 8 pages, its release, and a request of 8 pages. The last block starts where
      a span on file starts, which the next request of 256 pages will be given; the state
      satisfies the invariant no more. */
  lemma WrappedRun(s: State, t: Tid) returns (b: Addr, s': State, d: Ptr)
    requires Inv(s) && Ready(s, t) && NoneFiled(s.heap)
    ensures Run(s, [LargeMallocStep(t, LARGE_LIMIT)] + [LargeFreeStep(t, b)] + [LargeMallocStep(t, 32769)], s')
    ensures !Inv(s') && b in s'.live && s'.live[b] == 32769
    ensures |s'.heap.rings| == 256 && s'.heap.rings[255] == [d] && d in s'.heap.spans
    ensures s'.heap.spans[d].start == b && s'.heap.spans[d].pageSize == WRAP_PAGES
  {
    var s1;
    s1, b, d := LongTaken(s, t);
    var s2 := LongFreed(s1, t, b, d);
    s' := Apply(s2, LargeMallocStep(t, 32769));
    var h, x := LongSplit(s2.heap, d);
    StepExact(s2, LargeMallocStep(t, 32769));
    OneStep(s, LargeMallocStep(t, LARGE_LIMIT), s1);
    OneStep(s1, LargeFreeStep(t, b), s2);
    OneStep(s2, LargeMallocStep(t, 32769), s');
    RunsOn(s, [LargeMallocStep(t, LARGE_LIMIT)], s1, [LargeFreeStep(t, b)], s2);
    RunsOn(s, [LargeMallocStep(t, LARGE_LIMIT)] + [LargeFreeStep(t, b)], s2, [LargeMallocStep(t, 32769)], s');
  }

  lemma LongValue(s: State, h: Heap, d: Ptr)
    requires HeapInv(s.heap) && FetchSpan(s.heap, LONG) == (h, d)
    ensures LARGE_LIMIT / 4096 == LONG && MallocLarge(s, LARGE_LIMIT) == s.(heap := h, live := s.live[h.spans[d].start := LARGE_LIMIT])
  {
  }

  lemma LongTaken(s: State, t: Tid) returns (s1: State, b: Addr, d: Ptr)
    requires Inv(s) && Ready(s, t) && NoneFiled(s.heap)
    ensures Goes(s, LargeMallocStep(t, LARGE_LIMIT), s1) && Inv(s1) && Ready(s1, t) && b in s1.live
    ensures NoneFiled(s1.heap) && Held(s1.heap, d) && Clean(s1.heap.spans[d]) && s1.heap.spans[d].pageSize == LONG
    ensures s1.heap.spans[d].start == b && Mapped(s1.heap, b) && SpanAt(s1.heap, b) == d
  {
    var h;
    h, d := LongFetched(s.heap);
    LongValue(s, h, d);
    StartMapped(h, d);
    b := h.spans[d].start;
    s1 := Apply(s, LargeMallocStep(t, LARGE_LIMIT));
    LargeMallocOk(s, LARGE_LIMIT);
  }

  lemma LongFreed(s1: State, t: Tid, b: Addr, d: Ptr) returns (s2: State)
    requires Inv(s1) && Ready(s1, t) && b in s1.live && Mapped(s1.heap, b) && SpanAt(s1.heap, b) == d
    requires NoneFiled(s1.heap) && Held(s1.heap, d) && Clean(s1.heap.spans[d]) && s1.heap.spans[d].pageSize == LONG
    ensures Goes(s1, LargeFreeStep(t, b), s2) && Inv(s2) && Ready(s2, t)
    ensures OnlyLong(s2.heap, d) && s2.heap.spans[d].start == s1.heap.spans[d].start
  {
    LongReturned(s1.heap, d);
    s2 := Apply(s1, LargeFreeStep(t, b));
    StepOk(s1, LargeFreeStep(t, b));
  }

  // ----- from any state -----------------------------------------------------

  /** Rings 7 up to `i` are empty. */
  predicate EmptyBelow(h: Heap, i: nat) {
    |h.rings| == 256 && forall k :: 7 <= k < i && k < 256 ==> h.rings[k] == []
  }

  /** Bytes of a request for `i` + 1 pages. */
  function RequestFor(i: nat): nat {
    4096 * (i + 1) + 1
  }

  /** A request of exactly its length takes the head of ring `i`, and touches no other ring. */
  lemma TakeHead(s: State, t: Tid, i: nat) returns (s': State)
    requires Inv(s) && Ready(s, t) && 7 <= i < 256 && s.heap.rings[i] != []
    ensures Goes(s, LargeMallocStep(t, RequestFor(i)), s') && Inv(s') && Ready(s', t) && s'.heap.rings == s.heap.rings[i := s.heap.rings[i][1..]]
  {
    assert RequestFor(i) / 4096 == i + 1 && RingIndex(i + 1) == i;
    s' := Apply(s, LargeMallocStep(t, RequestFor(i)));
    StepOk(s, LargeMallocStep(t, RequestFor(i)));
  }

  /** Such requests empty all rings from `i` on. */
  lemma {:induction false} EmptyRings(s: State, t: Tid, i: nat) returns (acts: seq<Action>, s': State)
    requires Inv(s) && Ready(s, t) && 7 <= i <= 256 && EmptyBelow(s.heap, i)
    ensures Run(s, acts, s') && Inv(s') && Ready(s', t) && NoneFiled(s'.heap)
    decreases 256 - i, if i < |s.heap.rings| then |s.heap.rings[i]| else 0
  {
    if i == 256 {
      acts, s' := [], s;
      assert Run(s, [], s);
    } else if s.heap.rings[i] == [] {
      acts, s' := EmptyRings(s, t, i + 1);
    } else {
      var s1 := TakeHead(s, t, i);
      OneStep(s, LargeMallocStep(t, RequestFor(i)), s1);
      var rest;
      rest, s' := EmptyRings(s1, t, i);
      RunsOn(s, [LargeMallocStep(t, RequestFor(i))], s1, rest, s');
      acts := [LargeMallocStep(t, RequestFor(i))] + rest;
    }
  }

  /** From every state that satisfies the invariant any thread that is between calls can break it,
      by calls of tc_malloc and tc_free alone; so no bound on requests above the limit would do. */
  lemma AlwaysBreakable(s: State, t: Tid) returns (acts: seq<Action>, s': State)
    requires Inv(s) && Ready(s, t)
    ensures Run(s, acts, s') && !Inv(s')
  {
    var some, s1 := EmptyRings(s, t, 7);
    var b, d;
    b, s', d := WrappedRun(s1, t);
    var last := [LargeMallocStep(t, LARGE_LIMIT)] + [LargeFreeStep(t, b)] + [LargeMallocStep(t, 32769)];
    RunsOn(s, some, s1, last, s');
    acts := some + last;
  }

  /** So it goes after the set-up of the allocator and of a first thread. */
  lemma BreakableAfterSetUp(base: nat) returns (s: State, acts: seq<Action>, s': State)
    requires base % 4096 == 0
    ensures Reachable(s) && Ready(s, 0) && Run(s, acts, s') && !Inv(s')
  {
    var s0, d := LostSpan.CentralSet(base);
    var s1, g, e;
    s1, g, e, s := LostSpan.TakeOne(s0, 0);
    ReachableOk(s);
    acts, s' := AlwaysBreakable(s, 0);
  }
}
