/** Last in, first out: in every run the block a thread has just freed is the one the next request
    for the same class, or for as many pages, gets. */
module BlockReuse {
  import opened SizeClasses
  import opened PageHeap
  import opened Allocator
  import opened AllocatorRuns
  import opened AllocatorSafety
  import opened FreeLists

  // ----- how long the span of a live block is -------------------------------

  /** The span of the block `a` is filed by the length that `size` bytes ask for. */
  predicate SizedAt(h: Heap, a: Addr, size: nat) {
    && Mapped(h, a) && SpanAt(h, a) in h.spans
    && RingIndex(h.spans[SpanAt(h, a)].pageSize) == RingIndex(size / 4096)
  }

  ghost predicate Sized(s: State) {
    forall a :: a in s.live && s.live[a] > THRESH_ALLOC ==> SizedAt(s.heap, a, s.live[a])
  }

  lemma FetchedRing(h: Heap, npage: nat)
    requires RingsOk(h) && npage >= 1
    ensures RingIndex(FetchedPages(h, npage)) == RingIndex(npage)
  {
    if h.rings[255] != [] { FiledHead(h, 255); }
  }

  /** Spans in use keep their length. */
  ghost predicate LengthsStay(h: Heap, h': Heap) {
    forall x :: Held(h, x) ==> x in h'.spans && h'.spans[x].pageSize == h.spans[x].pageSize
  }

  lemma BatchLengths(s: State, c: nat)
    requires CentralReady(s, c) && BatchFits(s, c)
    ensures LengthsStay(s.heap, GetSpanCentral(s, c).0.heap)
  {
    if FirstWithSlots(s.heap.spans, s.classes[c].list) == |s.classes[c].list| {
      var h, d := FetchSpanOk(s.heap, BATCH);
    }
  }

  lemma ChainLengths(s: State, t: Tid, c: nat)
    requires CentralReady(s, c) && BatchFits(s, c) && Idle(s, t)
    ensures LengthsStay(s.heap, Fetch(s, t, c).heap)
  {
    BatchLengths(s, c);
  }

  lemma FlushLengths(s: State, t: Tid)
    requires Inv(s) && Enabled(s, FlushStep(t))
    ensures LengthsStay(s.heap, Flush(s, t).heap)
  {
    forall x | Held(s.heap, x)
      ensures x in Flush(s, t).heap.spans && Flush(s, t).heap.spans[x].pageSize == s.heap.spans[x].pageSize
    {
      FlushPages(s, t, x);
    }
  }

  lemma StepLengths(s: State, act: Action)
    requires Inv(s) && Enabled(s, act) && Fits(s, act)
    ensures LengthsStay(s.heap, Apply(s, act).heap)
  {
    match act
    case CarveAhead(c) => ClassesReady(s, c); BatchLengths(s, c);
    case FetchStep(t, c) => ClassesReady(s, c); ChainLengths(s, t, c);
    case FlushStep(t) => FlushLengths(s, t);
    case LargeMallocStep(t, size) => var h, d := FetchSpanOk(s.heap, size / 4096);
    case LargeFreeStep(t, a) => LiveLarge(s, a);
    case _ =>
  }

  lemma LargeHeld(s: State, a: Addr)
    requires Inv(s) && a in s.live && s.live[a] > THRESH_ALLOC
    ensures LargeBlock(s.heap, a) && Mapped(s.heap, a) && Held(s.heap, SpanAt(s.heap, a))
  {
    assert LiveAt(s.heap, a, s.live[a]);
  }

  lemma OldSized(s: State, s': State, a: Addr)
    requires Steady(s, s', a) && a in s.live && a in s'.live && SizedAt(s.heap, a, s.live[a])
    requires Held(s.heap, SpanAt(s.heap, a)) && LengthsStay(s.heap, s'.heap)
    ensures SizedAt(s'.heap, a, s'.live[a])
  {
  }

  lemma NewSized(s: State, size: nat)
    requires Inv(s) && THRESH_ALLOC < size < INT_BYTES && SplitFits(s.heap, size / 4096)
    ensures SizedAt(MallocLarge(s, size).heap, LargeResult(s, size), size)
  {
    var h, d := FetchSpanOk(s.heap, size / 4096);
    StartMapped(h, d);
    FetchedRing(s.heap, size / 4096);
  }

  /** Which blocks a step can add: one of pages, or slots. */
  lemma Added(s: State, act: Action, a: Addr)
    requires Inv(s) && Enabled(s, act) && a in Apply(s, act).live && a !in s.live && Apply(s, act).live[a] > THRESH_ALLOC
    ensures act.LargeMallocStep? && a == LargeResult(s, act.size) && Apply(s, act).live[a] == act.size
  {
    if act.FlushStep? { FlushMapStays(s, act.t); }
  }

  lemma StepSized(s: State, act: Action)
    requires Inv(s) && Enabled(s, act) && Fits(s, act) && Sized(s)
    ensures Sized(Apply(s, act))
  {
    var s' := Apply(s, act);
    StepLengths(s, act);
    forall a | a in s'.live && s'.live[a] > THRESH_ALLOC
      ensures SizedAt(s'.heap, a, s'.live[a])
    {
      if a in s.live {
        StepSteady(s, act, a);
        LargeHeld(s, a);
        OldSized(s, s', a);
      } else {
        Added(s, act, a);
        NewSized(s, act.size);
      }
    }
  }

  lemma SizedOnward(s: State, act: Action, s': State)
    requires Reachable(s) && Sized(s) && Goes(s, act, s') && Moderate(act)
    ensures Reachable(s') && Sized(s')
  {
    ReachableOk(s);
    StepLimited(s, act);
    StepSized(s, act);
    StepReachable(s, act, s');
  }

  /** In every run each live block of pages has a span as long as its request asks for, or, from 256
      pages on, one of the long ones. */
  lemma ReachableSized(s: State, a: Addr)
    requires Reachable(s) && a in s.live && s.live[a] > THRESH_ALLOC
    ensures SizedAt(s.heap, a, s.live[a])
  {
    var all := iset x: State | Reachable(x) && Sized(x);
    forall base | base % 4096 == 0
      ensures Init(base) in all
    {
      InitReachable(base);
    }
    forall x, act, y | x in all && Goes(x, act, y) && Moderate(act)
      ensures y in all
    {
      SizedOnward(x, act, y);
    }
    assert Closed(all);
  }

  // ----- freeing and asking again -------------------------------------------

  lemma PagesAgain(s: State, a: Addr, size: nat) returns (s1: State)
    requires HeapInv(s.heap) && LargeBlock(s.heap, a) && a in s.live && SizedAt(s.heap, a, s.live[a])
    requires THRESH_ALLOC < size < INT_BYTES && RingIndex(size / 4096) == RingIndex(s.live[a] / 4096)
    ensures Mapped(s.heap, a) && SpanAt(s.heap, a) in s.heap.spans && |s.heap.rings| == 256
    ensures s1 == FreeLarge(s, a) && HeapInv(s1.heap) && LargeResult(s1, size) == a
    ensures MallocLarge(s1, size).heap.rings == s.heap.rings && MallocLarge(s1, size).live == s.live[a := size]
  {
    s1 := FreeLarge(s, a);
    var h1 := ReturnThenFetch(s.heap, SpanAt(s.heap, a), size / 4096);
    assert (s.live - {a})[a := size] == s.live[a := size];
  }

  /** A thread that frees a block of pages and then asks for the same number of bytes, or for any
      number of the same ring, gets the same block, and the page heap is filed as before. */
  lemma LargeReuse(s: State, t: Tid, a: Addr, size: nat) returns (s1: State, s2: State)
    requires Reachable(s) && Ready(s, t) && a in s.live && s.live[a] > THRESH_ALLOC
    requires THRESH_ALLOC < size < INT_BYTES && RingIndex(size / 4096) == RingIndex(s.live[a] / 4096)
    ensures Goes(s, LargeFreeStep(t, a), s1) && Goes(s1, LargeMallocStep(t, size), s2)
    ensures LargeResult(s1, size) == a && s2.live == s.live[a := size] && s2.heap.rings == s.heap.rings
  {
    ReachableOk(s);
    ReachableSized(s, a);
    LargeHeld(s, a);
    s1 := PagesAgain(s, a, size);
    FreeLargeOk(s, a);
    s2 := MallocLarge(s1, size);
  }

  /** A thread that frees a slot its cache has room for and then asks for a slot of that class gets
      the same slot, and all is as before. */
  lemma SmallReuse(s: State, t: Tid, a: Addr, size: nat) returns (s1: State)
    requires Reachable(s) && Ready(s, t) && a in s.live && s.live[a] <= THRESH_ALLOC
    requires 1 <= size <= THRESH_ALLOC && GetIndex(size) == GetIndex(s.live[a]) && IsClass(GetIndex(size))
    requires s.threads[t].lists[GetIndex(size)].objLen != s.threads[t].lists[GetIndex(size)].maxLength
    ensures Goes(s, FreeStep(t, a), s1) && Enabled(s1, PopStep(t, size)) && PopResult(s1, t, size) == a
    ensures Inv(s1) && Apply(s1, PopStep(t, size)) == s.(live := s.live[a := size])
  {
    ReachableOk(s);
    LiveSmall(s, a);
    FreeSlotOk(s, t, a);
    s1 := FreeSlot(s, t, a);
    PopOk(s1, t, size);
    SlotAgain(s, s1, t, a, size);
  }

  lemma SlotAgain(s: State, s1: State, t: Tid, a: Addr, size: nat)
    requires Idle(s, t) && FreesSmall(s.heap, a) && FreedClass(s.heap, a) == GetIndex(size) && IsClass(GetIndex(size))
    requires s.threads[t].lists[GetIndex(size)].objLen != s.threads[t].lists[GetIndex(size)].maxLength
    requires s1 == FreeSlot(s, t, a)
    ensures Pop(s1, t, size) == s.(live := s.live[a := size])
  {
    var c := GetIndex(size);
    var th := s.threads[t];
    assert ([a] + th.lists[c].objs)[1..] == th.lists[c].objs;
    assert th.lists[c := s1.threads[t].lists[c]][c := th.lists[c]] == th.lists;
    assert s1.threads[t := th] == s.threads;
    assert (s.live - {a})[a := size] == s.live[a := size];
  }
}
