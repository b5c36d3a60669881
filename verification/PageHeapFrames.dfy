/** What a record that only the central cache writes means to the page heap: nothing. Every operation
    of the page heap does the same whether the slot fields of a span in use are written before it or
    after. */
module PageHeapFrames {
  import opened PageHeap
  import opened PageCache

  /** `sp` is the record of `d` in `h` but for its slot fields and its location. */
  predicate SameRun(h: Heap, d: Ptr, sp: Span) {
    d in h.spans && sp.start == h.spans[d].start && sp.pageId == h.spans[d].pageId && sp.pageSize == h.spans[d].pageSize
  }

  lemma TweakTwice(h: Heap, a: Ptr, x: Span, b: Ptr, y: Span)
    requires a != b
    ensures Tweak(Tweak(h, a, x), b, y) == Tweak(Tweak(h, b, y), a, x)
  {
    assert h.spans[a := x][b := y] == h.spans[b := y][a := x];
  }

  lemma MapTweak(h: Heap, x: Ptr, d: Ptr, sp: Span)
    requires x in h.spans && x != d
    ensures UpdateMapping(Tweak(h, d, sp), x) == Tweak(UpdateMapping(h, x), d, sp)
  {
    assert UpdateMapping(Tweak(h, d, sp), x).pageMap == UpdateMapping(h, x).pageMap;
  }

  lemma StartedTweak(h: Heap, page: nat, d: Ptr, sp: Span)
    requires Cursor(h.(chunk := page), 0) != d
    ensures PoolStarted(Tweak(h, d, sp), page) == Tweak(PoolStarted(h, page), d, sp)
    ensures Cursor(PoolStarted(h, page), 0) == Cursor(h.(chunk := page), 0) && Cursor(h.(chunk := page), 0) in PoolStarted(h, page).spans
  {
    var c := Cursor(h.(chunk := page), 0);
    var meta := ZERO_SPAN.(pageId := page, pageSize := POOL_PAGES);
    assert h.spans[d := sp][c := meta] == h.spans[c := meta][d := sp];
  }

  lemma NewPoolTweak(h: Heap, d: Ptr, sp: Span)
    requires Cursor(h.(chunk := h.brk), 0) != d
    ensures NewPool(Tweak(h, d, sp)) == Tweak(NewPool(h), d, sp)
  {
    var g := Sbrk(h, POOL_PAGES);
    var c := Cursor(h.(chunk := h.brk), 0);
    assert Sbrk(Tweak(h, d, sp), POOL_PAGES) == Tweak(g, d, sp) && Cursor(g.(chunk := h.brk), 0) == c;
    StartedTweak(g, h.brk, d, sp);
    PoolMapped(h, PoolStarted(g, h.brk), c);
    PoolMapped(Tweak(h, d, sp), PoolStarted(Tweak(g, d, sp), h.brk), c);
    MapTweak(PoolStarted(g, h.brk), c, d, sp);
  }

  lemma TakeTweak(h: Heap, new_: Span, d: Ptr, sp: Span)
    requires Cursor(h, h.currInd) != d
    ensures TakeDescriptor(Tweak(h, d, sp), new_) == Tweak(TakeDescriptor(h, new_), d, sp)
  {
    var c := Cursor(h, h.currInd);
    assert h.spans[d := sp][c := new_] == h.spans[c := new_][d := sp];
  }

  /** The pool that the next descriptor comes from. */
  function PoolFor(h: Heap): Heap {
    if h.remBytes < SPAN_BYTES then NewPool(h) else h
  }

  /** The next descriptor, and the first of a new pool, are not among those there are. */
  lemma CursorFresh(h: Heap, d: Ptr)
    requires Core(h) && BelowBreak(h) && d in h.spans
    ensures h.remBytes < SPAN_BYTES ==> Cursor(h.(chunk := h.brk), 0) != d
    ensures Cursor(PoolFor(h), PoolFor(h).currInd) != d
  {
    var h1 := PoolReady(h);
    TakeExtends(h1, ZERO_SPAN);
  }

  lemma PoolTweak(h: Heap, d: Ptr, sp: Span)
    requires Core(h) && BelowBreak(h) && d in h.spans
    ensures PoolFor(Tweak(h, d, sp)) == Tweak(PoolFor(h), d, sp) && Cursor(PoolFor(h), PoolFor(h).currInd) != d
  {
    CursorFresh(h, d);
    if h.remBytes < SPAN_BYTES {
      NewPoolTweak(h, d, sp);
    }
  }

  lemma FiledTweak(h: Heap, d: Ptr, sp: Span)
    requires RingsOk(h)
    ensures Filed(h) && Filed(Tweak(h, d, sp))
  {
    forall i, x | 0 <= i < 256 && x in h.rings[i]
      ensures x in h.spans
    {
      assert Parked(h, x, i);
    }
  }

  /** `h` with the record of `d` replaced, and the descriptor found. */
  function Later(r: (Heap, Ptr), d: Ptr, sp: Span): (Heap, Ptr) {
    (Tweak(r.0, d, sp), r.1)
  }

  lemma AllocTweak(h: Heap, npages: nat, page: int, d: Ptr, sp: Span)
    requires Core(h) && BelowBreak(h) && d in h.spans
    ensures Filed(h) && Filed(Tweak(h, d, sp))
    ensures AllocSpan(Tweak(h, d, sp), npages, page) == Later(AllocSpan(h, npages, page), d, sp)
    ensures AllocSpan(h, npages, page).1 != d
  {
    FiledTweak(h, d, sp);
    PoolTweak(h, d, sp);
    TakeTweak(PoolFor(h), ZERO_SPAN.(pageSize := npages, pageId := page), d, sp);
  }

  lemma PrepareTweak(h: Heap, npage: nat, d: Ptr, sp: Span)
    requires HeapInv(h) && d in h.spans
    ensures Filed(h) && Filed(Tweak(h, d, sp)) && Prepare(Tweak(h, d, sp), npage) == Later(Prepare(h, npage), d, sp)
    ensures Prepare(h, npage).1 != d
  {
    AllocTweak(h, npage, 0, d, sp);
    var r := AllocSpan(h, npage, 0);
    if npage > 8 {
      TweakTwice(r.0, d, sp, r.1, r.0.spans[r.1].(loc := Isolated));
    }
  }

  lemma MoveMapped(h: Heap, t: Ptr, x: Ptr, rest: nat)
    requires t in h.spans && x in h.spans && h.spans[x].pageSize + rest == h.spans[t].pageSize
    ensures MoveTail(h, t, x) == UpdateMapping(Tweak(Tweak(h, t, h.spans[t].(pageSize := rest)), x, CutSpan(h, t, x, rest)), x)
  {
  }

  lemma TweakThrice(h: Heap, a: Ptr, p: Span, b: Ptr, q: Span, d: Ptr, sp: Span)
    requires a != d && b != d
    ensures Tweak(Tweak(Tweak(h, d, sp), a, p), b, q) == Tweak(Tweak(Tweak(h, a, p), b, q), d, sp)
  {
    TweakTwice(h, d, sp, a, p);
    TweakTwice(Tweak(h, a, p), d, sp, b, q);
  }

  lemma MoveTweak(h: Heap, t: Ptr, x: Ptr, d: Ptr, sp: Span)
    requires t in h.spans && x in h.spans && h.spans[x].pageSize <= h.spans[t].pageSize && t != d && x != d
    ensures MoveTail(Tweak(h, d, sp), t, x) == Tweak(MoveTail(h, t, x), d, sp)
  {
    var rest := h.spans[t].pageSize - h.spans[x].pageSize;
    var a, b := h.spans[t].(pageSize := rest), CutSpan(h, t, x, rest);
    MoveMapped(h, t, x, rest);
    MoveMapped(Tweak(h, d, sp), t, x, rest);
    TweakThrice(h, t, a, x, b, d, sp);
    MapTweak(Tweak(Tweak(h, t, a), x, b), x, d, sp);
  }

  lemma CutTweak(h: Heap, x: Ptr, i: nat, d: Ptr, sp: Span)
    requires |h.rings| == 256 && i < 256 && h.rings[i] != [] && x in h.spans && h.rings[i][0] in h.spans
    requires h.spans[x].pageSize <= h.spans[h.rings[i][0]].pageSize && x != d && h.rings[i][0] != d
    ensures CutFrom(Tweak(h, d, sp), x, i) == Tweak(CutFrom(h, x, i), d, sp)
  {
    var t := h.rings[i][0];
    assert DropHead(Tweak(h, d, sp), i) == Tweak(DropHead(h, i), d, sp);
    MoveTweak(DropHead(h, i), t, x, d, sp);
  }

  lemma StartTweak(h: Heap, x: Ptr, start: nat, d: Ptr, sp: Span)
    requires x in h.spans && x != d
    ensures SetStart(Tweak(h, d, sp), x, start) == Tweak(SetStart(h, x, start), d, sp)
  {
    TweakTwice(h, d, sp, x, h.spans[x].(start := start));
  }

  lemma StartMappedTweak(h: Heap, x: Ptr, start: nat, d: Ptr, sp: Span)
    requires x in h.spans && x != d
    ensures UpdateMapping(SetStart(Tweak(h, d, sp), x, start), x) == Tweak(UpdateMapping(SetStart(h, x, start), x), d, sp)
  {
    StartTweak(h, x, start, d, sp);
    MapTweak(SetStart(h, x, start), x, d, sp);
  }

  lemma GrabMapped(h: Heap, npage: nat, r: (Heap, Ptr))
    requires Filed(h) && r == AllocSpan(Sbrk(h, npage), npage, h.brk)
    ensures GrabBlock(h, npage) == (UpdateMapping(SetStart(r.0, r.1, BreakAddr(h)), r.1), r.1)
  {
  }

  lemma SbrkTweak(h: Heap, pages: nat, d: Ptr, sp: Span)
    ensures Sbrk(Tweak(h, d, sp), pages) == Tweak(Sbrk(h, pages), d, sp) && Filed(Sbrk(h, pages)) == Filed(h)
  {
  }

  lemma GrabLater(h: Heap, h1: Heap, npage: nat, r: (Heap, Ptr), d: Ptr, sp: Span)
    requires Filed(h) && Filed(h1) && r == AllocSpan(Sbrk(h, npage), npage, h.brk) && r.1 != d
    requires h1.brk == h.brk && BreakAddr(h1) == BreakAddr(h) && AllocSpan(Sbrk(h1, npage), npage, h1.brk) == Later(r, d, sp)
    ensures GrabBlock(h1, npage) == Later(GrabBlock(h, npage), d, sp) && GrabBlock(h, npage).1 != d
  {
    GrabMapped(h, npage, r);
    GrabMapped(h1, npage, Later(r, d, sp));
    StartMappedTweak(r.0, r.1, BreakAddr(h), d, sp);
  }

  lemma GrabTweak(h: Heap, npage: nat, d: Ptr, sp: Span)
    requires HeapInv(h) && d in h.spans
    ensures Filed(h) && Filed(Tweak(h, d, sp)) && GrabBlock(Tweak(h, d, sp), npage) == Later(GrabBlock(h, npage), d, sp)
    ensures GrabBlock(h, npage).1 != d
  {
    FiledTweak(h, d, sp);
    SbrkOk(h, npage);
    SbrkTweak(h, npage, d, sp);
    AllocTweak(Sbrk(h, npage), npage, h.brk, d, sp);
    GrabLater(h, Tweak(h, d, sp), npage, AllocSpan(Sbrk(h, npage), npage, h.brk), d, sp);
  }

  lemma RefillTweak(h: Heap, d: Ptr, sp: Span)
    requires HeapInv(h) && d in h.spans
    ensures Filed(h) && Filed(Tweak(h, d, sp)) && FetchFromSystem(Tweak(h, d, sp)) == Tweak(FetchFromSystem(h), d, sp)
  {
    GrabTweak(h, SYS_FETCH_PAGES, d, sp);
  }

  /** The invariant does not look at the slot fields of a span in use. */
  lemma InvTweak(h: Heap, d: Ptr, sp: Span)
    requires HeapInv(h) && Held(h, d) && SameRun(h, d, sp)
    ensures HeapInv(Tweak(h, d, sp))
  {
    CleanHeldOk(h, d, sp);
  }

  /** A span in use is on no ring. */
  lemma HeldUnfiled(h: Heap, d: Ptr, i: nat)
    requires RingsOk(h) && Held(h, d) && i < 256
    ensures d !in h.rings[i]
  {
    assert d in h.rings[i] ==> Parked(h, d, i);
  }

  /** fetch_span does the same before and after the slot fields of a span in use are written. */
  lemma {:induction false} FetchTweak(h: Heap, npage: nat, d: Ptr, sp: Span)
    requires HeapInv(h) && 1 <= npage < INT_PAGES && Held(h, d) && SameRun(h, d, sp)
    ensures HeapInv(Tweak(h, d, sp)) && FetchSpan(Tweak(h, d, sp), npage) == Later(FetchSpan(h, npage), d, sp)
    ensures FetchSpan(h, npage).1 != d
    decreases if h.rings[255] == [] then 1 else 0, 1
  {
    InvTweak(h, d, sp);
    var i := RingIndex(npage);
    if h.rings[i] != [] {
      HeldUnfiled(h, d, i);
    } else {
      PreparedOk(h, npage);
      PreparedOk(Tweak(h, d, sp), npage);
      PrepareTweak(h, npage, d, sp);
      PreparedHeld(h, npage, d);
      FetchMissTweak(Prepare(h, npage).0, npage, Prepare(h, npage).1, d, sp);
    }
  }

  lemma PreparedHeld(h: Heap, npage: nat, d: Ptr)
    requires HeapInv(h) && Held(h, d)
    ensures Filed(h) && HeapInv(Prepare(h, npage).0) && Held(Prepare(h, npage).0, d) && Prepare(h, npage).0.spans[d] == h.spans[d]
  {
    var h1, x := PrepareOk(h, npage);
    OwnsExtends(h, h1);
  }

  lemma {:induction false} FetchMissTweak(h: Heap, npage: nat, x: Ptr, d: Ptr, sp: Span)
    requires HeapInv(h) && 1 <= npage < INT_PAGES && h.rings[RingIndex(npage)] == [] && Held(h, d) && SameRun(h, d, sp)
    requires x in h.spans && h.spans[x].pageSize == npage && x != d && HeapInv(Tweak(h, d, sp))
    ensures FetchMiss(Tweak(h, d, sp), npage, x) == Later(FetchMiss(h, npage, x), d, sp)
    ensures FetchMiss(h, npage, x).1 != d
    decreases if h.rings[255] == [] then 1 else 0, 0
  {
    var j := FirstFiled(h.rings, npage);
    if j < 256 {
      FiledHead(h, j);
      HeldUnfiled(h, d, j);
      CutTweak(h, x, j, d, sp);
    } else if npage > 256 {
      GrabTweak(h, npage, d, sp);
    } else {
      FetchFromSystemOk(h);
      FetchFromSystemOk(Tweak(h, d, sp));
      RefillTweak(h, d, sp);
      RefillHeld(h, d);
      FetchTweak(FetchFromSystem(h), npage, d, sp);
    }
  }

  lemma RefillHeld(h: Heap, d: Ptr)
    requires HeapInv(h) && h.rings[255] == [] && Held(h, d)
    ensures Filed(h) && Held(FetchFromSystem(h), d) && FetchFromSystem(h).spans[d] == h.spans[d]
  {
    var h1 := RefillKeeps(h);
  }

  /** Returning another span does too. */
  lemma ReturnTweak(h: Heap, x: Ptr, d: Ptr, sp: Span)
    requires |h.rings| == 256 && x in h.spans && x != d
    ensures ReturnSpan(Tweak(h, d, sp), x) == Tweak(ReturnSpan(h, x), d, sp)
  {
    var clean := h.spans[x].(objsSize := 0, objLen := 0, objs := [], loc := InPageHeap);
    TweakTwice(h, d, sp, x, clean);
    MapTweak(Push(Tweak(h, x, clean), RingIndex(clean.pageSize), x), x, d, sp);
  }
}
