/** The page heap as the program keeps it: fields changed in place by loops and assignments, each
    operation proved to do what the corresponding function on heaps says. */
module PageCache {
  import opened PageHeap

  /** The page index alloc_span stores for an address: zero for NULL. */
  function StoredIndex(h: Heap, addr: nat): int {
    if addr == 0 then 0 else PageIndex(h, addr)
  }

  /** For the block that starts at the break it is the page number of the break. */
  lemma BreakIndex(h: Heap, pages: nat)
    requires h.base % 4096 == 0
    ensures PageIndex(h, BreakAddr(h)) == h.brk && StoredIndex(Sbrk(h, pages), BreakAddr(h)) == h.brk
  {
  }

  /** The pool that starts at `page`, with the descriptor that stands for it, not yet mapped. */
  function PoolStarted(h: Heap, page: nat): Heap {
    var h1 := h.(chunk := page);
    var meta := Cursor(h1, 0);
    h1.(spans := h.spans[meta := ZERO_SPAN.(pageId := page, pageSize := POOL_PAGES)],
        pools := h.pools + {meta}, remBytes := POOL_BYTES - SPAN_BYTES, currInd := 1)
  }

  lemma PoolMapped(h: Heap, h1: Heap, meta: Ptr)
    requires meta in h1.spans && meta == Cursor(h1, 0) && h1 == PoolStarted(Sbrk(h, POOL_PAGES), h.brk)
    ensures NewPool(h) == PageHeap.UpdateMapping(h1, meta)
  {
  }

  /** Filing `t` before or after the record of `d` is finished and mapped makes no difference. */
  lemma FiledFirst(h: Heap, i: nat, t: Ptr, d: Ptr, part: Span, cut: Span)
    requires i < |h.rings|
    ensures PageHeap.UpdateMapping(Tweak(PageHeap.Push(Tweak(h, d, part), i, t), d, cut), d) ==
            PageHeap.Push(PageHeap.UpdateMapping(Tweak(h, d, cut), d), i, t)
    ensures Tweak(Tweak(h, d, part), d, cut) == Tweak(h, d, cut)
  {
    assert h.spans[d := part][d := cut] == h.spans[d := cut];
  }

  /** Where the two halves of a split end up. */
  function CutSpan(h: Heap, t: Ptr, d: Ptr, rest: nat): Span
    requires t in h.spans && d in h.spans
  {
    h.spans[d].(start := h.spans[t].start + Bytes32(rest), pageId := h.spans[t].pageId + rest)
  }

  lemma SplitMapped(h: Heap, t: Ptr, d: Ptr, rest: nat, h1: Heap)
    requires |h.rings| == 256 && t in h.spans && d in h.spans && t != d && h.spans[d].pageSize + rest == h.spans[t].pageSize
    requires h1 == Tweak(h, t, h.spans[t].(pageSize := rest))
    ensures var h2 := PageHeap.UpdateMapping(Tweak(h1, d, CutSpan(h, t, d, rest)), d);
      PageHeap.SplitSpans(h, t, d) == if rest == 0 then h2 else PageHeap.Push(h2, RingIndex(rest), t)
  {
  }

  class Cache {
    const base: nat
    var brk: nat
    var chunk: nat
    var remBytes: nat
    var currInd: nat
    var spans: map<Ptr, Span>
    var rings: seq<seq<Ptr>>
    var pageMap: map<int, Ptr>
    ghost var obtained: set<int>
    ghost var pools: set<Ptr>

    ghost function Model(): Heap
      reads this
    {
      Heap(base, brk, obtained, chunk, remBytes, currInd, pools, spans, rings, pageMap)
    }

    ghost predicate Valid()
      reads this
    {
      base % 4096 == 0 && HeapInv(Model())
    }

    /** The globals zeroed, and the break noted. */
    constructor (brkAddr: nat)
      requires brkAddr % 4096 == 0
      ensures Valid() && Model() == Empty(brkAddr)
    {
      base, brk := brkAddr, 0;
      chunk, remBytes, currInd := 0, 0, 0;
      spans, rings, pageMap := map[], seq(256, _ => []), map[];
      obtained, pools := {}, {};
      new;
      EmptyOk(brkAddr);
    }

    method MoveBreak(pages: nat) returns (addr: nat)
      modifies this`brk, this`obtained
      ensures Model() == Sbrk(old(Model()), pages) && addr == BreakAddr(old(Model()))
    {
      addr := base + 4096 * brk;
      obtained := obtained + Pages(brk, pages);
      brk := brk + pages;
    }

    /** update_mapping. */
    method UpdateMapping(d: Ptr)
      requires d in spans
      modifies this`pageMap
      ensures Model() == PageHeap.UpdateMapping(old(Model()), d)
    {
      var first, len := spans[d].pageId, spans[d].pageSize;
      var i := 0;
      while i < len
        invariant 0 <= i <= len
        invariant pageMap.Keys == old(pageMap.Keys) + Pages(first, i)
        invariant forall p :: p in pageMap ==> pageMap[p] == if first <= p < first + i then d else old(pageMap)[p]
      {
        pageMap := pageMap[first + i := d];
        i := i + 1;
      }
      assert pageMap == PageHeap.UpdateMapping(old(Model()), d).pageMap;
    }

    method StartPool(page: nat) returns (meta: Ptr)
      modifies this`chunk, this`spans, this`pools, this`remBytes, this`currInd
      ensures Model() == PoolStarted(old(Model()), page) && meta == Cursor(Model(), 0) && meta in spans
    {
      chunk := page;
      meta := base + 4096 * chunk;
      spans := spans[meta := ZERO_SPAN.(pageId := page, pageSize := POOL_PAGES)];
      pools := pools + {meta};
      remBytes, currInd := POOL_BYTES - SPAN_BYTES, 1;
    }

    /** A fresh pool of descriptors, the first of which stands for the pool. */
    method GetPool()
      requires base % 4096 == 0
      modifies this
      ensures Model() == NewPool(old(Model()))
    {
      ghost var h := Model();
      BreakIndex(h, POOL_PAGES);
      var addr := MoveBreak(POOL_PAGES);
      var meta := StartPool(addr / 4096 - base / 4096);
      PoolMapped(h, Model(), meta);
      UpdateMapping(meta);
    }

    /** alloc_span; address 0 is NULL, which leaves the page index zero. */
    method AllocSpan(npages: nat, addr: nat) returns (d: Ptr)
      requires base % 4096 == 0 && Filed(Model())
      modifies this
      ensures PageHeap.AllocSpan(old(Model()), npages, StoredIndex(old(Model()), addr)) == (Model(), d)
    {
      if remBytes < SPAN_BYTES {
        GetPool();
      }
      d := base + 4096 * chunk + 64 * currInd;
      var pageId := if addr == 0 then 0 else addr / 4096 - base / 4096;
      spans := spans[d := ZERO_SPAN.(pageSize := npages, pageId := pageId)];
      currInd := currInd + 1;
      remBytes := remBytes - SPAN_BYTES;
    }

    method WriteStart(d: Ptr, addr: nat)
      requires d in spans
      modifies this`spans
      ensures Model() == SetStart(old(Model()), d, addr)
    {
      spans := spans[d := spans[d].(start := addr)];
    }

    /** A block of its own: sbrk, a descriptor, its start, and the page map. */
    method GrabBlock(npage: nat) returns (d: Ptr)
      requires base % 4096 == 0 && Filed(Model())
      modifies this
      ensures PageHeap.GrabBlock(old(Model()), npage) == (Model(), d)
    {
      BreakIndex(Model(), npage);
      var addr := MoveBreak(npage);
      d := AllocSpan(npage, addr);
      WriteStart(d, addr);
      UpdateMapping(d);
    }

    method Push(i: nat, d: Ptr)
      requires i < |rings|
      modifies this`rings
      ensures Model() == PageHeap.Push(old(Model()), i, d)
    {
      rings := rings[i := [d] + rings[i]];
    }

    method RemoveHead(i: nat) returns (d: Ptr)
      requires i < |rings| && rings[i] != []
      modifies this`rings
      ensures Model() == DropHead(old(Model()), i) && d == old(rings[i][0])
    {
      d := rings[i][0];
      rings := rings[i := rings[i][1..]];
    }

    /** fetch_from_system. */
    method FetchFromSystem()
      requires base % 4096 == 0 && Filed(Model())
      modifies this
      ensures Model() == PageHeap.FetchFromSystem(old(Model()))
    {
      var d := GrabBlock(SYS_FETCH_PAGES);
      Push(RingIndex(SYS_FETCH_PAGES), d);
    }

    method WriteSpan(d: Ptr, sp: Span)
      modifies this`spans
      ensures Model() == Tweak(old(Model()), d, sp)
    {
      spans := spans[d := sp];
    }

    /** split_spans. */
    method SplitSpans(t: Ptr, d: Ptr, npage: nat)
      requires |rings| == 256 && t in spans && d in spans && t != d
      requires spans[d].pageSize == npage <= spans[t].pageSize
      modifies this
      ensures Model() == PageHeap.SplitSpans(old(Model()), t, d)
    {
      ghost var h := Model();
      var rest := spans[t].pageSize - npage;
      WriteSpan(t, spans[t].(pageSize := rest));
      ghost var h1 := Model();
      SplitMapped(h, t, d, rest, h1);
      var part := spans[d].(start := spans[t].start + Bytes32(rest));
      WriteSpan(d, part);
      if rest != 0 {
        Push(RingIndex(rest), t);
      }
      var cut := spans[d].(pageId := spans[t].pageId + rest);
      assert cut == CutSpan(h, t, d, rest);
      WriteSpan(d, cut);
      FiledFirst(h1, RingIndex(rest), t, d, part, cut);
      UpdateMapping(d);
    }

    /** The new descriptor of fetch_span, isolated for long requests. */
    method Prepare(npage: nat) returns (d: Ptr)
      requires base % 4096 == 0 && Filed(Model())
      modifies this
      ensures PageHeap.Prepare(old(Model()), npage) == (Model(), d)
    {
      d := AllocSpan(npage, 0);
      if npage > 8 {
        spans := spans[d := spans[d].(loc := Isolated)];
      }
    }

    /** The search for a longer ring. */
    method FindFiled(npage: nat) returns (i: nat)
      requires |rings| == 256 && npage < INT_PAGES
      ensures i == FirstFiled(rings, npage)
    {
      SearchStartExact(npage);
      i := SearchStart(npage);
      while i < 256 && rings[i] == []
        invariant FirstFiled(rings, npage) == FirstFiled(rings, i)
        decreases 256 - i
      {
        i := i + 1;
      }
    }

    /** fetch_span. */
    method FetchSpan(npage: nat) returns (d: Ptr)
      requires Valid() && 1 <= npage < INT_PAGES
      modifies this
      ensures PageHeap.FetchSpan(old(Model()), npage) == (Model(), d)
      ensures Valid() <==> SplitFits(old(Model()), npage)
      decreases if rings[255] == [] then 1 else 0, 1
    {
      FetchSpanExact(Model(), npage);
      var i := RingIndex(npage);
      if rings[i] != [] {
        d := RemoveHead(i);
      } else {
        PreparedOk(Model(), npage);
        d := Prepare(npage);
        d := FetchMiss(npage, d);
      }
    }

    /** fetch_span once the exact ring is empty and `blank` is there for the span to be cut. Where
        the source searches ring 255 for a span that is long enough, that ring is empty. */
    method FetchMiss(npage: nat, blank: Ptr) returns (d: Ptr)
      requires Valid() && 1 <= npage < INT_PAGES && rings[RingIndex(npage)] == []
      requires blank in spans && spans[blank].pageSize == npage
      modifies this
      ensures PageHeap.FetchMiss(old(Model()), npage, blank) == (Model(), d)
      decreases if rings[255] == [] then 1 else 0, 0
    {
      var i := FindFiled(npage);
      if i < 256 {
        FiledHead(Model(), i);
        var t := RemoveHead(i);
        SplitSpans(t, blank, npage);
        return blank;
      }
      assert rings[255] == [];
      if npage > 256 {
        d := GrabBlock(npage);
      } else {
        FetchFromSystemOk(Model());
        FetchFromSystem();
        d := FetchSpan(npage);
      }
    }

    /** return_span_to_pgcache. */
    method ReturnSpan(d: Ptr)
      requires |rings| == 256 && d in spans
      modifies this
      ensures Model() == PageHeap.ReturnSpan(old(Model()), d)
    {
      spans := spans[d := spans[d].(objsSize := 0, objLen := 0, objs := [], loc := InPageHeap)];
      Push(RingIndex(spans[d].pageSize), d);
      UpdateMapping(d);
    }
  }
}
