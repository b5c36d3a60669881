/** What the allocator promises in every reachable state. */
module AllocatorSafety {
  import opened SizeClasses
  import opened Slots
  import opened PageHeap
  import opened Allocator
  import opened AllocatorRuns

  // ----- one place for every slot -------------------------------------------

  /** Each slot of each carved span is in exactly one place: on its span's list, in one thread's
      cache, on its way between the two, or with the program. */
  lemma SlotInOnePlace(s: State, d: Ptr, a: Addr)
    requires Reachable(s) && Central(s.heap, d) && a in SlotsOf(s.heap.spans[d])
    ensures exists p :: At(s, a, p) && (forall q :: At(s, a, q) ==> q == p) && (p.Free? ==> p.span == d)
  {
    ReachableOk(s);
    assert Somewhere(s, a);
    var p :| At(s, a, p);
    PlaceSpan(s, a, p);
    assert SpanOk(s.heap, d);
    SlotMapped(s.heap, d, a);
  }

  // ----- live blocks do not overlap -----------------------------------------

  /** End of the block at `a`: of its slot, or of its span. */
  function BlockEnd(h: Heap, a: Addr): nat
    requires Mapped(h, a) && SpanAt(h, a) in h.spans
  {
    var sp := h.spans[SpanAt(h, a)];
    if sp.objsSize > 0 then a + sp.objsSize else SpanEnd(sp)
  }

  lemma BlockInside(s: State, a: Addr)
    requires Inv(s) && a in s.live
    ensures Mapped(s.heap, a) && Held(s.heap, SpanAt(s.heap, a))
    ensures s.heap.spans[SpanAt(s.heap, a)].start <= a < BlockEnd(s.heap, a) <= SpanEnd(s.heap.spans[SpanAt(s.heap, a)])
    ensures Central(s.heap, SpanAt(s.heap, a)) ==> a in SlotsOf(s.heap.spans[SpanAt(s.heap, a)])
    ensures !Central(s.heap, SpanAt(s.heap, a)) ==> s.heap.spans[SpanAt(s.heap, a)].start == a
  {
    PlaceSpan(s, a, User);
    if Central(s.heap, SpanAt(s.heap, a)) {
      assert SpanOk(s.heap, SpanAt(s.heap, a));
      SlotMapped(s.heap, SpanAt(s.heap, a), a);
    }
  }

  /** Different spans cover different addresses. */
  lemma SpansApart(h: Heap, x: Ptr, y: Ptr)
    requires Owns(h, x) && Owns(h, y) && x != y && StartOk(h, h.spans[x]) && StartOk(h, h.spans[y])
    ensures SpanEnd(h.spans[x]) <= h.spans[y].start || SpanEnd(h.spans[y]) <= h.spans[x].start
  {
    var a, b := h.spans[x], h.spans[y];
    OwnersDisjoint(h, x, y);
    assert InRange(a, a.pageId) && InRange(b, b.pageId);
  }

  /** Two live blocks never overlap, whatever their sizes and whichever threads took them. */
  lemma LiveBlocksApart(s: State, a: Addr, b: Addr)
    requires Reachable(s) && a in s.live && b in s.live && a != b
    ensures Mapped(s.heap, a) && SpanAt(s.heap, a) in s.heap.spans && Mapped(s.heap, b) && SpanAt(s.heap, b) in s.heap.spans
    ensures BlockEnd(s.heap, a) <= b || BlockEnd(s.heap, b) <= a
  {
    ReachableOk(s);
    BlockInside(s, a);
    BlockInside(s, b);
    var x, y := SpanAt(s.heap, a), SpanAt(s.heap, b);
    if x != y {
      SpansApart(s.heap, x, y);
    } else {
      var sp := s.heap.spans[x];
      assert Central(s.heap, x);
      SlotsApart(sp.start, SpanEnd(sp), sp.objsSize, a, b);
    }
  }

  /** The allocator's own descriptors lie outside every live block, and 64 bytes apart. */
  lemma DescriptorsOutside(s: State, d: Ptr, a: Addr)
    requires Reachable(s) && d in s.heap.spans && a in s.live
    ensures Mapped(s.heap, a) && SpanAt(s.heap, a) in s.heap.spans
    ensures d + SPAN_BYTES <= a || BlockEnd(s.heap, a) <= d
  {
    ReachableOk(s);
    BlockInside(s, a);
    assert Housed(s.heap, d);
    var q, k :| Houses(s.heap, q, k, d);
    var x := SpanAt(s.heap, a);
    OwnersDisjoint(s.heap, x, q);
    var m, n := s.heap.spans[q], s.heap.spans[x];
    assert InRange(m, m.pageId) && InRange(n, n.pageId);
    assert m.pageId + m.pageSize <= n.pageId || n.pageId + n.pageSize <= m.pageId;
  }

  lemma DescriptorsApart(s: State, d: Ptr, e: Ptr)
    requires Reachable(s) && d in s.heap.spans && e in s.heap.spans && d < e
    ensures d + SPAN_BYTES <= e
  {
    ReachableOk(s);
    assert Housed(s.heap, d) && Housed(s.heap, e);
    var q, k :| Houses(s.heap, q, k, d);
    var r, j :| Houses(s.heap, r, j, e);
    Grid(s.heap.base, s.heap.spans[q].pageId, k, s.heap.spans[r].pageId, j);
  }

  lemma Grid(base: int, p: int, k: int, q: int, j: int)
    requires base + 4096 * p + 64 * k < base + 4096 * q + 64 * j
    ensures base + 4096 * p + 64 * k + 64 <= base + 4096 * q + 64 * j
  {
  }

  // ----- every page has one owner -------------------------------------------

  /** Every page obtained from the system is mapped to the one span whose range it is in, and
      that span is a descriptor pool, on file, cut into slots, or a live block of pages. */
  lemma PagesCovered(s: State, p: int)
    requires Reachable(s)
    ensures p in s.heap.obtained <==> p in s.heap.pageMap
    ensures p in s.heap.pageMap ==>
              var d := s.heap.pageMap[p];
              && Owns(s.heap, d) && InRange(s.heap.spans[d], p)
              && (forall x :: Owns(s.heap, x) && InRange(s.heap.spans[x], p) ==> x == d)
              && (d in s.heap.pools || StartOk(s.heap, s.heap.spans[d]))
              && |s.heap.rings| == 256
              && (d in s.heap.pools || InRing(s.heap, d) || Central(s.heap, d)
                  || (s.heap.spans[d].start in s.live && s.live[s.heap.spans[d].start] > THRESH_ALLOC))
  {
    ReachableOk(s);
    if p in s.heap.pageMap {
      var d := s.heap.pageMap[p];
      assert Placed(s.heap, p);
      assert d !in s.heap.pools && !InRing(s.heap, d) ==> Held(s.heap, d);
    }
  }

  // ----- small blocks -------------------------------------------------------

  /** A small tc_malloc hands out a block nobody holds: 8-byte aligned, a slot of one carved
      span, of the smallest class that holds the request, and it is the program's from then on. */
  lemma SmallMalloc(s: State, t: Tid, size: nat)
    requires Reachable(s) && Enabled(s, PopStep(t, size))
    ensures Inv(s)
    ensures var r := PopResult(s, t, size); var s' := Apply(s, PopStep(t, size));
            && r !in s.live && s'.live == s.live[r := size]
            && r % 8 == 0 && Mapped(s.heap, r) && Central(s.heap, SpanAt(s.heap, r)) && r in SlotsOf(s.heap.spans[SpanAt(s.heap, r)])
            && s.heap.spans[SpanAt(s.heap, r)].objsSize == IndexToSize(GetIndex(size)) >= size
            && (forall j: nat :: j < GetIndex(size) ==> IndexToSize(j) < size)
  {
    ReachableOk(s);
    var c := GetIndex(size);
    var r := PopResult(s, t, size);
    assert At(s, r, Cached(t, c));
    PlaceSpan(s, r, Cached(t, c));
    assert !At(s, r, User);
    SmallestClass(size);
    var sp := s.heap.spans[SpanAt(s.heap, r)];
    assert SpanOk(s.heap, SpanAt(s.heap, r));
    SlotAligned(s.heap, SpanAt(s.heap, r), r);
  }

  lemma SlotAligned(h: Heap, d: Ptr, a: Addr)
    requires h.base % 4096 == 0 && SpanOk(h, d) && a in SlotsOf(h.spans[d])
    ensures a % 8 == 0
  {
    var sp := h.spans[d];
    ClassRoundTrip(GetIndex(sp.objsSize));
    assert sp.start % 8 == 0 by {
      assert sp.start == 8 * (512 * (h.base / 4096) + 512 * sp.pageId);
    }
    CarveAligned(sp.start, SpanEnd(sp), sp.objsSize);
  }

  /** From the address alone tc_free finds out whether a live block is a slot, and of which
      class: the one it was handed out for. A block of pages reads slot size 0. */
  lemma FreeRecovers(s: State, a: Addr)
    requires Reachable(s) && a in s.live
    ensures Mapped(s.heap, a) && SpanAt(s.heap, a) in s.heap.spans
    ensures FreesSmall(s.heap, a) <==> s.live[a] <= THRESH_ALLOC
    ensures s.live[a] <= THRESH_ALLOC ==> FreedClass(s.heap, a) == GetIndex(s.live[a])
    ensures s.live[a] > THRESH_ALLOC ==> s.heap.spans[SpanAt(s.heap, a)].objsSize == 0 && s.heap.spans[SpanAt(s.heap, a)].start == a
  {
    ReachableOk(s);
    PlaceSpan(s, a, User);
    LiveSmall(s, a);
  }

  // ----- the central cache --------------------------------------------------

  /** In every carved span free and lent slots add up to all that fit, and the length counter
      is never below that; a span whose counters agree has no free slot. */
  lemma SlotAccounts(s: State, d: Ptr)
    requires Reachable(s) && Central(s.heap, d)
    ensures var sp := s.heap.spans[d];
            && |sp.objs| + sp.refcount == (SpanEnd(sp) - sp.start) / sp.objsSize <= sp.objLen
            && (sp.refcount == sp.objLen ==> sp.objs == [])
  {
    ReachableOk(s);
    var sp := s.heap.spans[d];
    assert SpanOk(s.heap, d);
    CarveCount(sp.start, SpanEnd(sp), sp.objsSize);
  }

  /** No span of the list has a free slot. */
  ghost predicate Exhausted(s: State, c: nat)
    requires c < |s.classes|
  {
    forall x :: x in s.classes[c].list ==> x in s.heap.spans && s.heap.spans[x].objs == []
  }

  /** The span that slots of a class are taken from: the first on its list that has any, or, if none
      has, a new one of 524,288 bytes, with all its slots free, put first on the list. */
  lemma SpanChosen(s: State, c: nat) returns (g: State, d: Ptr)
    requires Reachable(s) && c < CLASSES
    ensures CentralReady(s, c) && GetSpanCentral(s, c) == (g, d) && c < |g.classes| && d in g.heap.spans
    ensures !Exhausted(s, c) ==>
              && g == s && s.heap.spans[d].objs != []
              && exists k :: 0 <= k < |s.classes[c].list| && s.classes[c].list[k] == d && Exhausted(Upto(s, c, k), c)
    ensures Exhausted(s, c) ==>
              && g.classes == s.classes[c := s.classes[c].(list := [d] + s.classes[c].list)]
              && !Central(s.heap, d) && |g.heap.spans[d].objs| == 524288 / IndexToSize(c) && g.heap.spans[d].refcount == 0
  {
    ReachableOk(s);
    ClassesReady(s, c);
    BatchLimited(s, c);
    g, d := GetSpanCentral(s, c).0, GetSpanCentral(s, c).1;
    var list := s.classes[c].list;
    var k := FirstWithSlots(s.heap.spans, list);
    if k < |list| {
      assert list[k] in list && !Exhausted(s, c) && Exhausted(Upto(s, c, k), c);
    } else {
      var h, e := FetchSpanOk(s.heap, BATCH);
      BatchNew(s, h, e, c);
    }
  }

  /** The class with only the first `k` spans of its list. */
  function Upto(s: State, c: nat, k: nat): State
    requires c < |s.classes| && k <= |s.classes[c].list|
  {
    s.(classes := s.classes[c := s.classes[c].(list := s.classes[c].list[..k])])
  }

  lemma BatchNew(s: State, h: Heap, d: Ptr, c: nat)
    requires Inv(s) && Keeps(s.heap, h, {d}) && Held(h, d) && Clean(h.spans[d]) && h.spans[d].pageSize == BATCH && c < CLASSES
    ensures !Central(s.heap, d) && c < |s.classes|
    ensures |AddBatch(s, h, d, c).heap.spans[d].objs| == 524288 / IndexToSize(c) && AddBatch(s, h, d, c).heap.spans[d].refcount == 0
  {
    assert Central(s.heap, d) ==> SpanOk(s.heap, d);
    CarveCount(h.spans[d].start, SpanEnd(h.spans[d]), IndexToSize(c));
  }

  /** A fetch detaches the front of one span's list, as many slots as the thread's limit, of at
      most 32, and the list allow, and at least one; and it raises the limit, unless it is 32 already:
      twofold in classes up to 22, by one in the others. */
  lemma FetchTakes(s: State, t: Tid, c: nat)
    requires Reachable(s) && Enabled(s, FetchStep(t, c))
    ensures Inv(s) && CentralReady(s, c)
    ensures var r := GetSpanCentral(s, c); var l := s.threads[t].lists[c]; var s' := Apply(s, FetchStep(t, c));
            && r.1 in r.0.heap.spans && t in s'.threads && |s'.threads[t].lists| == CLASSES
            && var objs := r.0.heap.spans[r.1].objs; var n := Min(Min(l.maxLength, 32), |objs|);
               && 1 <= n <= MAX_FETCH && s'.threads[t].moving == Fetched(c, objs[..n])
               && s'.heap.spans[r.1].objs == objs[n..]
               && s'.threads[t].lists[c].maxLength ==
                    if l.maxLength == 32 then 32 else if c <= 22 then 2 * l.maxLength else l.maxLength + 1
  {
    ReachableOk(s);
    ClassesReady(s, c);
    BatchLimited(s, c);
    var s1, d := GetSpanCentralOk(s, c);
    ListedOk(s1, c, d);
    var th := s.threads[t];
    assert ThreadOk(s.heap, th) && ListOk(s.heap, th.lists[c], c);
    LimitOk(c, th.lists[c].maxLength);
    FetchCountExact(s1.heap.spans[d], FetchLimit(th.lists[c].maxLength));
  }

  /** When a flush is settled, no other span than that of its last slot leaves the central
      cache, and that one only with no slot lent. */
  lemma SettleReleases(s: State, c: nat, d: Ptr, x: Ptr, a: Addr, p: Place)
    requires Inv(s) && c < CLASSES && Central(s.heap, d) && GetIndex(s.heap.spans[d].objsSize) == c
    requires Central(s.heap, x) && a in SlotsOf(s.heap.spans[x]) && !Central(Settle(s, c, d).heap, x)
    ensures x == d && s.heap.spans[d].refcount == 0
    ensures At(s, a, p) ==> p == Free(d)
    ensures !At(Settle(s, c, d), a, p)
  {
    if s.heap.spans[d].refcount == 0 {
      ReleaseHeap(s, d);
      AllHome(s, d);
      ReleaseGone(s, Settle(s, c, d), d);
    }
  }

  /** The return loop moves only the slots the thread is returning. */
  lemma {:induction false} ReturnAllPlaces(s: State, t: Tid, a: Addr, p: Place)
    requires Inv(s) && t in s.threads && s.threads[t].moving.Flushing? && At(s, a, p) && p != OnTheWay(t)
    ensures At(ReturnAll(s, t), a, p)
    decreases |s.threads[t].moving.chain|
  {
    if s.threads[t].moving.chain != [] {
      ReturnOneOk(s, t);
      assert At(ReturnOne(s, t), a, p) by {
        assert ThreadOk(s.heap, s.threads[t]);
        ReturnMoves(s, t);
        assert At(s, s.threads[t].moving.chain[0], OnTheWay(t));
      }
      ReturnAllPlaces(ReturnOne(s, t), t, a, p);
    }
  }

  /** After the loop all slots of a span that is then released are home. */
  lemma LoopReleases(s: State, t: Tid, d: Ptr, a: Addr, p: Place)
    requires Inv(s) && Enabled(s, FlushStep(t)) && Central(s.heap, d) && !Central(Flush(s, t).heap, d)
    requires a in SlotsOf(s.heap.spans[d])
    ensures At(ReturnAll(s, t), a, p) ==> p == Free(d)
    ensures !At(Flush(s, t), a, p)
  {
    var r, c, x := LoopDone(s, t);
    SlotStays(s.heap.spans[d], r.heap.spans[d], a);
    SettledGone(r, t, c, x, d, a, p);
  }

  lemma SlotStays(sp: Span, sp': Span, a: Addr)
    requires sp.objsSize > 0 && SameShape(sp, sp') && a in SlotsOf(sp)
    ensures sp'.objsSize > 0 && a in SlotsOf(sp')
  {
  }

  lemma LoopDone(s: State, t: Tid) returns (r: State, c: nat, x: Ptr)
    requires Inv(s) && Enabled(s, FlushStep(t))
    ensures r == ReturnAll(s, t) && Inv(r) && c < CLASSES && Central(r.heap, x) && GetIndex(r.heap.spans[x].objsSize) == c && t in r.threads
    ensures Flush(s, t) == Done(Settle(r, c, x), t)
    ensures forall d :: Central(s.heap, d) ==> Central(r.heap, d) && SameShape(s.heap.spans[d], r.heap.spans[d])
  {
    LastSpan(s, t);
    ReturnAllOk(s, t);
    r, c, x := ReturnAll(s, t), s.threads[t].moving.class_, SpanAt(s.heap, Last(s.threads[t].moving.chain));
  }

  lemma SettledGone(r: State, t: Tid, c: nat, x: Ptr, d: Ptr, a: Addr, p: Place)
    requires Inv(r) && c < CLASSES && Central(r.heap, x) && GetIndex(r.heap.spans[x].objsSize) == c && t in r.threads
    requires Central(r.heap, d) && a in SlotsOf(r.heap.spans[d]) && !Central(Done(Settle(r, c, x), t).heap, d)
    ensures At(r, a, p) ==> p == Free(d)
    ensures !At(Done(Settle(r, c, x), t), a, p)
  {
    SettleReleases(r, c, x, d, a, p);
  }

  lemma FlushReleases(s: State, t: Tid, d: Ptr, a: Addr, p: Place)
    requires Inv(s) && Enabled(s, FlushStep(t)) && Central(s.heap, d) && !Central(Flush(s, t).heap, d)
    requires a in SlotsOf(s.heap.spans[d])
    ensures At(s, a, p) ==> p == Free(d) || p == OnTheWay(t)
    ensures !At(Flush(s, t), a, p)
  {
    LastSpan(s, t);
    LoopReleases(s, t, d, a, p);
    if At(s, a, p) && p != OnTheWay(t) {
      ReturnAllPlaces(s, t, a, p);
    }
  }

  lemma FetchKeepsCentral(s: State, c: nat, d: Ptr)
    requires Inv(s) && c < CLASSES && Central(s.heap, d) && (ClassesReady(s, c); BatchFits(s, c))
    ensures Central(GetSpanCentral(s, c).0.heap, d)
  {
    ClassesReady(s, c);
    if FirstWithSlots(s.heap.spans, s.classes[c].list) == |s.classes[c].list| {
      var h, x := FetchSpanOk(s.heap, BATCH);
      FetchCarries(s, h, x);
      ClassRoundTrip(c);
    }
  }

  lemma LargeKeepsCentral(s: State, size: nat, d: Ptr)
    requires Inv(s) && THRESH_ALLOC < size < INT_BYTES && SplitFits(s.heap, size / 4096) && Central(s.heap, d)
    ensures Central(MallocLarge(s, size).heap, d)
  {
    var h, x := FetchSpanOk(s.heap, size / 4096);
  }

  lemma ChainKeepsCentral(s: State, t: Tid, c: nat, d: Ptr)
    requires Inv(s) && c < CLASSES && Idle(s, t) && Central(s.heap, d) && (ClassesReady(s, c); BatchFits(s, c))
    ensures CentralReady(s, c) && Central(Fetch(s, t, c).heap, d)
  {
    ClassesReady(s, c);
    FetchKeepsCentral(s, c, d);
  }

  /** Only a flush takes a span out of the central cache. */
  lemma OthersKeepCentral(s: State, act: Action, d: Ptr)
    requires Inv(s) && Enabled(s, act) && Fits(s, act) && Central(s.heap, d) && !act.FlushStep?
    ensures Central(Apply(s, act).heap, d)
  {
    match act
    case CarveAhead(c) => FetchKeepsCentral(s, c, d);
    case FetchStep(t, c) => ChainKeepsCentral(s, t, c, d);
    case LargeMallocStep(t, size) => LargeKeepsCentral(s, size, d);
    case LargeFreeStep(t, a) => LiveLarge(s, a);
    case _ =>
  }

  /** In every run a span goes back to the page heap only in a flush, when none of its slots is
      with the program or in any cache but on its own list or among those being returned; and
      afterwards none of them is anywhere. */
  lemma ReleasedWhenHome(s: State, act: Action, d: Ptr, a: Addr, p: Place)
    requires Reachable(s) && Enabled(s, act) && Central(s.heap, d) && a in SlotsOf(s.heap.spans[d])
    requires (ReachableOk(s); !Central(Apply(s, act).heap, d))
    ensures act.FlushStep?
    ensures At(s, a, p) ==> p == Free(d) || p == OnTheWay(act.t)
    ensures !At(Apply(s, act), a, p)
  {
    ReachableOk(s);
    StepLimited(s, act);
    if act.FlushStep? {
      FlushReleases(s, act.t, d, a, p);
    } else {
      OthersKeepCentral(s, act, d);
    }
  }

  // ----- reading without a lock ---------------------------------------------

  /** A page of a span that keeps its pages stays mapped to it. */
  lemma PageStays(h: Heap, h': Heap, a: Addr)
    requires MapOk(h) && Mapped(h, a) && h'.base == h.base && Owns(h', SpanAt(h, a)) && SpanAt(h, a) in h.spans
    requires h'.spans[SpanAt(h, a)] == h.spans[SpanAt(h, a)]
    ensures Mapped(h', a) && SpanAt(h', a) == SpanAt(h, a)
  {
    assert Placed(h, PageIndex(h, a));
    assert InRange(h'.spans[SpanAt(h, a)], PageIndex(h, a));
  }

  lemma FetchMapStays(s: State, npage: nat, a: Addr) returns (h: Heap, d: Ptr)
    requires Inv(s) && 1 <= npage < INT_PAGES && SplitFits(s.heap, npage) && a in s.live
    ensures FetchSpan(s.heap, npage) == (h, d)
    ensures Mapped(s.heap, a) && Mapped(h, a) && SpanAt(h, a) == SpanAt(s.heap, a)
  {
    PlaceSpan(s, a, User);
    h, d := FetchSpanOk(s.heap, npage);
    assert Held(h, SpanAt(s.heap, a));
    PageStays(s.heap, h, a);
  }

  /** Same page map, base address and live blocks. */
  predicate SameView(s: State, s': State) {
    s'.heap.pageMap == s.heap.pageMap && s'.heap.base == s.heap.base && s'.live == s.live
  }

  /** Carving changes no mapping beyond what the page heap does for the batch. */
  lemma BatchView(s: State, c: nat)
    requires CentralReady(s, c)
    ensures var s' := GetSpanCentral(s, c).0;
      if FirstWithSlots(s.heap.spans, s.classes[c].list) < |s.classes[c].list| then SameView(s, s')
      else SameView(s.(heap := FetchSpan(s.heap, BATCH).0), s')
  {
  }

  lemma ChainView(s: State, t: Tid, c: nat)
    requires CentralReady(s, c) && Idle(s, t)
    ensures SameView(GetSpanCentral(s, c).0, Fetch(s, t, c))
  {
  }

  /** The block `a` of `s` is live in `s'` at most as the same block, in the same span. */
  ghost predicate Steady(s: State, s': State, a: Addr) {
    && Mapped(s.heap, a) && Mapped(s'.heap, a) && SpanAt(s'.heap, a) == SpanAt(s.heap, a)
    && (a in s.live && a in s'.live ==> s'.live[a] == s.live[a])
  }

  lemma SteadySame(s: State, s1: State, s': State, a: Addr)
    requires Steady(s, s1, a) && SameView(s1, s')
    ensures Steady(s, s', a)
  {
  }

  lemma BatchSteady(s: State, c: nat, a: Addr)
    requires Inv(s) && c < CLASSES && (ClassesReady(s, c); BatchFits(s, c)) && a in s.live
    ensures CentralReady(s, c) && Steady(s, GetSpanCentral(s, c).0, a)
  {
    ClassesReady(s, c);
    BatchView(s, c);
    PlaceSpan(s, a, User);
    if FirstWithSlots(s.heap.spans, s.classes[c].list) < |s.classes[c].list| {
      SteadySame(s, s, GetSpanCentral(s, c).0, a);
    } else {
      var h, d := FetchMapStays(s, BATCH, a);
      SteadySame(s, s.(heap := h), GetSpanCentral(s, c).0, a);
    }
  }

  lemma ChainSteady(s: State, t: Tid, c: nat, a: Addr)
    requires Inv(s) && c < CLASSES && (ClassesReady(s, c); BatchFits(s, c)) && a in s.live && Idle(s, t)
    ensures CentralReady(s, c) && Steady(s, Fetch(s, t, c), a)
  {
    BatchSteady(s, c, a);
    ChainView(s, t, c);
    SteadySame(s, GetSpanCentral(s, c).0, Fetch(s, t, c), a);
  }

  lemma {:induction false} ReturnMapStays(s: State, t: Tid)
    requires Inv(s) && t in s.threads && s.threads[t].moving.Flushing?
    ensures SameView(s, ReturnAll(s, t))
    decreases |s.threads[t].moving.chain|
  {
    if s.threads[t].moving.chain != [] {
      ReturnOneOk(s, t);
      ReturnMapStays(ReturnOne(s, t), t);
    }
  }

  lemma FlushMapStays(s: State, t: Tid)
    requires Inv(s) && Enabled(s, FlushStep(t))
    ensures SameView(s, Flush(s, t))
  {
    LastSpan(s, t);
    ReturnMapStays(s, t);
    var r := ReturnAll(s, t);
    var d := SpanAt(s.heap, Last(s.threads[t].moving.chain));
    assert SpanOk(r.heap, d);
    ReturnSpanMap(r.heap, d);
  }

  lemma LargeSteady(s: State, size: nat, a: Addr)
    requires Inv(s) && THRESH_ALLOC < size < INT_BYTES && SplitFits(s.heap, size / 4096) && a in s.live
    ensures Steady(s, MallocLarge(s, size), a)
  {
    var h, d := FetchMapStays(s, size / 4096, a);
    LargeUnheld(s, size);
  }

  lemma FreeLargeView(s: State, b: Addr)
    requires HeapInv(s.heap) && Mapped(s.heap, b) && Owns(s.heap, SpanAt(s.heap, b))
    ensures SameView(s.(live := s.live - {b}), FreeLarge(s, b))
  {
    ReturnSpanMap(s.heap, SpanAt(s.heap, b));
  }

  lemma FreeLargeSteady(s: State, b: Addr, a: Addr)
    requires Inv(s) && a in s.live && b in s.live
    ensures Mapped(s.heap, b) && SpanAt(s.heap, b) in s.heap.spans && Steady(s, FreeLarge(s, b), a)
  {
    PlaceSpan(s, a, User);
    PlaceSpan(s, b, User);
    FreeLargeView(s, b);
    SteadySame(s, s.(live := s.live - {b}), FreeLarge(s, b), a);
  }

  lemma PopSteady(s: State, t: Tid, size: nat, a: Addr)
    requires Inv(s) && Enabled(s, PopStep(t, size)) && a in s.live
    ensures s.threads[t].lists[GetIndex(size)].objLen > 0 && Steady(s, Pop(s, t, size), a)
  {
    PlaceSpan(s, a, User);
    PopOk(s, t, size);
    assert At(s, PopResult(s, t, size), Cached(t, GetIndex(size))) && At(s, a, User);
  }

  lemma StepSteady(s: State, act: Action, a: Addr)
    requires Inv(s) && Enabled(s, act) && Fits(s, act) && a in s.live
    ensures Steady(s, Apply(s, act), a)
  {
    match act
    case CarveAhead(c) => BatchSteady(s, c, a);
    case FetchStep(t, c) => ChainSteady(s, t, c, a);
    case FlushStep(t) => FlushSteady(s, t, a);
    case PopStep(t, size) => PopSteady(s, t, size, a);
    case LargeMallocStep(t, size) => LargeSteady(s, size, a);
    case LargeFreeStep(t, b) => FreeLargeSteady(s, b, a);
    case _ => LocalSteady(s, act, a);
  }

  lemma FlushSteady(s: State, t: Tid, a: Addr)
    requires Inv(s) && Enabled(s, FlushStep(t)) && a in s.live
    ensures Steady(s, Flush(s, t), a)
  {
    PlaceSpan(s, a, User);
    FlushMapStays(s, t);
    SteadySame(s, s, Flush(s, t), a);
  }

  lemma LocalSteady(s: State, act: Action, a: Addr)
    requires Inv(s) && Enabled(s, act) && a in s.live
    requires act.StartThread? || act.InsertStep? || act.FreeStep? || act.ForeignBreak?
    ensures Steady(s, Apply(s, act), a)
  {
    PlaceSpan(s, a, User);
    if act.FreeStep? {
      LiveSmall(s, act.a);
    }
  }

  /** What tc_free reads without a lock does not change under it: while a block is live, no step of
      any thread changes the span its page is mapped to or the slot size of that span. */
  lemma ReadsStable(s: State, act: Action, a: Addr)
    requires Reachable(s) && Enabled(s, act) && a in s.live
    ensures Inv(s)
    ensures var s' := Apply(s, act);
      && Mapped(s.heap, a) && Mapped(s'.heap, a) && SpanAt(s'.heap, a) == SpanAt(s.heap, a)
      && (a in s'.live ==>
            && SpanAt(s.heap, a) in s.heap.spans && SpanAt(s.heap, a) in s'.heap.spans
            && s'.heap.spans[SpanAt(s.heap, a)].objsSize == s.heap.spans[SpanAt(s.heap, a)].objsSize)
  {
    ReachableOk(s);
    StepLimited(s, act);
    StepOk(s, act);
    StepSteady(s, act, a);
    SizeRead(s, a);
    var s' := Apply(s, act);
    if a in s'.live {
      SizeRead(s', a);
    }
  }

  /** The slot size read for a live block depends on the size it was handed out for alone. */
  predicate ReadsSize(s: State, a: Addr)
    requires a in s.live
  {
    && Mapped(s.heap, a) && SpanAt(s.heap, a) in s.heap.spans
    && (s.live[a] <= THRESH_ALLOC ==> IsClass(GetIndex(s.live[a])))
    && s.heap.spans[SpanAt(s.heap, a)].objsSize == if s.live[a] <= THRESH_ALLOC then IndexToSize(GetIndex(s.live[a])) else 0
  }

  lemma SizeRead(s: State, a: Addr)
    requires Inv(s) && a in s.live
    ensures ReadsSize(s, a)
  {
    PlaceSpan(s, a, User);
    LiveSmall(s, a);
    assert LiveAt(s.heap, a, s.live[a]);
    if s.live[a] <= THRESH_ALLOC {
      assert SpanOk(s.heap, SpanAt(s.heap, a));
    }
  }

  lemma LargeUnheld(s: State, size: nat)
    requires Inv(s) && THRESH_ALLOC < size < INT_BYTES && SplitFits(s.heap, size / 4096)
    ensures LargeResult(s, size) !in s.live
  {
    var h, d := FetchSpanOk(s.heap, size / 4096);
    StartMapped(h, d);
    FetchCarriesOut(s, h, d);
    assert !At(s, h.spans[d].start, User);
  }

  // ----- thread caches ------------------------------------------------------

  /** Bytes a thread has cached in classes below `n`. */
  function CachedBytes(th: Thread, n: nat): nat
    requires n <= |th.lists|
  {
    if n == 0 then 0 else CachedBytes(th, n - 1) + |th.lists[n - 1].objs| * IndexToSize(n - 1)
  }

  lemma {:induction false} CachedBound(h: Heap, th: Thread, n: nat)
    requires ThreadOk(h, th) && n <= CLASSES
    ensures CachedBytes(th, n) <= MAX_FETCH * SumOfSizes(n)
  {
    if n > 0 {
      CachedBound(h, th, n - 1);
      assert ListOk(h, th.lists[n - 1], n - 1);
      MulBound(|th.lists[n - 1].objs|, 32, IndexToSize(n - 1));
    }
  }

  lemma MulBound(a: nat, b: nat, z: nat)
    requires a <= b
    ensures a * z <= b * z
  {
  }

  /** In every thread's cache the length field is the length of the list, at most the limit,
      which is between 1 and 32; so the test for a full cache is never stepped over, and no
      thread keeps more than 68,426,752 bytes to itself. */
  lemma CacheBounded(s: State, t: Tid, c: nat)
    requires Reachable(s) && t in s.threads && c < CLASSES
    ensures |s.threads[t].lists| == CLASSES
    ensures var l := s.threads[t].lists[c]; l.objLen == |l.objs| <= l.maxLength && 1 <= l.maxLength <= MAX_FETCH
    ensures CachedBytes(s.threads[t], CLASSES) <= 68426752
  {
    ReachableOk(s);
    assert ThreadOk(s.heap, s.threads[t]) && ListOk(s.heap, s.threads[t].lists[c], c);
    CachedBound(s.heap, s.threads[t], CLASSES);
    TotalOfSizes();
  }

  // ----- blocks of pages ----------------------------------------------------

  /** Whether the block for a large request will hold it, from what is on file: requests are
      rounded down to pages, and from 256 pages on the first long span is taken as it is. */
  predicate LargeFits(h: Heap, size: nat)
    requires RingsOk(h)
  {
    var n := size / 4096;
    if n >= 256 && h.rings[255] != [] then FiledHead(h, 255); 4096 * h.spans[h.rings[255][0]].pageSize >= size
    else n == 256 || size % 4096 == 0
  }

  lemma FitsExactly(h: Heap, size: nat)
    requires RingsOk(h)
    ensures 4096 * FetchedPages(h, size / 4096) >= size <==> LargeFits(h, size)
  {
  }

  /** A large tc_malloc returns the start of a span that was in use nowhere; the block holds the
      request exactly when `LargeFits`. */
  lemma LargeMalloc(s: State, t: Tid, size: nat)
    requires Reachable(s) && Enabled(s, LargeMallocStep(t, size))
    ensures Inv(s)
    ensures var s' := Apply(s, LargeMallocStep(t, size)); var r := LargeResult(s, size);
            && r !in s.live && s'.live == s.live[r := size] && Mapped(s'.heap, r) && SpanAt(s'.heap, r) in s'.heap.spans
            && BlockEnd(s'.heap, r) - r == 4096 * FetchedPages(s.heap, size / 4096)
            && (BlockEnd(s'.heap, r) - r >= size <==> LargeFits(s.heap, size))
  {
    ReachableOk(s);
    LimitedFits(s.heap, size / 4096);
    var h, d := FetchSpanOk(s.heap, size / 4096);
    StartMapped(h, d);
    assert !At(s, h.spans[d].start, User) by {
      FetchCarriesOut(s, h, d);
    }
    FitsExactly(s.heap, size);
  }

  /** The page map leads from the start of a span in use to the span. */
  lemma StartMapped(h: Heap, d: Ptr)
    requires h.base % 4096 == 0 && Held(h, d)
    ensures Mapped(h, h.spans[d].start) && SpanAt(h, h.spans[d].start) == d
  {
    PageOfOffset(h.base, h.spans[d].pageId, h.spans[d].pageSize, h.spans[d].start);
    assert InRange(h.spans[d], PageIndex(h, h.spans[d].start));
  }

  /** A request of 40,000 bytes gets 9 pages, 36,864 bytes, in any state. */
  lemma LargeMallocShort(s: State, t: Tid)
    requires Reachable(s) && Enabled(s, LargeMallocStep(t, 40000))
    ensures Inv(s)
    ensures var s' := Apply(s, LargeMallocStep(t, 40000)); var r := LargeResult(s, 40000);
            Mapped(s'.heap, r) && SpanAt(s'.heap, r) in s'.heap.spans && BlockEnd(s'.heap, r) - r == 36864
  {
    LargeMalloc(s, t, 40000);
  }
}
