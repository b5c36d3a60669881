/** A fetch that needs a new span gives the page-heap lock up before it cuts the span, still under
    the lock of the central cache. What other threads do in between, on the page heap or on their
    own caches, comes to the same as if they did it right after the whole fetch. */
module FetchInterleaving {
  import opened Sequences
  import opened SizeClasses
  import opened PageHeap
  import opened PageHeapFrames
  import opened Allocator
  import opened AllocatorRuns
  import opened AllocatorSafety
  import opened Runs

  /** How many slots the fetch will take off the span just cut. */
  function TakenFrom(th: Thread, c: nat, cut: Span): nat
    requires c < |th.lists|
  {
    FetchCount(cut, FetchLimit(th.lists[c].maxLength))
  }

  /** The span `d` as the fetch leaves it. */
  function CutAndLent(sp: Span, th: Thread, c: nat): Span
    requires c < CLASSES && c < |th.lists|
  {
    ClassRoundTrip(c);
    var cut := Carved(sp, IndexToSize(c));
    Shrunk(cut, TakenFrom(th, c, cut))
  }

  /** The slots the fetch takes. */
  function ChainOf(sp: Span, th: Thread, c: nat): seq<Addr>
    requires c < CLASSES && c < |th.lists|
  {
    ClassRoundTrip(c);
    var cut := Carved(sp, IndexToSize(c));
    cut.objs[..TakenFrom(th, c, cut)]
  }

  /** The class's lists as the fetch leaves them. */
  function FiledAs(cl: ClassRings, d: Ptr, sp: Span): ClassRings {
    if sp.refcount == sp.objLen then ClassRings(Without([d] + cl.list, d), [d] + cl.idle, cl.lost)
    else cl.(list := [d] + cl.list)
  }

  predicate CanFinish(m: State, t: Tid, c: nat, d: Ptr) {
    c < CLASSES && c < |m.classes| && d in m.heap.spans && Idle(m, t)
  }

  /** The rest of the fetch of thread `t` for class `c`, when it has got the span `d`. */
  function Finish(m: State, t: Tid, c: nat, d: Ptr): State
    requires CanFinish(m, t, c, d)
  {
    var th := m.threads[t];
    var sp := CutAndLent(m.heap.spans[d], th, c);
    SetThread(m, t, WithChain(th, c, ChainOf(m.heap.spans[d], th, c)))
      .(heap := Tweak(m.heap, d, sp), classes := m.classes[c := FiledAs(m.classes[c], d, sp)])
  }

  lemma FinishShrinks(s: State, h: Heap, d: Ptr, t: Tid, c: nat)
    requires c < CLASSES && c < |s.classes| && d in h.spans && Idle(s, t)
    ensures var g := AddBatch(s, h, d, c); var n := TakenFrom(s.threads[t], c, g.heap.spans[d]);
      Finish(s.(heap := h), t, c, d) == SetThread(Shrink(g, c, d, n), t, WithChain(s.threads[t], c, g.heap.spans[d].objs[..n]))
  {
    ClassRoundTrip(c);
    var g := AddBatch(s, h, d, c);
    var sp := CutAndLent(h.spans[d], s.threads[t], c);
    assert g.heap.spans[d := sp] == h.spans[d := sp];
  }

  /** Fetching pages and then finishing is the fetch. */
  lemma FetchInTwo(s: State, t: Tid, c: nat)
    requires CentralReady(s, c) && Idle(s, t) && FirstWithSlots(s.heap.spans, s.classes[c].list) == |s.classes[c].list|
    ensures var r := FetchSpan(s.heap, BATCH); Finish(s.(heap := r.0), t, c, r.1) == Fetch(s, t, c)
  {
    var r := FetchSpan(s.heap, BATCH);
    FinishShrinks(s, r.0, r.1, t, c);
  }

  // ----- meanwhile ----------------------------------------------------------

  /** A step that needs no lock of the central cache, of another thread than `t`. */
  predicate Other(act: Action, t: Tid) {
    match act
    case StartThread(u) => u != t
    case InsertStep(u) => u != t
    case PopStep(u, size) => u != t
    case FreeStep(u, a) => u != t
    case LargeMallocStep(u, size) => u != t
    case LargeFreeStep(u, a) => u != t
    case ForeignBreak(pages) => true
    case _ => false
  }

  /** Such a step in the middle of the fetch. */
  function Meanwhile(m: State, act: Action): State
    requires Could(m, act)
  {
    match act
    case StartThread(u) => SetThread(m, u, FreshThread())
    case InsertStep(u) => Insert(m, u)
    case PopStep(u, size) => Pop(m, u, size)
    case FreeStep(u, a) => FreeSlot(m, u, a)
    case LargeMallocStep(u, size) => MallocLarge(m, size)
    case LargeFreeStep(u, a) => FreeLarge(m, a)
    case ForeignBreak(pages) => m.(heap := PassOver(m.heap, pages))
  }

  ghost predicate Could(m: State, act: Action) {
    match act
    case StartThread(u) => true
    case InsertStep(u) => u in m.threads && m.threads[u].moving.Fetched? && m.threads[u].moving.class_ < |m.threads[u].lists|
    case PopStep(u, size) =>
      && Idle(m, u) && 0 <= GetIndex(size) < CLASSES && m.threads[u].lists[GetIndex(size)].objs != []
      && m.threads[u].lists[GetIndex(size)].objLen > 0
    case FreeStep(u, a) => Idle(m, u) && FreesSmall(m.heap, a) && 0 <= FreedClass(m.heap, a) < CLASSES
    case LargeMallocStep(u, size) => HeapInv(m.heap) && THRESH_ALLOC < size < INT_BYTES
    case LargeFreeStep(u, a) => |m.heap.rings| == 256 && Mapped(m.heap, a) && SpanAt(m.heap, a) in m.heap.spans
    case ForeignBreak(pages) => true
    case _ => false
  }

  /** Thread `t` has the span `d` for class `c`, and finishing will lead to a good state. */
  ghost predicate Waiting(m: State, t: Tid, c: nat, d: Ptr) {
    && c < CLASSES && c < |m.classes| && Idle(m, t)
    && HeapInv(m.heap) && Held(m.heap, d) && Clean(m.heap.spans[d]) && m.heap.spans[d].pageSize == BATCH
    && Good(Finish(m, t, c, d))
  }

  lemma FinishRun(m: State, t: Tid, c: nat, d: Ptr)
    requires CanFinish(m, t, c, d)
    ensures SameRun(m.heap, d, CutAndLent(m.heap.spans[d], m.threads[t], c))
    ensures Finish(m, t, c, d).heap == Tweak(m.heap, d, CutAndLent(m.heap.spans[d], m.threads[t], c))
    ensures Finish(m, t, c, d).live == m.live && t in Finish(m, t, c, d).threads
    ensures forall u :: u != t ==> (u in Finish(m, t, c, d).threads <==> u in m.threads)
    ensures forall u :: u != t && u in m.threads ==> Finish(m, t, c, d).threads[u] == m.threads[u]
  {
  }

  /** Every slot of `d` is, when the fetch is finished, on its list or on the way to `t`. */
  lemma AllOut(m: State, t: Tid, c: nat, d: Ptr, a: Addr)
    requires CanFinish(m, t, c, d) && Clean(m.heap.spans[d])
    requires (ClassRoundTrip(c); a in SlotsOf(CutAndLent(m.heap.spans[d], m.threads[t], c)))
    ensures At(Finish(m, t, c, d), a, Free(d)) || At(Finish(m, t, c, d), a, OnTheWay(t))
  {
    ClassRoundTrip(c);
    var cut := Carved(m.heap.spans[d], IndexToSize(c));
    var n := TakenFrom(m.threads[t], c, cut);
    assert a in cut.objs;
    assert cut.objs == cut.objs[..n] + cut.objs[n..];
  }

  /** So no live block is in the span in waiting. */
  lemma LiveElsewhere(m: State, t: Tid, c: nat, d: Ptr, a: Addr)
    requires CanFinish(m, t, c, d) && Clean(m.heap.spans[d]) && Inv(Finish(m, t, c, d)) && a in m.live
    ensures Mapped(m.heap, a) && SpanAt(m.heap, a) != d && SpanAt(m.heap, a) in m.heap.spans
  {
    InOwnSpan(Finish(m, t, c, d), a);
    NotInWaiting(m, t, c, d, a);
  }

  lemma NotInWaiting(m: State, t: Tid, c: nat, d: Ptr, a: Addr)
    requires CanFinish(m, t, c, d) && Clean(m.heap.spans[d])
    requires var f := Finish(m, t, c, d);
      && Mapped(f.heap, a) && SpanAt(f.heap, a) in f.heap.spans && (forall p :: At(f, a, p) ==> p == User)
      && (Central(f.heap, SpanAt(f.heap, a)) ==> a in SlotsOf(f.heap.spans[SpanAt(f.heap, a)]))
    ensures Mapped(m.heap, a) && SpanAt(m.heap, a) != d && SpanAt(m.heap, a) in m.heap.spans
  {
    ClassRoundTrip(c);
    FinishRun(m, t, c, d);
    if SpanAt(m.heap, a) == d {
      AllOut(m, t, c, d, a);
    }
  }

  lemma InOwnSpan(f: State, a: Addr)
    requires Inv(f) && a in f.live
    ensures Mapped(f.heap, a) && SpanAt(f.heap, a) in f.heap.spans
    ensures Central(f.heap, SpanAt(f.heap, a)) ==> a in SlotsOf(f.heap.spans[SpanAt(f.heap, a)])
    ensures forall p :: At(f, a, p) ==> p == User
  {
    BlockInside(f, a);
    assert At(f, a, User);
  }

  // ----- the order does not matter ------------------------------------------

  /** A change to another thread and to the live blocks. */
  lemma ThreadCommutes(m: State, t: Tid, c: nat, d: Ptr, u: Tid, th: Thread, live: map<Addr, nat>)
    requires CanFinish(m, t, c, d) && u != t
    ensures Finish(SetThread(m, u, th).(live := live), t, c, d) == SetThread(Finish(m, t, c, d), u, th).(live := live)
  {
    var chained := WithChain(m.threads[t], c, ChainOf(m.heap.spans[d], m.threads[t], c));
    assert m.threads[u := th][t := chained] == m.threads[t := chained][u := th];
  }

  /** A change to the page heap that leaves `d` alone. */
  lemma HeapCommutes(m: State, t: Tid, c: nat, d: Ptr, h: Heap, live: map<Addr, nat>)
    requires CanFinish(m, t, c, d) && d in h.spans && h.spans[d] == m.heap.spans[d]
    ensures Finish(m.(heap := h, live := live), t, c, d) ==
      Finish(m, t, c, d).(heap := Tweak(h, d, CutAndLent(m.heap.spans[d], m.threads[t], c)), live := live)
  {
  }

  lemma InsertCommutes(m: State, t: Tid, c: nat, d: Ptr, u: Tid)
    requires CanFinish(m, t, c, d) && u != t && Could(m, InsertStep(u))
    ensures Could(Finish(m, t, c, d), InsertStep(u)) && CanFinish(Insert(m, u), t, c, d)
    ensures Finish(Insert(m, u), t, c, d) == Insert(Finish(m, t, c, d), u)
  {
    FinishRun(m, t, c, d);
    ThreadCommutes(m, t, c, d, u, Insert(m, u).threads[u], m.live);
  }

  lemma PopCommutes(m: State, t: Tid, c: nat, d: Ptr, u: Tid, size: nat)
    requires CanFinish(m, t, c, d) && u != t && Could(m, PopStep(u, size))
    ensures Could(Finish(m, t, c, d), PopStep(u, size)) && CanFinish(Pop(m, u, size), t, c, d)
    ensures Finish(Pop(m, u, size), t, c, d) == Pop(Finish(m, t, c, d), u, size)
  {
    FinishRun(m, t, c, d);
    ThreadCommutes(m, t, c, d, u, Pop(m, u, size).threads[u], Pop(m, u, size).live);
  }

  lemma FreeCommutes(m: State, t: Tid, c: nat, d: Ptr, u: Tid, a: Addr)
    requires CanFinish(m, t, c, d) && u != t && Could(m, FreeStep(u, a)) && SpanAt(m.heap, a) != d
    ensures Could(Finish(m, t, c, d), FreeStep(u, a)) && CanFinish(FreeSlot(m, u, a), t, c, d)
    ensures Finish(FreeSlot(m, u, a), t, c, d) == FreeSlot(Finish(m, t, c, d), u, a)
  {
    FinishRun(m, t, c, d);
    FreedSame(m.heap, d, CutAndLent(m.heap.spans[d], m.threads[t], c), a);
    ThreadCommutes(m, t, c, d, u, FreeSlot(m, u, a).threads[u], FreeSlot(m, u, a).live);
  }

  /** tc_free reads the same of a block elsewhere. */
  lemma FreedSame(h: Heap, d: Ptr, sp: Span, a: Addr)
    requires Mapped(h, a) && SpanAt(h, a) != d
    ensures FreesSmall(Tweak(h, d, sp), a) <==> FreesSmall(h, a)
    ensures FreesSmall(h, a) ==> FreedClass(Tweak(h, d, sp), a) == FreedClass(h, a)
  {
  }

  /** The page heap with `d` in waiting. */
  ghost predicate HeapWaiting(h: Heap, d: Ptr) {
    HeapInv(h) && Held(h, d) && Clean(h.spans[d]) && h.spans[d].pageSize == BATCH
  }

  lemma LargeHeap(h: Heap, n: nat, d: Ptr, sp: Span)
    requires HeapWaiting(h, d) && 1 <= n < INT_PAGES && SplitFits(h, n) && SameRun(h, d, sp)
    ensures HeapInv(Tweak(h, d, sp)) && FetchSpan(Tweak(h, d, sp), n) == Later(FetchSpan(h, n), d, sp)
    ensures var r := FetchSpan(h, n); HeapWaiting(r.0, d) && r.0.spans[d] == h.spans[d] && r.1 != d
  {
    FetchTweak(h, n, d, sp);
    var h', x := FetchSpanOk(h, n);
  }

  lemma LargeCommutes(m: State, t: Tid, c: nat, d: Ptr, size: nat)
    requires CanFinish(m, t, c, d) && HeapWaiting(m.heap, d) && THRESH_ALLOC < size < INT_BYTES && SplitFits(m.heap, size / 4096)
    ensures HeapInv(Finish(m, t, c, d).heap) && CanFinish(MallocLarge(m, size), t, c, d) && HeapWaiting(MallocLarge(m, size).heap, d)
    ensures Finish(MallocLarge(m, size), t, c, d) == MallocLarge(Finish(m, t, c, d), size)
  {
    FinishRun(m, t, c, d);
    var sp := CutAndLent(m.heap.spans[d], m.threads[t], c);
    LargeHeap(m.heap, size / 4096, d, sp);
    var r := FetchSpan(m.heap, size / 4096);
    HeapCommutes(m, t, c, d, r.0, m.live[r.0.spans[r.1].start := size]);
  }

  lemma ReturnHeap(h: Heap, y: Ptr, d: Ptr, sp: Span)
    requires HeapWaiting(h, d) && SameRun(h, d, sp) && y != d && Held(Tweak(h, d, sp), y) && Tweak(h, d, sp).spans[y].refcount == 0
    ensures y in h.spans && ReturnSpan(Tweak(h, d, sp), y) == Tweak(ReturnSpan(h, y), d, sp)
    ensures HeapWaiting(ReturnSpan(h, y), d) && ReturnSpan(h, y).spans[d] == h.spans[d]
  {
    CleanHeldOk(h, d, sp);
    assert Held(h, y);
    ReturnTweak(h, y, d, sp);
    ReturnSpanOk(h, y);
  }

  lemma FreeLargeValue(m: State, t: Tid, c: nat, d: Ptr, a: Addr, y: Ptr, sp: Span)
    requires CanFinish(m, t, c, d) && sp == CutAndLent(m.heap.spans[d], m.threads[t], c) && |m.heap.rings| == 256
    requires Mapped(m.heap, a) && y == SpanAt(m.heap, a) && y in m.heap.spans && y != d
    requires ReturnSpan(Tweak(m.heap, d, sp), y) == Tweak(ReturnSpan(m.heap, y), d, sp) && ReturnSpan(m.heap, y).spans[d] == m.heap.spans[d]
    ensures CanFinish(FreeLarge(m, a), t, c, d) && Mapped(Finish(m, t, c, d).heap, a) && SpanAt(Finish(m, t, c, d).heap, a) == y
    ensures |Finish(m, t, c, d).heap.rings| == 256 && Finish(FreeLarge(m, a), t, c, d) == FreeLarge(Finish(m, t, c, d), a)
  {
    FinishRun(m, t, c, d);
    HeapCommutes(m, t, c, d, ReturnSpan(m.heap, y), m.live - {a});
  }

  lemma FreeLargeCommutes(m: State, t: Tid, c: nat, d: Ptr, a: Addr)
    requires CanFinish(m, t, c, d) && HeapWaiting(m.heap, d) && Mapped(m.heap, a) && SpanAt(m.heap, a) != d
    requires Held(Finish(m, t, c, d).heap, SpanAt(m.heap, a)) && Finish(m, t, c, d).heap.spans[SpanAt(m.heap, a)].refcount == 0
    ensures Could(m, LargeFreeStep(t, a)) && Could(Finish(m, t, c, d), LargeFreeStep(t, a))
    ensures CanFinish(FreeLarge(m, a), t, c, d) && HeapWaiting(FreeLarge(m, a).heap, d)
    ensures Finish(FreeLarge(m, a), t, c, d) == FreeLarge(Finish(m, t, c, d), a)
  {
    FinishRun(m, t, c, d);
    var y, sp := SpanAt(m.heap, a), CutAndLent(m.heap.spans[d], m.threads[t], c);
    ReturnHeap(m.heap, y, d, sp);
    FreeLargeValue(m, t, c, d, a, y, sp);
  }

  lemma BreakCommutes(m: State, t: Tid, c: nat, d: Ptr, pages: nat)
    requires CanFinish(m, t, c, d) && HeapWaiting(m.heap, d)
    ensures var m' := m.(heap := PassOver(m.heap, pages)); var f := Finish(m, t, c, d);
      CanFinish(m', t, c, d) && HeapWaiting(m'.heap, d) && Finish(m', t, c, d) == f.(heap := PassOver(f.heap, pages))
  {
    FinishRun(m, t, c, d);
    BreakKeeps(m.heap, pages);
    HeapCommutes(m, t, c, d, PassOver(m.heap, pages), m.live);
  }

  // ----- every step ---------------------------------------------------------

  /** What is enabled in the middle of the fetch is enabled after it, and possible in both. */
  lemma EnabledAfter(m: State, t: Tid, c: nat, d: Ptr, act: Action)
    requires CanFinish(m, t, c, d) && Clean(m.heap.spans[d]) && Inv(Finish(m, t, c, d)) && Other(act, t) && Enabled(m, act)
    ensures Enabled(Finish(m, t, c, d), act)
    ensures act.FreeStep? || act.LargeFreeStep? ==> Mapped(m.heap, act.a) && SpanAt(m.heap, act.a) != d
  {
    FinishRun(m, t, c, d);
    if act.FreeStep? || act.LargeFreeStep? {
      LiveElsewhere(m, t, c, d, act.a);
      FreedSame(m.heap, d, CutAndLent(m.heap.spans[d], m.threads[t], c), act.a);
    }
  }

  lemma LocalStep(m: State, t: Tid, c: nat, d: Ptr, act: Action)
    requires Waiting(m, t, c, d) && Other(act, t) && Enabled(m, act)
    requires act.StartThread? || act.InsertStep? || act.PopStep? || act.FreeStep?
    ensures Could(m, act) && Enabled(Finish(m, t, c, d), act) && CanFinish(Meanwhile(m, act), t, c, d)
    ensures HeapWaiting(Meanwhile(m, act).heap, d) && Finish(Meanwhile(m, act), t, c, d) == Apply(Finish(m, t, c, d), act)
  {
    var f := Finish(m, t, c, d);
    EnabledAfter(m, t, c, d, act);
    FinishRun(m, t, c, d);
    match act
    case StartThread(u) => ThreadCommutes(m, t, c, d, u, FreshThread(), m.live);
    case InsertStep(u) => InsertOk(f, u); InsertCommutes(m, t, c, d, u);
    case PopStep(u, size) => PopOk(f, u, size); PopCommutes(m, t, c, d, u, size);
    case FreeStep(u, a) => FreeCould(m, t, c, d, u, a); FreeCommutes(m, t, c, d, u, a);
  }

  lemma FreeCould(m: State, t: Tid, c: nat, d: Ptr, u: Tid, a: Addr)
    requires CanFinish(m, t, c, d) && Inv(Finish(m, t, c, d)) && Enabled(m, FreeStep(u, a)) && SpanAt(m.heap, a) != d
    ensures Could(m, FreeStep(u, a))
  {
    FinishRun(m, t, c, d);
    LiveSmall(Finish(m, t, c, d), a);
    FreedSame(m.heap, d, CutAndLent(m.heap.spans[d], m.threads[t], c), a);
  }

  lemma PageStep(m: State, t: Tid, c: nat, d: Ptr, act: Action)
    requires Waiting(m, t, c, d) && Other(act, t) && Enabled(m, act)
    requires act.LargeMallocStep? || act.LargeFreeStep? || act.ForeignBreak?
    ensures Could(m, act) && Enabled(Finish(m, t, c, d), act) && CanFinish(Meanwhile(m, act), t, c, d)
    ensures HeapWaiting(Meanwhile(m, act).heap, d) && Finish(Meanwhile(m, act), t, c, d) == Apply(Finish(m, t, c, d), act)
  {
    EnabledAfter(m, t, c, d, act);
    match act
    case LargeMallocStep(u, size) =>
      MidFits(m, t, c, d, size / 4096);
      LargeCommutes(m, t, c, d, size);
    case LargeFreeStep(u, a) =>
      LargeHeld(m, t, c, d, a);
      FreeLargeCommutes(m, t, c, d, a);
    case ForeignBreak(pages) => BreakCommutes(m, t, c, d, pages);
  }

  lemma MidFits(m: State, t: Tid, c: nat, d: Ptr, n: nat)
    requires CanFinish(m, t, c, d) && HeapInv(m.heap) && Limited(Finish(m, t, c, d).heap) && n >= 8
    ensures SplitFits(m.heap, n)
  {
    FinishRun(m, t, c, d);
    assert Limited(m.heap) by {
      var f := Finish(m, t, c, d);
      forall x | x in m.heap.spans
        ensures m.heap.spans[x].pageSize < WRAP_PAGES + 8
      {
        assert x in f.heap.spans && f.heap.spans[x].pageSize == m.heap.spans[x].pageSize;
      }
    }
    LimitedFits(m.heap, n);
  }

  lemma LargeHeld(m: State, t: Tid, c: nat, d: Ptr, a: Addr)
    requires CanFinish(m, t, c, d) && Inv(Finish(m, t, c, d)) && a in m.live && !FreesSmall(Finish(m, t, c, d).heap, a)
    ensures var f := Finish(m, t, c, d);
      && Mapped(m.heap, a) && Held(f.heap, SpanAt(m.heap, a)) && f.heap.spans[SpanAt(m.heap, a)].refcount == 0
  {
    FinishRun(m, t, c, d);
    LiveLarge(Finish(m, t, c, d), a);
  }

  /** A step of another thread in the middle of a fetch comes to the same as that step after it. */
  lemma StepCommutes(m: State, t: Tid, c: nat, d: Ptr, act: Action)
    requires Waiting(m, t, c, d) && Other(act, t) && Enabled(m, act) && Moderate(act)
    ensures Could(m, act) && Waiting(Meanwhile(m, act), t, c, d)
    ensures Goes(Finish(m, t, c, d), act, Finish(Meanwhile(m, act), t, c, d))
  {
    if act.LargeMallocStep? || act.LargeFreeStep? || act.ForeignBreak? {
      PageStep(m, t, c, d, act);
    } else {
      LocalStep(m, t, c, d, act);
    }
    GoodStep(Finish(m, t, c, d), act, Finish(Meanwhile(m, act), t, c, d));
  }

  // ----- whole runs ---------------------------------------------------------

  ghost predicate Between(t: Tid, m: State, act: Action, m': State) {
    Other(act, t) && Moderate(act) && Enabled(m, act) && Could(m, act) && m' == Meanwhile(m, act)
  }

  ghost function BetweenRelation(t: Tid): (State, Action, State) -> bool {
    (m, act, m') => Between(t, m, act, m')
  }

  /** What other threads do in the middle of the fetch, as a run after it. */
  lemma {:induction false} MiddleRun(m: State, t: Tid, c: nat, d: Ptr, acts: seq<Action>, m': State)
    requires Waiting(m, t, c, d) && Path(BetweenRelation(t), m, acts, m')
    ensures Waiting(m', t, c, d) && Run(Finish(m, t, c, d), acts, Finish(m', t, c, d))
    decreases |acts|
  {
    if acts != [] {
      var m1 :| BetweenRelation(t)(m, acts[0], m1) && Path(BetweenRelation(t), m1, acts[1..], m');
      StepCommutes(m, t, c, d, acts[0]);
      MiddleRun(m1, t, c, d, acts[1..], m');
      RunFirst(Finish(m, t, c, d), acts, Finish(m1, t, c, d), Finish(m', t, c, d));
    }
  }

  lemma RunFirst(s: State, acts: seq<Action>, s1: State, s': State)
    requires acts != [] && Goes(s, acts[0], s1) && Run(s1, acts[1..], s')
    ensures Run(s, acts, s')
  {
    PathCons(StepRelation(), s, acts[0], s1, acts[1..], s');
    assert acts == [acts[0]] + acts[1..];
  }

  /** With its pages fetched the fetch waits to be finished. */
  lemma PagesFetched(s: State, t: Tid, c: nat) returns (h: Heap, d: Ptr)
    requires Reachable(s) && Enabled(s, FetchStep(t, c)) && (ReachableOk(s); ClassesReady(s, c); NeedsBatch(s, c))
    ensures Inv(s) && FetchSpan(s.heap, BATCH) == (h, d) && Waiting(s.(heap := h), t, c, d)
    ensures Goes(s, FetchStep(t, c), Finish(s.(heap := h), t, c, d))
  {
    ReachableOk(s);
    ClassesReady(s, c);
    LimitedFits(s.heap, BATCH);
    h, d := FetchSpanOk(s.heap, BATCH);
    FetchInTwo(s, t, c);
    GoodStep(s, FetchStep(t, c), Fetch(s, t, c));
  }

  /** No span on the class's list has a free slot. */
  predicate NeedsBatch(s: State, c: nat)
    requires c < |s.classes| && forall x :: x in s.classes[c].list ==> x in s.heap.spans
  {
    FirstWithSlots(s.heap.spans, s.classes[c].list) == |s.classes[c].list|
  }

  /** A fetch that gets its pages, lets any number of steps of other threads by, and then cuts the
      span, ends in a state that a run of the model reaches: the whole fetch, then those steps. */
  lemma FetchMayBeSplit(s: State, t: Tid, c: nat, h: Heap, d: Ptr, acts: seq<Action>, m: State)
    requires Reachable(s) && Enabled(s, FetchStep(t, c)) && (ReachableOk(s); ClassesReady(s, c); NeedsBatch(s, c))
    requires (ReachableOk(s); FetchSpan(s.heap, BATCH) == (h, d)) && Path(BetweenRelation(t), s.(heap := h), acts, m)
    ensures Waiting(m, t, c, d) && Run(s, [FetchStep(t, c)] + acts, Finish(m, t, c, d))
  {
    var h1, d1 := PagesFetched(s, t, c);
    MiddleRun(s.(heap := h), t, c, d, acts, m);
    PathCons(StepRelation(), s, FetchStep(t, c), Finish(s.(heap := h), t, c, d), acts, Finish(m, t, c, d));
  }

  /** Nor can they change what the walk over the list saw before the pages were fetched: the lists and
      the spans cut into slots stay as they are. */
  lemma WalkStable(s: State, t: Tid, act: Action, x: Ptr)
    requires Reachable(s) && Other(act, t) && Enabled(s, act) && Central(s.heap, x)
    ensures Inv(s) && Apply(s, act).classes == s.classes
    ensures x in Apply(s, act).heap.spans && Apply(s, act).heap.spans[x] == s.heap.spans[x]
  {
    ReachableOk(s);
    StepLimited(s, act);
    assert SpanOk(s.heap, x);
    match act
    case LargeMallocStep(u, size) => var h, d := FetchSpanOk(s.heap, size / 4096);
    case LargeFreeStep(u, a) => LiveLarge(s, a);
    case _ =>
  }
}
