/** The calls of the allocator against their lock code: what a call does under locks is a path of
    the code, and what a step does outside them touches nothing shared. */
module LockedCalls {
  import opened SizeClasses
  import PageHeap
  import opened Allocator
  import opened AllocatorRuns
  import opened TcMalloc
  import L = SpinLocks

  // ----- paths of a code ----------------------------------------------------

  /** `events` is what one way through `c` does, in order. */
  ghost predicate Does(c: L.Code, events: seq<L.Code>)
    decreases c, |events|, 0
  {
    match c
    case Nothing => events == []
    case Then(a, b) => exists i :: 0 <= i <= |events| && Does(a, events[..i]) && Does(b, events[i..])
    case Either(a, b) => Does(a, events) || Does(b, events)
    case Loop(a) => Repeats(a, events)
    case _ => events == [c]
  }

  ghost predicate Repeats(a: L.Code, events: seq<L.Code>)
    decreases a, |events|, 1
  {
    events == [] || exists i :: 0 < i <= |events| && Does(a, events[..i]) && Repeats(a, events[i..])
  }

  lemma DoesThen(a: L.Code, b: L.Code, xs: seq<L.Code>, ys: seq<L.Code>)
    requires Does(a, xs) && Does(b, ys)
    ensures Does(L.Then(a, b), xs + ys)
  {
    assert (xs + ys)[..|xs|] == xs && (xs + ys)[|xs|..] == ys;
  }

  function Locked(l: L.Lock, events: seq<L.Code>): seq<L.Code> {
    [L.Acquire(l)] + (events + [L.Release(l)])
  }

  lemma DoesBetween(l: L.Lock, body: L.Code, xs: seq<L.Code>)
    requires Does(body, xs)
    ensures Does(L.Between(l, body), Locked(l, xs))
  {
    DoesThen(body, L.Release(l), xs, [L.Release(l)]);
    DoesThen(L.Acquire(l), L.Then(body, L.Release(l)), [L.Acquire(l)], xs + [L.Release(l)]);
  }

  // ----- what the steps do under locks --------------------------------------

  /** The page heap, alone. */
  function PagesEvents(): seq<L.Code> {
    Locked(L.PageHeapLock, [L.Touch(L.PageHeap)])
  }

  /** A fetch, with a new batch or without. */
  function FetchEvents(batch: bool): seq<L.Code> {
    var get := [L.Touch(L.CentralCache)] + if batch then PagesEvents() + [L.Touch(L.CentralCache)] else [];
    Locked(L.CentralLock, get + [L.Touch(L.CentralCache)])
  }

  /** A flush, whose last span goes back or not. */
  function FlushEvents(released: bool): seq<L.Code> {
    Locked(L.CentralLock, [L.Touch(L.CentralCache)] + if released then PagesEvents() else [])
  }

  /** A step that needs a batch of class `c` from the page heap. */
  ghost predicate NeedsBatch(s: State, c: nat)
    requires CentralReady(s, c)
  {
    FirstWithSlots(s.heap.spans, s.classes[c].list) == |s.classes[c].list|
  }

  /** Whether the flush ends with its last span released. */
  ghost predicate Releases(s: State, t: Tid)
    requires Inv(s) && Enabled(s, FlushStep(t))
  {
    FlushParts(s, t);
    Returned(s, t).heap.spans[PageHeap.SpanAt(s.heap, Last(s.threads[t].moving.chain))].refcount == 0
  }

  ghost function Events(s: State, act: Action): seq<L.Code>
    requires Inv(s) && Enabled(s, act)
  {
    match act
    case FetchStep(t, c) => ClassesReady(s, c); FetchEvents(NeedsBatch(s, c))
    case FlushStep(t) => FlushEvents(Releases(s, t))
    case LargeMallocStep(t, size) => PagesEvents()
    case LargeFreeStep(t, a) => PagesEvents()
    case _ => []
  }

  lemma PagesPath()
    ensures Does(L.RETURN_SPAN, PagesEvents()) && Does(L.Between(L.PageHeapLock, L.Touch(L.PageHeap)), PagesEvents())
  {
    DoesBetween(L.PageHeapLock, L.Touch(L.PageHeap), [L.Touch(L.PageHeap)]);
  }

  lemma FetchPath(batch: bool)
    ensures Does(L.FETCH_FROM_CENTRAL, FetchEvents(batch))
  {
    var touch := L.Touch(L.CentralCache);
    var fetch := L.Then(L.Between(L.PageHeapLock, L.Touch(L.PageHeap)), touch);
    var more := if batch then PagesEvents() + [touch] else [];
    assert Does(L.Either(L.Nothing, fetch), more) by {
      if batch {
        PagesPath();
        DoesThen(L.Between(L.PageHeapLock, L.Touch(L.PageHeap)), touch, PagesEvents(), [touch]);
      }
    }
    DoesThen(touch, L.Either(L.Nothing, fetch), [touch], more);
    DoesThen(L.GET_SPAN_CENTRAL, touch, [touch] + more, [touch]);
    DoesBetween(L.CentralLock, L.Then(L.GET_SPAN_CENTRAL, touch), [touch] + more + [touch]);
  }

  lemma FlushPath(released: bool)
    ensures Does(L.RETURN_OBJS, FlushEvents(released))
  {
    var touch := L.Touch(L.CentralCache);
    var more := if released then PagesEvents() else [];
    assert Does(L.Either(L.RETURN_SPAN, L.Nothing), more) by {
      PagesPath();
    }
    DoesThen(touch, L.Either(L.RETURN_SPAN, L.Nothing), [touch], more);
    DoesBetween(L.CentralLock, L.Then(touch, L.Either(L.RETURN_SPAN, L.Nothing)), [touch] + more);
  }

  lemma CallPaths(b: bool)
    ensures Does(L.TC_MALLOC, []) && Does(L.TC_MALLOC, FetchEvents(b)) && Does(L.TC_MALLOC, PagesEvents())
    ensures Does(L.TC_FREE, []) && Does(L.TC_FREE, FlushEvents(b)) && Does(L.TC_FREE, PagesEvents())
  {
    PagesPath();
    FetchPath(b);
    FlushPath(b);
    assert Does(L.ALLOCATE, []) && Does(L.ALLOCATE, FetchEvents(b));
    assert Does(L.DEALLOCATE, []) && Does(L.DEALLOCATE, FlushEvents(b));
  }

  predicate MallocMay(events: seq<L.Code>) {
    events == [] || events == FetchEvents(true) || events == FetchEvents(false) || events == PagesEvents()
  }

  predicate FreeMay(events: seq<L.Code>) {
    events == [] || events == FlushEvents(true) || events == FlushEvents(false) || events == PagesEvents()
  }

  lemma MayPaths(events: seq<L.Code>)
    ensures MallocMay(events) ==> Does(L.TC_MALLOC, events)
    ensures FreeMay(events) ==> Does(L.TC_FREE, events)
  {
    CallPaths(true);
    CallPaths(false);
  }

  lemma MallocStarts(s: State, t: Tid, size: nat)
    requires Inv(s) && Ready(s, t) && 1 <= size < INT_BYTES
    ensures MallocSteps(s, t, size) != [] && Enabled(s, MallocSteps(s, t, size)[0])
    ensures MallocMay(Events(s, MallocSteps(s, t, size)[0]))
  {
    SmallestClass(size);
  }

  lemma MallocGoesOn(s: State, t: Tid, size: nat, k: nat)
    requires Idle(s, t) && 1 <= size && 0 < k < |MallocSteps(s, t, size)|
    ensures MallocSteps(s, t, size)[k].InsertStep? || MallocSteps(s, t, size)[k].PopStep?
  {
  }

  /** What a tc_malloc does under locks, all in its first step, is a path of its code. */
  lemma MallocPath(s: State, t: Tid, size: nat)
    requires Inv(s) && Ready(s, t) && 1 <= size < INT_BYTES
    ensures MallocSteps(s, t, size) != [] && Enabled(s, MallocSteps(s, t, size)[0])
    ensures Does(L.TC_MALLOC, Events(s, MallocSteps(s, t, size)[0]))
    ensures forall k :: 0 < k < |MallocSteps(s, t, size)| ==> MallocSteps(s, t, size)[k].InsertStep? || MallocSteps(s, t, size)[k].PopStep?
  {
    MallocStarts(s, t, size);
    MayPaths(Events(s, MallocSteps(s, t, size)[0]));
    forall k | 0 < k < |MallocSteps(s, t, size)|
      ensures MallocSteps(s, t, size)[k].InsertStep? || MallocSteps(s, t, size)[k].PopStep?
    {
      MallocGoesOn(s, t, size, k);
    }
  }

  /** The last step of a tc_free, and the state it is taken in. */
  lemma FreeEnds(s: State, t: Tid, a: Addr) returns (s1: State, act: Action)
    requires Inv(s) && Ready(s, t) && a in s.live
    ensures FreeSteps(s, t, a) == if act.FlushStep? then [FreeStep(t, a)] + [act] else [act]
    ensures if act.FlushStep? then Goes(s, FreeStep(t, a), s1) else s1 == s
    ensures Inv(s1) && Enabled(s1, act) && FreeMay(Events(s1, act))
  {
    s1, act := s, LargeFreeStep(t, a);
    if FreesSmall(s.heap, a) {
      FreeGoes(s, t, a);
      act := FreeStep(t, a);
      if FlushesFull(s, t, a) {
        s1, act := FreeSlot(s, t, a), FlushStep(t);
      }
    }
  }

  /** The same for tc_free: its last step is the one that takes locks, if any. */
  lemma FreePath(s: State, t: Tid, a: Addr) returns (s1: State, act: Action)
    requires Inv(s) && Ready(s, t) && a in s.live
    ensures FreeSteps(s, t, a) == if act.FlushStep? then [FreeStep(t, a)] + [act] else [act]
    ensures if act.FlushStep? then Goes(s, FreeStep(t, a), s1) else s1 == s
    ensures Inv(s1) && Enabled(s1, act) && Does(L.TC_FREE, Events(s1, act))
  {
    s1, act := FreeEnds(s, t, a);
    MayPaths(Events(s1, act));
  }

  // ----- what the steps do outside locks ------------------------------------

  /** The page heap but for slots: the same rings, map and pools, and every span where it was. */
  predicate SamePageHeap(h: PageHeap.Heap, h': PageHeap.Heap) {
    && h' == h.(spans := h'.spans) && h'.spans.Keys == h.spans.Keys
    && forall d :: d in h.spans ==> SamePlace(h.spans[d], h'.spans[d])
  }

  predicate SamePlace(a: PageHeap.Span, b: PageHeap.Span) {
    a.start == b.start && a.pageId == b.pageId && a.pageSize == b.pageSize
  }

  /** The central cache: the same lists, and every carved span as it was. */
  ghost predicate SameCentral(s: State, s': State) {
    && s'.classes == s.classes
    && forall d :: Central(s.heap, d) ==> d in s'.heap.spans && s'.heap.spans[d] == s.heap.spans[d]
  }

  lemma {:induction false} ReturnedPages(s: State, t: Tid)
    requires Flushes(s, t)
    ensures SamePageHeap(s.heap, Returned(s, t).heap)
    decreases |s.threads[t].moving.chain|
  {
    if s.threads[t].moving.chain != [] {
      FlushesOn(s, t);
      ReturnedPages(ReturnOne(s, t), t);
    }
  }

  lemma LargeCentral(s: State, size: nat)
    requires Inv(s) && THRESH_ALLOC < size < INT_BYTES && PageHeap.SplitFits(s.heap, size / 4096)
    ensures SameCentral(s, MallocLarge(s, size))
  {
    var h, d := PageHeap.FetchSpanOk(s.heap, size / 4096);
    forall x | Central(s.heap, x)
      ensures x in h.spans && h.spans[x] == s.heap.spans[x]
    {
      assert SpanOk(s.heap, x);
      assert PageHeap.Held(s.heap, x);
    }
  }

  lemma FlushPagesOnly(s: State, t: Tid)
    requires Inv(s) && Enabled(s, FlushStep(t)) && !Releases(s, t)
    ensures SamePageHeap(s.heap, Flush(s, t).heap)
  {
    FlushParts(s, t);
    ReturnedPages(s, t);
  }

  lemma FreeLargeCentral(s: State, a: Addr)
    requires Inv(s) && a in s.live && !FreesSmall(s.heap, a)
    ensures PageHeap.Mapped(s.heap, a) && PageHeap.SpanAt(s.heap, a) in s.heap.spans && SameCentral(s, FreeLarge(s, a))
  {
    LiveLarge(s, a);
  }

  lemma FetchPagesOnly(s: State, t: Tid, c: nat)
    requires CentralReady(s, c) && Idle(s, t) && !NeedsBatch(s, c)
    ensures SamePageHeap(s.heap, Fetch(s, t, c).heap)
  {
  }

  /** A step of a thread that has no access to the page heap among its events leaves it alone, and
      likewise the central cache; so all such accesses are made with the lock held. */
  lemma StepAccounted(s: State, act: Action)
    requires Inv(s) && Enabled(s, act) && Fits(s, act) && !act.CarveAhead? && !act.ForeignBreak?
    ensures L.Touch(L.PageHeap) !in Events(s, act) ==> SamePageHeap(s.heap, Apply(s, act).heap)
    ensures L.Touch(L.CentralCache) !in Events(s, act) ==> SameCentral(s, Apply(s, act))
  {
    match act
    case FetchStep(t, c) =>
      ClassesReady(s, c);
      FetchTouches(NeedsBatch(s, c));
      if !NeedsBatch(s, c) { FetchPagesOnly(s, t, c); }
    case FlushStep(t) =>
      FlushTouches(Releases(s, t));
      if !Releases(s, t) { FlushPagesOnly(s, t); }
    case LargeMallocStep(t, size) => PagesTouch(); LargeCentral(s, size);
    case LargeFreeStep(t, a) => PagesTouch(); FreeLargeCentral(s, a);
    case FreeStep(t, a) => LiveSmall(s, a);
    case _ =>
  }

  lemma PagesTouch()
    ensures L.Touch(L.PageHeap) in PagesEvents()
  {
    assert PagesEvents()[1] == L.Touch(L.PageHeap);
  }

  lemma FetchTouches(batch: bool)
    ensures L.Touch(L.CentralCache) in FetchEvents(batch) && (batch ==> L.Touch(L.PageHeap) in FetchEvents(batch))
  {
    assert FetchEvents(batch)[1] == L.Touch(L.CentralCache);
    if batch { assert FetchEvents(batch)[3] == L.Touch(L.PageHeap); }
  }

  lemma FlushTouches(released: bool)
    ensures L.Touch(L.CentralCache) in FlushEvents(released) && (released ==> L.Touch(L.PageHeap) in FlushEvents(released))
  {
    assert FlushEvents(released)[1] == L.Touch(L.CentralCache);
    if released { assert FlushEvents(released)[3] == L.Touch(L.PageHeap); }
  }
}
