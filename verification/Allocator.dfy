/** The three levels together: page heap, central cache and the caches of any number of
    threads, as one transition system. A lock-protected region is one step; what a thread
    does between two such regions touches only its own cache, and slots on their way between
    the levels are held in the thread's `moving` component. */
module Allocator {
  import opened Sequences
  import opened SizeClasses
  import opened Slots
  import opened PageHeap

  type Addr = nat
  type Tid = nat

  const BATCH := 128

  // ----- state --------------------------------------------------------------

  /** Spans of one class by where they hang: on the class's list, on its idle list, or on a
      ring that neither head reaches any more. */
  datatype ClassRings = ClassRings(list: seq<Ptr>, idle: seq<Ptr>, lost: set<Ptr>)

  datatype ThreadList = ThreadList(objs: seq<Addr>, objLen: nat, maxLength: nat)

  datatype Moving = Nothing | Fetched(class_: nat, chain: seq<Addr>) | Flushing(class_: nat, chain: seq<Addr>)

  datatype Thread = Thread(lists: seq<ThreadList>, moving: Moving)

  /** `live` has every block the program holds, with the size it asked for. */
  datatype State = State(
    heap: Heap, classes: seq<ClassRings>, threads: map<Tid, Thread>, live: map<Addr, nat>)

  // ----- the central cache --------------------------------------------------

  function SpanEnd(sp: Span): nat {
    sp.start + 4096 * sp.pageSize
  }

  function SlotsOf(sp: Span): seq<Addr>
    requires sp.objsSize > 0
  {
    Carve(sp.start, SpanEnd(sp), sp.objsSize)
  }

  /** Index of the first span of the list with a free slot, or the length of the list. */
  function FirstWithSlots(spans: map<Ptr, Span>, list: seq<Ptr>): (k: nat)
    requires forall d :: d in list ==> d in spans
    ensures k <= |list|
    ensures k < |list| ==> spans[list[k]].objs != []
    ensures forall j :: 0 <= j < k ==> spans[list[j]].objs == []
  {
    if list == [] || spans[list[0]].objs != [] then 0
    else
      var k := FirstWithSlots(spans, list[1..]);
      assert forall j :: 1 <= j < k + 1 ==> list[j] == list[1..][j - 1];
      k + 1
  }

  /** Cuts a clean span into slots of size `z`; each is pushed in front of the last. */
  function Carved(sp: Span, z: nat): Span
    requires z > 0
  {
    var sp1 := sp.(objsSize := z);
    var slots := SlotsOf(sp1);
    sp1.(objs := Reversed(slots) + sp.objs, objLen := sp.objLen + |slots|, loc := CentralList)
  }

  /** Cuts the span `d` of `h` for class `c` and puts it first on the class's list. */
  function AddBatch(s: State, h: Heap, d: Ptr, c: nat): State
    requires c < |s.classes| && c < CLASSES && d in h.spans
  {
    ClassRoundTrip(c);
    s.(heap := Tweak(h, d, Carved(h.spans[d], IndexToSize(c))),
       classes := s.classes[c := s.classes[c].(list := [d] + s.classes[c].list)])
  }

  function NewBatch(s: State, c: nat): (r: (State, Ptr))
    requires HeapInv(s.heap) && c < |s.classes| && c < CLASSES
  {
    var r := FetchSpan(s.heap, BATCH);
    (AddBatch(s, r.0, r.1, c), r.1)
  }

  /** The span that slots of class `c` are taken from next. */
  function GetSpanCentral(s: State, c: nat): (r: (State, Ptr))
    requires CentralReady(s, c)
  {
    var list := s.classes[c].list;
    var k := FirstWithSlots(s.heap.spans, list);
    if k < |list| then (s, list[k]) else NewBatch(s, c)
  }

  function Min(a: int, b: int): int {
    if a > b then b else a
  }

  /** How many slots a fetch of up to `num` takes: the loop stops at the end of the list, or at
      the smaller of `num` and the unsigned difference of the two counters, which is past any
      list length when it wraps. */
  function FetchCount(sp: Span, num: nat): (n: nat)
    ensures n <= num && n <= |sp.objs|
  {
    var diff := if sp.refcount <= sp.objLen then sp.objLen - sp.refcount else 0x1_0000_0000_0000_0000;
    Min(Min(num, diff), |sp.objs|)
  }

  /** `sp` with its first `n` slots lent; a span whose counters now agree is idle. */
  function Shrunk(sp: Span, n: nat): Span
    requires n <= |sp.objs|
  {
    var refs := sp.refcount + n;
    sp.(objs := sp.objs[n..], refcount := refs, loc := if refs == sp.objLen then CentralIdle else sp.loc)
  }

  /** Takes the first `n` slots off the span `d`, which moves to the idle list if its counters
      now agree. */
  function Shrink(s: State, c: nat, d: Ptr, n: nat): State
    requires c < |s.classes| && d in s.heap.spans && n <= |s.heap.spans[d].objs|
  {
    var sp := Shrunk(s.heap.spans[d], n);
    var cl := s.classes[c];
    var cl' := if sp.refcount == sp.objLen then cl.(list := Without(cl.list, d), idle := [d] + cl.idle) else cl;
    s.(heap := Tweak(s.heap, d, sp), classes := s.classes[c := cl'])
  }

  /** Takes up to `num` slots of class `c` out of the central cache. */
  function FetchObjs(s: State, c: nat, num: nat): (r: (State, seq<Addr>))
    requires CentralReady(s, c)
  {
    GetReady(s, c);
    var r := GetSpanCentral(s, c);
    var sp := r.0.heap.spans[r.1];
    var n := FetchCount(sp, num);
    (Shrink(r.0, c, r.1, n), sp.objs[..n])
  }

  ghost predicate CentralReady(s: State, c: nat) {
    && HeapInv(s.heap) && c < |s.classes| && c < CLASSES
    && forall d :: d in s.classes[c].list ==> d in s.heap.spans
  }

  /** If class `c` needs a new batch, cutting it off a longer span does not wrap. */
  ghost predicate BatchFits(s: State, c: nat)
    requires CentralReady(s, c)
  {
    FirstWithSlots(s.heap.spans, s.classes[c].list) == |s.classes[c].list| ==> SplitFits(s.heap, BATCH)
  }

  lemma GetReady(s: State, c: nat)
    requires CentralReady(s, c)
    ensures GetSpanCentral(s, c).1 in GetSpanCentral(s, c).0.heap.spans
    ensures c < |GetSpanCentral(s, c).0.classes|
  {
  }

  // ----- the thread caches --------------------------------------------------

  function FetchLimit(max: nat): nat {
    if MAX_FETCH > max then max else MAX_FETCH
  }

  /** Slow start: the limit doubles in classes up to 22 and grows by one in the others. */
  function GrownLimit(c: nat, max: nat): nat {
    if FetchLimit(max) < MAX_FETCH && c <= 22 then 2 * max
    else if FetchLimit(max) < MAX_FETCH then max + 1
    else max
  }

  predicate Idle(s: State, t: Tid) {
    t in s.threads && s.threads[t].moving == Nothing && |s.threads[t].lists| == CLASSES
  }

  function SetThread(s: State, t: Tid, th: Thread): State {
    s.(threads := s.threads[t := th])
  }

  /** The thread has raised its limit and holds the fetched chain. */
  function WithChain(th: Thread, c: nat, chain: seq<Addr>): Thread
    requires c < |th.lists|
  {
    Thread(th.lists[c := th.lists[c].(maxLength := GrownLimit(c, th.lists[c].maxLength))], Fetched(c, chain))
  }

  /** fetch_from_centralcache up to the unlock. */
  function Fetch(s: State, t: Tid, c: nat): State
    requires CentralReady(s, c) && Idle(s, t)
  {
    var th := s.threads[t];
    var r := FetchObjs(s, c, FetchLimit(th.lists[c].maxLength));
    SetThread(r.0, t, WithChain(th, c, r.1))
  }

  function SetList(th: Thread, c: nat, l: ThreadList, moving: Moving): Thread
    requires c < |th.lists|
  {
    Thread(th.lists[c := l], moving)
  }

  /** insert_to_threadcache: the fetched slots are pushed one by one. */
  function Insert(s: State, t: Tid): State
    requires t in s.threads && s.threads[t].moving.Fetched? && s.threads[t].moving.class_ < |s.threads[t].lists|
  {
    var th := s.threads[t];
    var c := th.moving.class_;
    var l := th.lists[c];
    var chain := th.moving.chain;
    SetThread(s, t, SetList(th, c, l.(objs := Reversed(chain) + l.objs, objLen := l.objLen + |chain|), Nothing))
  }

  /** The end of allocate: the first cached slot of the class of `size` goes to the program. */
  function Pop(s: State, t: Tid, size: nat): State
    requires Idle(s, t) && 0 <= GetIndex(size) < CLASSES
    requires s.threads[t].lists[GetIndex(size)].objs != [] && s.threads[t].lists[GetIndex(size)].objLen > 0
  {
    var th := s.threads[t];
    var c := GetIndex(size);
    var l := th.lists[c];
    SetThread(s, t, SetList(th, c, l.(objs := l.objs[1..], objLen := l.objLen - 1), Nothing))
      .(live := s.live[l.objs[0] := size])
  }

  /** The block that `Pop` hands out. */
  function PopResult(s: State, t: Tid, size: nat): Addr
    requires Idle(s, t) && 0 <= GetIndex(size) < CLASSES && s.threads[t].lists[GetIndex(size)].objs != []
  {
    s.threads[t].lists[GetIndex(size)].objs[0]
  }

  /** Whether tc_free takes the small path for `a`. */
  predicate FreesSmall(h: Heap, a: Addr) {
    Mapped(h, a) && SpanAt(h, a) in h.spans && 0 < h.spans[SpanAt(h, a)].objsSize <= THRESH_ALLOC
  }

  /** Class that tc_free reads off the page map. */
  function FreedClass(h: Heap, a: Addr): int
    requires FreesSmall(h, a)
  {
    GetIndex(h.spans[SpanAt(h, a)].objsSize)
  }

  /** tc_free of a slot: cached by the freeing thread, or, when the cache was at its limit, on
      its way to the central cache together with everything cached of that class. */
  function FreeSlot(s: State, t: Tid, a: Addr): State
    requires Idle(s, t) && FreesSmall(s.heap, a) && 0 <= FreedClass(s.heap, a) < CLASSES
  {
    var th := s.threads[t];
    var c := FreedClass(s.heap, a);
    var l := th.lists[c];
    var th' := if l.objLen == l.maxLength
               then SetList(th, c, l.(objs := [], objLen := 0), Flushing(c, [a] + l.objs))
               else SetList(th, c, l.(objs := [a] + l.objs, objLen := l.objLen + 1), Nothing);
    SetThread(s, t, th').(live := s.live - {a})
  }

  // ----- slots going back ---------------------------------------------------

  /** `sp` with the slot `a` back; the 32-bit count of lent slots goes down, the length up. */
  function Grown(sp: Span, a: Addr): Span {
    sp.(objs := [a] + sp.objs, objLen := sp.objLen + 1, refcount := if sp.refcount == 0 then 0xFFFF_FFFF else sp.refcount - 1)
  }

  predicate Flushable(s: State, t: Tid) {
    && t in s.threads && s.threads[t].moving.Flushing? && s.threads[t].moving.chain != []
    && Mapped(s.heap, s.threads[t].moving.chain[0]) && SpanAt(s.heap, s.threads[t].moving.chain[0]) in s.heap.spans
  }

  /** One pass of the loop of return_objs_to_centralcache. */
  function ReturnOne(s: State, t: Tid): State
    requires Flushable(s, t)
  {
    var th := s.threads[t];
    var a := th.moving.chain[0];
    var d := SpanAt(s.heap, a);
    SetThread(s, t, th.(moving := Flushing(th.moving.class_, th.moving.chain[1..])))
      .(heap := Tweak(s.heap, d, Grown(s.heap.spans[d], a)))
  }

  /** Unlinks `d` through the idle head and pushes it on the list. Found idle it is moved; but
      its location is not reset then, so it may be on the list already: as its head it takes
      the head along, and the rest of the ring is lost to both heads. */
  function Refile(cl: ClassRings, d: Ptr): ClassRings {
    if d in cl.idle then cl.(idle := Without(cl.idle, d), list := [d] + cl.list)
    else if cl.list != [] && cl.list[0] == d then ClassRings([d], cl.idle, cl.lost + ToSet(cl.list[1..]))
    else if d in cl.list then cl.(list := [d] + Without(cl.list, d))
    else cl.(list := [d] + cl.list, lost := cl.lost - {d})
  }

  /** Unlinks `d` from whatever ring it is on. */
  function Unfile(cl: ClassRings, d: Ptr): ClassRings {
    cl.(list := Without(cl.list, d), lost := cl.lost - {d})
  }

  /** The list the span `d` of the last slot is filed on, once the loop is over. */
  function Refiled(s: State, c: nat, d: Ptr): ClassRings
    requires c < |s.classes| && d in s.heap.spans
  {
    var sp := s.heap.spans[d];
    if sp.loc == CentralIdle && sp.refcount != sp.objLen then Refile(s.classes[c], d) else s.classes[c]
  }

  /** Gives the span `d` back to the page heap. */
  function Release(s: State, c: nat, d: Ptr): State
    requires |s.heap.rings| == 256 && c < |s.classes| && d in s.heap.spans
  {
    s.(heap := ReturnSpan(s.heap, d), classes := s.classes[c := Unfile(s.classes[c], d)])
  }

  /** What follows the loop: refiling the last span, and returning it if all slots are home. */
  function Settle(s: State, c: nat, d: Ptr): State
    requires |s.heap.rings| == 256 && c < |s.classes| && d in s.heap.spans
  {
    var s1 := s.(classes := s.classes[c := Refiled(s, c, d)]);
    if s1.heap.spans[d].refcount == 0 then Release(s1, c, d) else s1
  }

  function Done(s: State, t: Tid): State
    requires t in s.threads
  {
    SetThread(s, t, s.threads[t].(moving := Nothing))
  }

  // ----- invariant ----------------------------------------------------------

  /** `d` has been cut into slots. */
  predicate Central(h: Heap, d: Ptr) {
    d in h.spans && h.spans[d].objsSize > 0
  }

  predicate IsClass(c: int) {
    0 <= c < CLASSES
  }

  predicate ClassSize(z: nat) {
    IsClass(GetIndex(z)) && IndexToSize(GetIndex(z)) == z
  }

  /** The free slots are different slots of the span; with those lent they make all of them.
      Returned slots are counted again in `objLen`, so that only bounds the number of slots. */
  ghost predicate SlotsOk(sp: Span)
    requires sp.objsSize > 0
  {
    && NoDup(sp.objs)
    && (forall a :: a in sp.objs ==> a in SlotsOf(sp))
    && |sp.objs| + sp.refcount == |SlotsOf(sp)| <= sp.objLen
  }

  ghost predicate SpanOk(h: Heap, d: Ptr) {
    && Central(h, d) && Held(h, d)
    && h.spans[d].pageSize == BATCH && ClassSize(h.spans[d].objsSize)
    && SlotsOk(h.spans[d])
  }

  ghost predicate SpansOk(h: Heap) {
    forall d :: Central(h, d) ==> SpanOk(h, d)
  }

  /** A span that is not cut has no slots. */
  ghost predicate UncutClean(h: Heap) {
    forall d :: d in h.spans && !Central(h, d) ==> Clean(h.spans[d])
  }

  predicate InClass(cl: ClassRings, d: Ptr) {
    d in cl.list || d in cl.idle || d in cl.lost
  }

  ghost predicate ClassOk(h: Heap, cl: ClassRings, c: nat) {
    && NoDup(cl.list) && NoDup(cl.idle)
    && (forall d :: d in cl.list ==> d !in cl.idle && d !in cl.lost)
    && (forall d :: d in cl.idle ==> d !in cl.lost && d in h.spans && h.spans[d].loc == CentralIdle)
    && (forall d :: InClass(cl, d) <==> Central(h, d) && GetIndex(h.spans[d].objsSize) == c)
  }

  ghost predicate FilingOk(h: Heap, classes: seq<ClassRings>) {
    |classes| == CLASSES && forall c :: 0 <= c < CLASSES ==> ClassOk(h, classes[c], c)
  }

  /** `a` is a slot of class `c`, as the page map has it. */
  predicate Lent(h: Heap, a: Addr, c: int) {
    && Mapped(h, a) && Central(h, SpanAt(h, a))
    && GetIndex(h.spans[SpanAt(h, a)].objsSize) == c
    && a in SlotsOf(h.spans[SpanAt(h, a)])
  }

  /** The limit starts at 1 and doubles in the small classes, grows by 1 in the others. */
  predicate SlowStart(c: nat, max: nat) {
    1 <= max <= MAX_FETCH && (c <= 22 ==> max in {1, 2, 4, 8, 16, 32})
  }

  ghost predicate ChainOk(h: Heap, chain: seq<Addr>, c: nat) {
    NoDup(chain) && forall a :: a in chain ==> Lent(h, a, c)
  }

  ghost predicate ListOk(h: Heap, l: ThreadList, c: nat) {
    l.objLen == |l.objs| <= l.maxLength && SlowStart(c, l.maxLength) && ChainOk(h, l.objs, c)
  }

  ghost predicate MovingOk(h: Heap, th: Thread)
    requires |th.lists| == CLASSES
  {
    th.moving != Nothing ==>
      var c := th.moving.class_;
      && c < CLASSES && th.lists[c].objs == [] && ChainOk(h, th.moving.chain, c)
      && (th.moving.Fetched? ==> 1 <= |th.moving.chain| <= th.lists[c].maxLength)
  }

  ghost predicate ThreadOk(h: Heap, th: Thread) {
    && |th.lists| == CLASSES
    && (forall c :: 0 <= c < CLASSES ==> ListOk(h, th.lists[c], c))
    && MovingOk(h, th)
  }

  ghost predicate ThreadsOk(h: Heap, threads: map<Tid, Thread>) {
    forall t :: t in threads ==> ThreadOk(h, threads[t])
  }

  /** A block of whole pages: the start of a span in use that was not cut into slots. */
  ghost predicate LargeBlock(h: Heap, a: Addr) {
    && Mapped(h, a) && Held(h, SpanAt(h, a))
    && Clean(h.spans[SpanAt(h, a)]) && h.spans[SpanAt(h, a)].start == a
  }

  ghost predicate LiveAt(h: Heap, a: Addr, size: nat) {
    && size >= 1
    && (size <= THRESH_ALLOC ==> Lent(h, a, GetIndex(size)))
    && (size > THRESH_ALLOC ==> LargeBlock(h, a))
  }

  ghost predicate LiveOk(h: Heap, live: map<Addr, nat>) {
    forall a :: a in live ==> LiveAt(h, a, live[a])
  }

  /** Every span in use is cut into slots or is a live block of pages. */
  ghost predicate CoverOk(h: Heap, live: map<Addr, nat>) {
    forall d :: Held(h, d) ==> Central(h, d) || (h.spans[d].start in live && live[h.spans[d].start] > THRESH_ALLOC)
  }

  /** The places a block can be in. */
  datatype Place = Free(span: Ptr) | Cached(tid: Tid, class_: nat) | OnTheWay(tid: Tid) | User

  predicate At(s: State, a: Addr, p: Place) {
    match p
    case Free(d) => d in s.heap.spans && a in s.heap.spans[d].objs
    case Cached(t, c) => t in s.threads && c < |s.threads[t].lists| && a in s.threads[t].lists[c].objs
    case OnTheWay(t) => t in s.threads && s.threads[t].moving != Nothing && a in s.threads[t].moving.chain
    case User => a in s.live
  }

  ghost predicate Unique(s: State) {
    forall a, p, q :: At(s, a, p) && At(s, a, q) ==> p == q
  }

  ghost predicate Somewhere(s: State, a: Addr) {
    exists p :: At(s, a, p)
  }

  ghost predicate Complete(s: State) {
    forall d, a :: Central(s.heap, d) && a in SlotsOf(s.heap.spans[d]) ==> Somewhere(s, a)
  }

  ghost predicate Inv(s: State) {
    && s.heap.base % 4096 == 0 && HeapInv(s.heap)
    && SpansOk(s.heap) && UncutClean(s.heap) && FilingOk(s.heap, s.classes)
    && ThreadsOk(s.heap, s.threads) && LiveOk(s.heap, s.live) && CoverOk(s.heap, s.live)
    && Unique(s) && Complete(s)
  }

  // ----- slots and the page map ---------------------------------------------

  lemma PageOfOffset(base: nat, first: int, n: nat, a: nat)
    requires base % 4096 == 0 && base + 4096 * first <= a < base + 4096 * (first + n)
    ensures first <= a / 4096 - base / 4096 < first + n
  {
  }

  lemma SlotMapped(h: Heap, d: Ptr, a: Addr)
    requires h.base % 4096 == 0 && Owns(h, d) && StartOk(h, h.spans[d]) && Central(h, d)
    requires a in SlotsOf(h.spans[d])
    ensures Mapped(h, a) && SpanAt(h, a) == d
    ensures h.spans[d].start <= a && a + h.spans[d].objsSize <= SpanEnd(h.spans[d])
  {
    var sp := h.spans[d];
    CarveSpaced(sp.start, SpanEnd(sp), sp.objsSize);
    PageOfOffset(h.base, sp.pageId, sp.pageSize, a);
    assert InRange(sp, PageIndex(h, a));
  }

  /** `d` covers the same pages with slots of the same size in both. */
  predicate SameShape(a: Span, b: Span) {
    a.start == b.start && a.pageId == b.pageId && a.pageSize == b.pageSize && a.objsSize == b.objsSize
  }

  lemma LentKept(h: Heap, h': Heap, a: Addr, c: int)
    requires MapOk(h) && Lent(h, a, c) && h'.base == h.base
    requires Owns(h', SpanAt(h, a)) && SameShape(h.spans[SpanAt(h, a)], h'.spans[SpanAt(h, a)])
    ensures Lent(h', a, c) && SpanAt(h', a) == SpanAt(h, a)
  {
    assert InRange(h.spans[SpanAt(h, a)], PageIndex(h, a));
    assert InRange(h'.spans[SpanAt(h, a)], PageIndex(h, a));
  }

  ghost predicate Carries(h: Heap, h': Heap, x: Ptr) {
    Owns(h', x) && x in h.spans && SameShape(h.spans[x], h'.spans[x])
  }

  /** The span of every slot that is out keeps its pages and its shape in `h'`. */
  ghost predicate OutCarried(s: State, h': Heap) {
    && h'.base == s.heap.base
    && forall a, p :: At(s, a, p) && !p.Free? && Mapped(s.heap, a) && Central(s.heap, SpanAt(s.heap, a))
                      ==> Carries(s.heap, h', SpanAt(s.heap, a))
  }

  lemma CarryChain(s: State, h': Heap, chain: seq<Addr>, c: nat, p: Place)
    requires MapOk(s.heap) && OutCarried(s, h') && ChainOk(s.heap, chain, c) && !p.Free?
    requires forall a :: a in chain ==> At(s, a, p)
    ensures ChainOk(h', chain, c)
  {
    forall a | a in chain
      ensures Lent(h', a, c)
    {
      assert Lent(s.heap, a, c);
      LentKept(s.heap, h', a, c);
    }
  }

  lemma CarryThread(s: State, h': Heap, t: Tid)
    requires MapOk(s.heap) && OutCarried(s, h') && t in s.threads && ThreadOk(s.heap, s.threads[t])
    ensures ThreadOk(h', s.threads[t])
  {
    var th := s.threads[t];
    forall c | 0 <= c < CLASSES
      ensures ListOk(h', th.lists[c], c)
    {
      assert ListOk(s.heap, th.lists[c], c);
      CarryChain(s, h', th.lists[c].objs, c, Cached(t, c));
    }
    if th.moving != Nothing {
      CarryChain(s, h', th.moving.chain, th.moving.class_, OnTheWay(t));
    }
  }

  lemma CarryThreads(s: State, h': Heap)
    requires MapOk(s.heap) && OutCarried(s, h') && ThreadsOk(s.heap, s.threads)
    ensures ThreadsOk(h', s.threads)
  {
    forall t | t in s.threads
      ensures ThreadOk(h', s.threads[t])
    {
      CarryThread(s, h', t);
    }
  }

  lemma CarryLive(s: State, h': Heap)
    requires MapOk(s.heap) && OutCarried(s, h') && LiveOk(s.heap, s.live)
    requires forall a :: a in s.live && LargeBlock(s.heap, a) ==>
               Held(h', SpanAt(s.heap, a)) && h'.spans[SpanAt(s.heap, a)] == s.heap.spans[SpanAt(s.heap, a)]
    ensures LiveOk(h', s.live)
  {
    forall a | a in s.live
      ensures LiveAt(h', a, s.live[a])
    {
      assert At(s, a, User);
      if s.live[a] <= THRESH_ALLOC {
        LentKept(s.heap, h', a, GetIndex(s.live[a]));
      } else {
        assert LargeBlock(s.heap, a);
        assert InRange(s.heap.spans[SpanAt(s.heap, a)], PageIndex(s.heap, a));
        assert InRange(h'.spans[SpanAt(s.heap, a)], PageIndex(h', a));
      }
    }
  }

  // ----- moving slots between places ----------------------------------------

  /** The blocks in `moved` end up at `to`, all others stay where they are. */
  ghost predicate Moved(s: State, s': State, moved: seq<Addr>, to: Place) {
    forall a, p :: At(s', a, p) <==> if a in moved then p == to else At(s, a, p)
  }

  lemma MovedKeepsPlaces(s: State, s': State, moved: seq<Addr>, to: Place)
    requires Unique(s) && Complete(s) && Moved(s, s', moved, to)
    requires forall d :: Central(s'.heap, d) ==> Central(s.heap, d) && SameShape(s.heap.spans[d], s'.heap.spans[d])
    ensures Unique(s') && Complete(s')
  {
    forall d, a | Central(s'.heap, d) && a in SlotsOf(s'.heap.spans[d])
      ensures Somewhere(s', a)
    {
      if a in moved {
        assert At(s', a, to);
      } else {
        assert Somewhere(s, a);
        var p :| At(s, a, p);
        assert At(s', a, p);
      }
    }
  }

  // ----- rewriting the slot fields of one span ------------------------------

  /** `h'` is `h` but for the slot list, counters and location of the carved span `d`. */
  ghost predicate Reslots(h: Heap, h': Heap, d: Ptr, sp: Span) {
    Central(h, d) && SameShape(h.spans[d], sp) && h' == Tweak(h, d, sp)
  }

  lemma ReslotHeap(h: Heap, h': Heap, d: Ptr, sp: Span)
    requires HeapInv(h) && SpansOk(h) && UncutClean(h) && Reslots(h, h', d, sp) && SlotsOk(sp)
    ensures HeapInv(h') && SpansOk(h') && UncutClean(h')
    ensures forall x :: Held(h', x) <==> Held(h, x)
    ensures forall x :: Central(h', x) <==> Central(h, x)
  {
    assert SpanOk(h, d);
    CleanHeldOk(h, d, sp);
    forall x | Central(h', x)
      ensures SpanOk(h', x)
    {
      assert SpanOk(h, x);
    }
  }

  lemma ReslotRest(s: State, h': Heap, d: Ptr, sp: Span)
    requires Inv(s) && Reslots(s.heap, h', d, sp) && SlotsOk(sp)
    ensures ThreadsOk(h', s.threads) && LiveOk(h', s.live) && CoverOk(h', s.live)
  {
    ReslotHeap(s.heap, h', d, sp);
    forall x | Central(s.heap, x)
      ensures Carries(s.heap, h', x)
    {
      assert SpanOk(s.heap, x);
      assert Held(h', x);
    }
    CarryThreads(s, h');
    CarryLive(s, h');
  }

  // ----- cutting a fresh span into slots ------------------------------------

  /** Where a block is says which span it is in. */
  lemma PlaceSpan(s: State, a: Addr, p: Place)
    requires Inv(s) && At(s, a, p)
    ensures Mapped(s.heap, a) && Held(s.heap, SpanAt(s.heap, a))
    ensures p.Free? ==> SpanAt(s.heap, a) == p.span && Central(s.heap, p.span) && a in SlotsOf(s.heap.spans[p.span])
    ensures p.Cached? ==> Lent(s.heap, a, p.class_)
    ensures p.OnTheWay? ==> Lent(s.heap, a, s.threads[p.tid].moving.class_)
    ensures p.User? ==> LiveAt(s.heap, a, s.live[a])
  {
    match p
    case Free(d) =>
      FreeSpan(s.heap, d, a);
    case Cached(t, c) =>
      assert ThreadOk(s.heap, s.threads[t]) && ListOk(s.heap, s.threads[t].lists[c], c);
      assert SpanOk(s.heap, SpanAt(s.heap, a));
    case OnTheWay(t) =>
      assert ThreadOk(s.heap, s.threads[t]);
      assert SpanOk(s.heap, SpanAt(s.heap, a));
    case User =>
      assert LiveAt(s.heap, a, s.live[a]);
      if s.live[a] <= THRESH_ALLOC {
        assert SpanOk(s.heap, SpanAt(s.heap, a));
      }
  }

  lemma FreeSpan(h: Heap, d: Ptr, a: Addr)
    requires h.base % 4096 == 0 && HeapInv(h) && SpansOk(h) && UncutClean(h) && d in h.spans && a in h.spans[d].objs
    ensures SpanOk(h, d) && a in SlotsOf(h.spans[d]) && Mapped(h, a) && SpanAt(h, a) == d
  {
    assert Central(h, d);
    assert SpanOk(h, d);
    SlotMapped(h, d, a);
  }

  /** Fetching a span for some use of it: all that is in use stays as it is. */
  lemma FetchCarries(s: State, h: Heap, d: Ptr)
    requires Inv(s) && HeapInv(h) && Keeps(s.heap, h, {d}) && Held(h, d) && Clean(h.spans[d])
    ensures forall x :: Central(h, x) <==> Central(s.heap, x)
    ensures forall x :: Central(h, x) ==> Held(h, x) && h.spans[x] == s.heap.spans[x]
    ensures SpansOk(h) && UncutClean(h) && FilingOk(h, s.classes)
  {
    assert forall x :: Central(s.heap, x) ==> SpanOk(s.heap, x);
    forall x | Central(h, x)
      ensures SpanOk(h, x)
    {
      assert SpanOk(s.heap, x);
    }
    forall c | 0 <= c < CLASSES
      ensures ClassOk(h, s.classes[c], c)
    {
      assert ClassOk(s.heap, s.classes[c], c);
    }
  }

  lemma FetchCarriesOut(s: State, h: Heap, d: Ptr)
    requires Inv(s) && HeapInv(h) && Keeps(s.heap, h, {d}) && Held(h, d) && Clean(h.spans[d])
    ensures OutCarried(s, h) && ThreadsOk(h, s.threads) && LiveOk(h, s.live)
    ensures forall a, p :: At(s, a, p) ==> Mapped(h, a) && SpanAt(h, a) != d
  {
    FetchCarries(s, h, d);
    assert OutCarried(s, h);
    CarryThreads(s, h);
    CarryLive(s, h);
    forall a, p | At(s, a, p)
      ensures Mapped(h, a) && SpanAt(h, a) != d
    {
      PlaceSpan(s, a, p);
      var x := SpanAt(s.heap, a);
      assert InRange(s.heap.spans[x], PageIndex(s.heap, a));
      assert Held(h, x) && InRange(h.spans[x], PageIndex(h, a));
    }
  }

  /** A clean span of a batch of pages, cut for class `c`. */
  lemma CarvedOk(sp: Span, c: nat)
    requires Clean(sp) && sp.pageSize == BATCH && c < CLASSES
    ensures ClassSize(IndexToSize(c)) && GetIndex(IndexToSize(c)) == c
    ensures var cut := Carved(sp, IndexToSize(c));
            cut.objsSize == IndexToSize(c) && SlotsOk(cut) && cut.objs != [] && forall a :: a in SlotsOf(cut) ==> a in cut.objs
  {
    var z := IndexToSize(c);
    ClassRoundTrip(c);
    var cut := Carved(sp, z);
    var slots := SlotsOf(cut);
    assert slots == SlotsOf(sp.(objsSize := z));
    CarveSpaced(cut.start, SpanEnd(cut), z);
    ReversedNoDup(slots);
    assert cut.objs == Reversed(slots);
    assert |slots| >= 1;
  }

  lemma BatchHeap(h: Heap, d: Ptr, c: nat)
    requires HeapInv(h) && SpansOk(h) && UncutClean(h) && Held(h, d) && Clean(h.spans[d])
    requires h.spans[d].pageSize == BATCH && c < CLASSES && IndexToSize(c) > 0
    ensures var h2 := Tweak(h, d, Carved(h.spans[d], IndexToSize(c)));
            && HeapInv(h2) && SpansOk(h2) && UncutClean(h2)
            && (forall x :: Held(h2, x) <==> Held(h, x))
            && (forall x :: Central(h2, x) <==> Central(h, x) || x == d)
  {
    var cut := Carved(h.spans[d], IndexToSize(c));
    var h2 := Tweak(h, d, cut);
    CarvedOk(h.spans[d], c);
    CleanHeldOk(h, d, cut);
    forall x | Central(h2, x)
      ensures SpanOk(h2, x)
    {
      if x != d {
        assert SpanOk(h, x);
      }
    }
  }

  lemma BatchFiling(h: Heap, classes: seq<ClassRings>, d: Ptr, c: nat)
    requires FilingOk(h, classes) && !Central(h, d) && d in h.spans && c < CLASSES
    requires Clean(h.spans[d]) && h.spans[d].pageSize == BATCH && IndexToSize(c) > 0
    ensures FilingOk(Tweak(h, d, Carved(h.spans[d], IndexToSize(c))), classes[c := classes[c].(list := [d] + classes[c].list)])
  {
    var h2 := Tweak(h, d, Carved(h.spans[d], IndexToSize(c)));
    CarvedOk(h.spans[d], c);
    var classes' := classes[c := classes[c].(list := [d] + classes[c].list)];
    forall k | 0 <= k < CLASSES
      ensures ClassOk(h2, classes'[k], k)
    {
      assert ClassOk(h, classes[k], k);
      assert !InClass(classes[k], d);
      ConsNoDup(d, classes[k].list);
    }
  }

  lemma BatchOut(s: State, h: Heap, d: Ptr, c: nat)
    requires Inv(s) && HeapInv(h) && Keeps(s.heap, h, {d}) && Held(h, d) && Clean(h.spans[d])
    requires h.spans[d].pageSize == BATCH && c < CLASSES && IndexToSize(c) > 0
    ensures var h2 := Tweak(h, d, Carved(h.spans[d], IndexToSize(c)));
            ThreadsOk(h2, s.threads) && LiveOk(h2, s.live) && CoverOk(h2, s.live)
  {
    var h2 := Tweak(h, d, Carved(h.spans[d], IndexToSize(c)));
    FetchCarries(s, h, d);
    BatchHeap(h, d, c);
    forall x | Central(s.heap, x)
      ensures Carries(s.heap, h2, x)
    {
      assert Held(h2, x);
    }
    CarryThreads(s, h2);
    CarryLive(s, h2);
  }

  /** A slot of the new batch was nowhere before. */
  lemma BatchUnique(s: State, h: Heap, d: Ptr, c: nat)
    requires Inv(s) && HeapInv(h) && Keeps(s.heap, h, {d}) && Held(h, d) && Clean(h.spans[d])
    requires h.spans[d].pageSize == BATCH && c < CLASSES && IndexToSize(c) > 0
    ensures Unique(AddBatch(s, h, d, c))
  {
    var s' := AddBatch(s, h, d, c);
    FetchCarries(s, h, d);
    FetchCarriesOut(s, h, d);
    forall a, p | At(s', a, p)
      ensures p == Free(d) ==> Mapped(h, a) && SpanAt(h, a) == d
      ensures p != Free(d) ==> At(s, a, p)
    {
      if p == Free(d) {
        BatchSlot(h, d, c, a);
      } else if p.Free? {
        assert Central(h, p.span);
      }
    }
  }

  lemma BatchSlot(h: Heap, d: Ptr, c: nat, a: Addr)
    requires h.base % 4096 == 0 && Held(h, d) && Clean(h.spans[d])
    requires h.spans[d].pageSize == BATCH && c < CLASSES && IndexToSize(c) > 0
    requires a in Carved(h.spans[d], IndexToSize(c)).objs
    ensures Mapped(h, a) && SpanAt(h, a) == d
  {
    var cut := Carved(h.spans[d], IndexToSize(c));
    CarvedOk(h.spans[d], c);
    CarveSpaced(cut.start, SpanEnd(cut), cut.objsSize);
    PageOfOffset(h.base, cut.pageId, cut.pageSize, a);
    assert InRange(h.spans[d], PageIndex(h, a));
  }

  lemma BatchComplete(s: State, h: Heap, d: Ptr, c: nat)
    requires Inv(s) && HeapInv(h) && Keeps(s.heap, h, {d}) && Held(h, d) && Clean(h.spans[d])
    requires h.spans[d].pageSize == BATCH && c < CLASSES && IndexToSize(c) > 0
    ensures Complete(AddBatch(s, h, d, c))
  {
    var s' := AddBatch(s, h, d, c);
    FetchCarries(s, h, d);
    CarvedOk(h.spans[d], c);
    forall x, a | Central(s'.heap, x) && a in SlotsOf(s'.heap.spans[x])
      ensures Somewhere(s', a)
    {
      if x == d {
        assert At(s', a, Free(d));
      } else {
        assert Somewhere(s, a);
        var p :| At(s, a, p);
        assert At(s', a, p);
      }
    }
  }

  lemma AddBatchOk(s: State, h: Heap, d: Ptr, c: nat)
    requires Inv(s) && HeapInv(h) && Keeps(s.heap, h, {d}) && Held(h, d) && Clean(h.spans[d])
    requires h.spans[d].pageSize == BATCH && c < CLASSES
    ensures Inv(AddBatch(s, h, d, c)) && AddBatch(s, h, d, c).heap.spans[d].objs != []
  {
    ClassRoundTrip(c);
    CarvedOk(h.spans[d], c);
    FetchCarries(s, h, d);
    BatchHeap(h, d, c);
    BatchFiling(h, s.classes, d, c);
    BatchOut(s, h, d, c);
    BatchUnique(s, h, d, c);
    BatchComplete(s, h, d, c);
  }

  lemma ClassesReady(s: State, c: nat)
    requires Inv(s) && c < CLASSES
    ensures CentralReady(s, c)
  {
    assert ClassOk(s.heap, s.classes[c], c);
    assert forall d :: d in s.classes[c].list ==> InClass(s.classes[c], d);
  }

  /** Looking for a span to take from keeps everything, and the span found has a free slot. */
  lemma GetSpanCentralOk(s: State, c: nat) returns (s': State, d: Ptr)
    requires Inv(s) && c < CLASSES && (ClassesReady(s, c); BatchFits(s, c))
    ensures CentralReady(s, c) && GetSpanCentral(s, c) == (s', d)
    ensures Inv(s') && s'.threads == s.threads && s'.live == s.live
    ensures d in s'.classes[c].list && d in s'.heap.spans && s'.heap.spans[d].objs != []
  {
    ClassesReady(s, c);
    var k := FirstWithSlots(s.heap.spans, s.classes[c].list);
    if k < |s.classes[c].list| {
      s', d := s, s.classes[c].list[k];
    } else {
      var h, d1 := FetchSpanOk(s.heap, BATCH);
      AddBatchOk(s, h, d1, c);
      s', d := AddBatch(s, h, d1, c), d1;
    }
  }

  // ----- fetching slots from the central cache ------------------------------

  lemma FetchCountExact(sp: Span, num: nat)
    requires sp.objsSize > 0 && SlotsOk(sp)
    ensures FetchCount(sp, num) == Min(num, |sp.objs|)
  {
  }

  lemma ShrunkOk(sp: Span, n: nat)
    requires sp.objsSize > 0 && SlotsOk(sp) && n <= |sp.objs|
    ensures SlotsOk(Shrunk(sp, n)) && SameShape(sp, Shrunk(sp, n)) && NoDup(sp.objs[..n])
    ensures forall a :: a in sp.objs <==> a in sp.objs[..n] || a in Shrunk(sp, n).objs
    ensures forall a :: a in sp.objs[..n] ==> a !in Shrunk(sp, n).objs
  {
    assert sp.objs == sp.objs[..n] + sp.objs[n..];
    assert SlotsOf(Shrunk(sp, n)) == SlotsOf(sp);
  }

  /** Two counters that agree mean an empty list. */
  lemma IdleEmpty(sp: Span)
    requires sp.objsSize > 0 && SlotsOk(sp) && sp.refcount == sp.objLen
    ensures sp.objs == []
  {
  }

  lemma FilingReslot(h: Heap, h': Heap, classes: seq<ClassRings>, d: Ptr, sp: Span)
    requires FilingOk(h, classes) && Reslots(h, h', d, sp)
    requires sp.loc == h.spans[d].loc || sp.loc == CentralIdle
    ensures FilingOk(h', classes)
  {
    forall k | 0 <= k < CLASSES
      ensures ClassOk(h', classes[k], k)
    {
      assert ClassOk(h, classes[k], k);
    }
  }

  lemma ToIdle(h: Heap, cl: ClassRings, c: nat, d: Ptr)
    requires ClassOk(h, cl, c) && d in cl.list && d in h.spans && h.spans[d].loc == CentralIdle
    ensures ClassOk(h, cl.(list := Without(cl.list, d), idle := [d] + cl.idle), c)
  {
    var cl' := cl.(list := Without(cl.list, d), idle := [d] + cl.idle);
    WithoutNoDup(cl.list, d);
    ConsNoDup(d, cl.idle);
    assert forall x :: InClass(cl', x) <==> InClass(cl, x);
  }

  lemma SetClass(h: Heap, classes: seq<ClassRings>, c: nat, cl: ClassRings)
    requires FilingOk(h, classes) && c < CLASSES && ClassOk(h, cl, c)
    ensures FilingOk(h, classes[c := cl])
  {
  }

  lemma ShrinkFiling(s: State, c: nat, d: Ptr, n: nat)
    requires FilingOk(s.heap, s.classes) && c < CLASSES && d in s.classes[c].list
    requires Central(s.heap, d) && n <= |s.heap.spans[d].objs|
    ensures var s' := Shrink(s, c, d, n); FilingOk(s'.heap, s'.classes)
  {
    var s' := Shrink(s, c, d, n);
    FilingReslot(s.heap, s'.heap, s.classes, d, s'.heap.spans[d]);
    if s'.heap.spans[d].refcount == s'.heap.spans[d].objLen {
      ToIdle(s'.heap, s.classes[c], c, d);
    }
    SetClass(s'.heap, s.classes, c, s'.classes[c]);
  }

  lemma ListedOk(s: State, c: nat, d: Ptr)
    requires Inv(s) && c < CLASSES && d in s.classes[c].list
    ensures SpanOk(s.heap, d) && GetIndex(s.heap.spans[d].objsSize) == c
  {
    assert ClassOk(s.heap, s.classes[c], c) && InClass(s.classes[c], d);
  }

  lemma ShrinkHeap(s: State, d: Ptr, c: nat, n: nat)
    requires Inv(s) && c < CLASSES && SpanOk(s.heap, d) && n <= |s.heap.spans[d].objs|
    ensures var s' := Shrink(s, c, d, n);
            && HeapInv(s'.heap) && SpansOk(s'.heap) && UncutClean(s'.heap)
            && SpanOk(s'.heap, d) && SameShape(s.heap.spans[d], s'.heap.spans[d])
            && forall x :: Central(s'.heap, x) <==> Central(s.heap, x)
  {
    var s' := Shrink(s, c, d, n);
    ShrunkOk(s.heap.spans[d], n);
    ReslotHeap(s.heap, s'.heap, d, s'.heap.spans[d]);
  }

  lemma ShrinkRest(s: State, d: Ptr, c: nat, n: nat)
    requires Inv(s) && c < CLASSES && SpanOk(s.heap, d) && n <= |s.heap.spans[d].objs|
    ensures var h' := Shrink(s, c, d, n).heap;
            ThreadsOk(h', s.threads) && LiveOk(h', s.live) && CoverOk(h', s.live)
  {
    var s' := Shrink(s, c, d, n);
    ShrunkOk(s.heap.spans[d], n);
    ReslotRest(s, s'.heap, d, s'.heap.spans[d]);
  }

  lemma LimitOk(c: nat, max: nat)
    requires SlowStart(c, max)
    ensures SlowStart(c, GrownLimit(c, max)) && 1 <= FetchLimit(max) <= max <= GrownLimit(c, max)
    ensures 1 <= max <= 32 && FetchLimit(max) == max
    ensures GrownLimit(c, max) == if max == 32 then 32 else if c <= 22 then 2 * max else max + 1
  {
  }

  /** A thread with nothing of class `c` takes over a chain of slots of that class. */
  lemma ChainTaken(h: Heap, th: Thread, c: nat, chain: seq<Addr>)
    requires ThreadOk(h, th) && c < CLASSES && th.lists[c].objs == [] && th.moving == Nothing
    requires ChainOk(h, chain, c) && 1 <= |chain| <= FetchLimit(th.lists[c].maxLength)
    ensures ThreadOk(h, WithChain(th, c, chain))
  {
    var th' := WithChain(th, c, chain);
    assert ListOk(h, th.lists[c], c);
    LimitOk(c, th.lists[c].maxLength);
    forall k | 0 <= k < CLASSES
      ensures ListOk(h, th'.lists[k], k)
    {
      assert ListOk(h, th.lists[k], k);
    }
  }

  lemma SlotsLent(h: Heap, d: Ptr, chain: seq<Addr>, c: nat)
    requires h.base % 4096 == 0 && SpanOk(h, d) && GetIndex(h.spans[d].objsSize) == c && NoDup(chain)
    requires forall a :: a in chain ==> a in SlotsOf(h.spans[d])
    ensures ChainOk(h, chain, c)
  {
    forall a | a in chain
      ensures Lent(h, a, c)
    {
      SlotMapped(h, d, a);
    }
  }

  /** Slots go from the span `d` to the thread `t`. */
  lemma DetachMoves(s: State, t: Tid, c: nat, d: Ptr, n: nat)
    requires Unique(s) && c < |s.classes| && Central(s.heap, d) && SlotsOk(s.heap.spans[d]) && n <= |s.heap.spans[d].objs|
    requires Idle(s, t) && c < CLASSES
    ensures Moved(s, SetThread(Shrink(s, c, d, n), t, WithChain(s.threads[t], c, s.heap.spans[d].objs[..n])),
                  s.heap.spans[d].objs[..n], OnTheWay(t))
  {
    var chain := s.heap.spans[d].objs[..n];
    var s' := SetThread(Shrink(s, c, d, n), t, WithChain(s.threads[t], c, chain));
    ShrunkOk(s.heap.spans[d], n);
    forall a, p
      ensures At(s', a, p) <==> if a in chain then p == OnTheWay(t) else At(s, a, p)
    {
      if a in chain {
        assert At(s, a, Free(d));
        assert At(s, a, p) ==> p == Free(d);
      }
    }
  }

  /** The chain fetched is never empty and never longer than the thread's limit; it is the
      front of the list of the span found. */
  lemma FetchOk(s: State, t: Tid, c: nat)
    requires Inv(s) && c < CLASSES && Idle(s, t) && s.threads[t].lists[c].objs == [] && (ClassesReady(s, c); BatchFits(s, c))
    ensures CentralReady(s, c) && Inv(Fetch(s, t, c))
  {
    var th := s.threads[t];
    var s1, d := GetSpanCentralOk(s, c);
    ListedOk(s1, c, d);
    var sp := s1.heap.spans[d];
    assert ThreadOk(s.heap, th) && ListOk(s.heap, th.lists[c], c);
    LimitOk(c, th.lists[c].maxLength);
    FetchCountExact(sp, FetchLimit(th.lists[c].maxLength));
    DetachOk(s1, t, c, d, FetchCount(sp, FetchLimit(th.lists[c].maxLength)));
  }

  lemma DetachOk(s: State, t: Tid, c: nat, d: Ptr, n: nat)
    requires Inv(s) && c < CLASSES && d in s.classes[c].list && SpanOk(s.heap, d) && 1 <= n <= |s.heap.spans[d].objs|
    requires Idle(s, t) && s.threads[t].lists[c].objs == [] && n <= FetchLimit(s.threads[t].lists[c].maxLength)
    ensures Inv(SetThread(Shrink(s, c, d, n), t, WithChain(s.threads[t], c, s.heap.spans[d].objs[..n])))
  {
    var s1 := Shrink(s, c, d, n);
    var chain := s.heap.spans[d].objs[..n];
    var s' := SetThread(s1, t, WithChain(s.threads[t], c, chain));
    ListedOk(s, c, d);
    ShrinkHeap(s, d, c, n);
    ShrinkRest(s, d, c, n);
    DetachThreads(s, t, c, d, n);
    ShrinkFiling(s, c, d, n);
    DetachMoves(s, t, c, d, n);
    MovedKeepsPlaces(s, s', chain, OnTheWay(t));
  }

  lemma DetachThreads(s: State, t: Tid, c: nat, d: Ptr, n: nat)
    requires Inv(s) && c < CLASSES && SpanOk(s.heap, d) && GetIndex(s.heap.spans[d].objsSize) == c
    requires 1 <= n <= |s.heap.spans[d].objs|
    requires Idle(s, t) && s.threads[t].lists[c].objs == [] && n <= FetchLimit(s.threads[t].lists[c].maxLength)
    ensures ThreadsOk(Shrink(s, c, d, n).heap, s.threads[t := WithChain(s.threads[t], c, s.heap.spans[d].objs[..n])])
  {
    var h' := Shrink(s, c, d, n).heap;
    var chain := s.heap.spans[d].objs[..n];
    ShrinkHeap(s, d, c, n);
    ShrinkRest(s, d, c, n);
    ShrunkOk(s.heap.spans[d], n);
    SlotsLent(h', d, chain, c);
    ChainTaken(h', s.threads[t], c, chain);
  }

  // ----- steps inside a thread ----------------------------------------------

  /** Steps that leave page heap and central cache alone. */
  lemma LocalOk(s: State, s': State, moved: seq<Addr>, to: Place)
    requires Inv(s) && s'.heap == s.heap && s'.classes == s.classes
    requires Moved(s, s', moved, to)
    requires ThreadsOk(s.heap, s'.threads) && LiveOk(s.heap, s'.live) && CoverOk(s.heap, s'.live)
    ensures Inv(s')
  {
    MovedKeepsPlaces(s, s', moved, to);
  }

  lemma SetListOk(h: Heap, th: Thread, c: nat, l: ThreadList, moving: Moving)
    requires ThreadOk(h, th) && c < CLASSES && ListOk(h, l, c)
    requires moving == Nothing || (moving.Flushing? && moving.class_ == c && l.objs == [] && ChainOk(h, moving.chain, c))
    ensures ThreadOk(h, SetList(th, c, l, moving))
  {
    var th' := SetList(th, c, l, moving);
    forall k | 0 <= k < CLASSES
      ensures ListOk(h, th'.lists[k], k)
    {
      assert ListOk(h, th.lists[k], k);
    }
  }

  lemma InsertMoves(s: State, t: Tid)
    requires Unique(s) && t in s.threads && s.threads[t].moving.Fetched?
    requires s.threads[t].moving.class_ < |s.threads[t].lists|
    ensures Moved(s, Insert(s, t), s.threads[t].moving.chain, Cached(t, s.threads[t].moving.class_))
  {
    var c := s.threads[t].moving.class_;
    var chain := s.threads[t].moving.chain;
    var s' := Insert(s, t);
    forall a, p
      ensures At(s', a, p) <==> if a in chain then p == Cached(t, c) else At(s, a, p)
    {
      if a in chain {
        assert At(s, a, OnTheWay(t));
        assert At(s, a, p) ==> p == OnTheWay(t);
      }
    }
  }

  lemma InsertOk(s: State, t: Tid)
    requires Inv(s) && t in s.threads && s.threads[t].moving.Fetched?
    ensures s.threads[t].moving.class_ < |s.threads[t].lists| && Inv(Insert(s, t))
  {
    var th := s.threads[t];
    assert ThreadOk(s.heap, th);
    var c := th.moving.class_;
    var chain := th.moving.chain;
    var l := th.lists[c];
    var l' := l.(objs := Reversed(chain) + l.objs, objLen := l.objLen + |chain|);
    assert ListOk(s.heap, l', c) by {
      assert ListOk(s.heap, l, c);
      ReversedNoDup(chain);
      assert l'.objs == Reversed(chain);
    }
    SetListOk(s.heap, th, c, l', Nothing);
    InsertMoves(s, t);
    LocalOk(s, Insert(s, t), chain, Cached(t, c));
  }

  lemma PopMoves(s: State, t: Tid, size: nat)
    requires Unique(s) && Idle(s, t) && 0 <= GetIndex(size) < CLASSES
    requires s.threads[t].lists[GetIndex(size)].objs != [] && s.threads[t].lists[GetIndex(size)].objLen > 0
    requires NoDup(s.threads[t].lists[GetIndex(size)].objs)
    ensures Moved(s, Pop(s, t, size), [PopResult(s, t, size)], User)
    ensures PopResult(s, t, size) !in s.live
  {
    var c := GetIndex(size);
    var objs := s.threads[t].lists[c].objs;
    var a0 := PopResult(s, t, size);
    var s' := Pop(s, t, size);
    assert objs == [a0] + objs[1..];
    assert At(s, a0, Cached(t, c));
    assert !At(s, a0, User);
    forall a, p
      ensures At(s', a, p) <==> if a in [a0] then p == User else At(s, a, p)
    {
      if a == a0 {
        assert At(s, a, p) ==> p == Cached(t, c);
      }
    }
  }

  lemma PopOk(s: State, t: Tid, size: nat)
    requires Inv(s) && Idle(s, t) && 0 <= GetIndex(size) < CLASSES && s.threads[t].lists[GetIndex(size)].objs != []
    ensures s.threads[t].lists[GetIndex(size)].objLen > 0 && Inv(Pop(s, t, size))
  {
    var th := s.threads[t];
    var c := GetIndex(size);
    var l := th.lists[c];
    assert ThreadOk(s.heap, th) && ListOk(s.heap, l, c);
    SmallestClass(size);
    SetListOk(s.heap, th, c, l.(objs := l.objs[1..], objLen := l.objLen - 1), Nothing);
    PopMoves(s, t, size);
    LocalOk(s, Pop(s, t, size), [PopResult(s, t, size)], User);
  }

  /** A live block taken back by a thread: the class read off the page map is the class the
      block was handed out for, whoever frees it. */
  lemma LiveSmall(s: State, a: Addr)
    requires Inv(s) && a in s.live
    ensures FreesSmall(s.heap, a) <==> s.live[a] <= THRESH_ALLOC
    ensures s.live[a] <= THRESH_ALLOC ==>
              FreedClass(s.heap, a) == GetIndex(s.live[a]) && IsClass(GetIndex(s.live[a])) && Lent(s.heap, a, GetIndex(s.live[a]))
  {
    assert LiveAt(s.heap, a, s.live[a]);
    SmallestClass(s.live[a]);
    if s.live[a] <= THRESH_ALLOC {
      assert SpanOk(s.heap, SpanAt(s.heap, a));
      SmallestClass(s.heap.spans[SpanAt(s.heap, a)].objsSize);
    }
  }

  /** The blocks that a free puts away, and where. */
  function FreedBlocks(s: State, t: Tid, a: Addr): seq<Addr>
    requires Idle(s, t) && FreesSmall(s.heap, a) && 0 <= FreedClass(s.heap, a) < CLASSES
  {
    var l := s.threads[t].lists[FreedClass(s.heap, a)];
    if l.objLen == l.maxLength then [a] + l.objs else [a]
  }

  function FreedTo(s: State, t: Tid, a: Addr): Place
    requires Idle(s, t) && FreesSmall(s.heap, a) && 0 <= FreedClass(s.heap, a) < CLASSES
  {
    var l := s.threads[t].lists[FreedClass(s.heap, a)];
    if l.objLen == l.maxLength then OnTheWay(t) else Cached(t, FreedClass(s.heap, a))
  }

  lemma FreeMoves(s: State, t: Tid, a: Addr)
    requires Unique(s) && Idle(s, t) && a in s.live && FreesSmall(s.heap, a) && 0 <= FreedClass(s.heap, a) < CLASSES
    ensures Moved(s, FreeSlot(s, t, a), FreedBlocks(s, t, a), FreedTo(s, t, a))
  {
    var c := FreedClass(s.heap, a);
    var l := s.threads[t].lists[c];
    var s' := FreeSlot(s, t, a);
    assert At(s, a, User);
    forall b, p
      ensures At(s', b, p) <==> if b in FreedBlocks(s, t, a) then p == FreedTo(s, t, a) else At(s, b, p)
    {
      if b == a {
        assert At(s, b, p) ==> p == User;
      } else if b in l.objs {
        assert At(s, b, Cached(t, c));
        assert At(s, b, p) ==> p == Cached(t, c);
      }
    }
  }

  lemma FreeThread(s: State, t: Tid, a: Addr)
    requires Inv(s) && Idle(s, t) && a in s.live && s.live[a] <= THRESH_ALLOC
    requires FreesSmall(s.heap, a) && 0 <= FreedClass(s.heap, a) < CLASSES && Lent(s.heap, a, FreedClass(s.heap, a))
    ensures ThreadsOk(s.heap, FreeSlot(s, t, a).threads)
  {
    var th := s.threads[t];
    var c := FreedClass(s.heap, a);
    var l := th.lists[c];
    assert ThreadOk(s.heap, th) && ListOk(s.heap, l, c);
    assert At(s, a, User);
    assert a in l.objs ==> At(s, a, Cached(t, c));
    ConsNoDup(a, l.objs);
    if l.objLen == l.maxLength {
      SetListOk(s.heap, th, c, l.(objs := [], objLen := 0), Flushing(c, [a] + l.objs));
    } else {
      SetListOk(s.heap, th, c, l.(objs := [a] + l.objs, objLen := l.objLen + 1), Nothing);
    }
  }

  lemma FreeSlotOk(s: State, t: Tid, a: Addr)
    requires Inv(s) && Idle(s, t) && a in s.live && s.live[a] <= THRESH_ALLOC
    ensures FreesSmall(s.heap, a) && 0 <= FreedClass(s.heap, a) < CLASSES && Inv(FreeSlot(s, t, a))
  {
    LiveSmall(s, a);
    FreeThread(s, t, a);
    FreeMoves(s, t, a);
    LocalOk(s, FreeSlot(s, t, a), FreedBlocks(s, t, a), FreedTo(s, t, a));
  }

  // ----- slots going back ---------------------------------------------------

  lemma GrownOk(sp: Span, a: Addr)
    requires sp.objsSize > 0 && SlotsOk(sp) && a in SlotsOf(sp) && a !in sp.objs
    ensures sp.refcount > 0 && SlotsOk(Grown(sp, a)) && SameShape(sp, Grown(sp, a))
  {
    CarveSpaced(sp.start, SpanEnd(sp), sp.objsSize);
    ConsNoDup(a, sp.objs);
    Pigeonhole([a] + sp.objs, SlotsOf(sp));
    assert SlotsOf(Grown(sp, a)) == SlotsOf(sp);
  }

  /** The first slot of a chain on its way back is a slot of a carved span and not yet home. */
  lemma FlushableOk(s: State, t: Tid)
    requires Inv(s) && t in s.threads && s.threads[t].moving.Flushing? && s.threads[t].moving.chain != []
    ensures Flushable(s, t)
    ensures var a := s.threads[t].moving.chain[0]; var d := SpanAt(s.heap, a);
            SpanOk(s.heap, d) && a in SlotsOf(s.heap.spans[d]) && a !in s.heap.spans[d].objs
  {
    var a := s.threads[t].moving.chain[0];
    assert At(s, a, OnTheWay(t));
    PlaceSpan(s, a, OnTheWay(t));
    assert SpanOk(s.heap, SpanAt(s.heap, a));
    assert !At(s, a, Free(SpanAt(s.heap, a)));
  }

  lemma ReturnMoves(s: State, t: Tid)
    requires Unique(s) && Flushable(s, t) && NoDup(s.threads[t].moving.chain)
    ensures Moved(s, ReturnOne(s, t), [s.threads[t].moving.chain[0]], Free(SpanAt(s.heap, s.threads[t].moving.chain[0])))
  {
    var chain := s.threads[t].moving.chain;
    var a := chain[0];
    var d := SpanAt(s.heap, a);
    var s' := ReturnOne(s, t);
    assert chain == [a] + chain[1..];
    assert At(s, a, OnTheWay(t));
    forall b, p
      ensures At(s', b, p) <==> if b in [a] then p == Free(d) else At(s, b, p)
    {
      if b == a {
        assert At(s, b, p) ==> p == OnTheWay(t);
      }
    }
  }

  lemma ShorterChain(h: Heap, th: Thread)
    requires ThreadOk(h, th) && th.moving.Flushing? && th.moving.chain != []
    ensures ThreadOk(h, th.(moving := Flushing(th.moving.class_, th.moving.chain[1..])))
  {
  }

  lemma ReturnOneOk(s: State, t: Tid)
    requires Inv(s) && t in s.threads && s.threads[t].moving.Flushing? && s.threads[t].moving.chain != []
    ensures Flushable(s, t) && Inv(ReturnOne(s, t))
  {
    FlushableOk(s, t);
    assert ThreadOk(s.heap, s.threads[t]);
    var a := s.threads[t].moving.chain[0];
    var d := SpanAt(s.heap, a);
    var s' := ReturnOne(s, t);
    var sp := Grown(s.heap.spans[d], a);
    GrownOk(s.heap.spans[d], a);
    ReslotHeap(s.heap, s'.heap, d, sp);
    ReslotRest(s, s'.heap, d, sp);
    FilingReslot(s.heap, s'.heap, s.classes, d, sp);
    ShorterChain(s'.heap, s.threads[t]);
    ReturnMoves(s, t);
    MovedKeepsPlaces(s, s', [a], Free(d));
  }

  /** The whole loop of return_objs_to_centralcache. */
  function ReturnAll(s: State, t: Tid): (r: State)
    requires Inv(s) && t in s.threads && s.threads[t].moving.Flushing?
    decreases |s.threads[t].moving.chain|
  {
    if s.threads[t].moving.chain == [] then s
    else
      ReturnOneOk(s, t);
      ReturnAll(ReturnOne(s, t), t)
  }

  /** The loop leaves carved spans carved, and no slot on the way. */
  lemma {:induction false} ReturnAllOk(s: State, t: Tid)
    requires Inv(s) && t in s.threads && s.threads[t].moving.Flushing?
    ensures var r := ReturnAll(s, t);
            && Inv(r) && t in r.threads && r.threads[t].moving == Flushing(s.threads[t].moving.class_, [])
            && (forall d :: Central(s.heap, d) ==> Central(r.heap, d) && SameShape(s.heap.spans[d], r.heap.spans[d]))
    decreases |s.threads[t].moving.chain|
  {
    if s.threads[t].moving.chain != [] {
      FlushableOk(s, t);
      ReturnOneOk(s, t);
      ReturnAllOk(ReturnOne(s, t), t);
    }
  }

  /** Every slot of the chain to be returned is mapped to a span. */
  predicate Returnable(h: Heap, chain: seq<Addr>) {
    forall a :: a in chain ==> Mapped(h, a) && SpanAt(h, a) in h.spans
  }

  predicate Flushes(s: State, t: Tid) {
    t in s.threads && s.threads[t].moving.Flushing? && Returnable(s.heap, s.threads[t].moving.chain)
  }

  lemma FlushesOn(s: State, t: Tid)
    requires Flushes(s, t) && s.threads[t].moving.chain != []
    ensures Flushable(s, t) && Flushes(ReturnOne(s, t), t)
  {
    var chain := s.threads[t].moving.chain;
    assert chain[0] in chain;
    forall a | a in chain[1..]
      ensures Mapped(ReturnOne(s, t).heap, a) && SpanAt(ReturnOne(s, t).heap, a) in ReturnOne(s, t).heap.spans
    {
      assert a in chain && Mapped(s.heap, a);
    }
  }

  /** The return loop, for a chain that the page map knows. */
  function Returned(s: State, t: Tid): State
    requires Flushes(s, t)
    decreases |s.threads[t].moving.chain|
  {
    if s.threads[t].moving.chain == [] then s
    else
      FlushesOn(s, t);
      Returned(ReturnOne(s, t), t)
  }

  lemma ChainReturnable(s: State, t: Tid)
    requires Inv(s) && t in s.threads && s.threads[t].moving.Flushing?
    ensures Flushes(s, t)
  {
    var th := s.threads[t];
    assert ThreadOk(s.heap, th);
    assert ChainOk(s.heap, th.moving.chain, th.moving.class_);
    forall a | a in th.moving.chain
      ensures Mapped(s.heap, a) && SpanAt(s.heap, a) in s.heap.spans
    {
      assert Lent(s.heap, a, th.moving.class_);
    }
  }

  lemma {:induction false} ReturnedAll(s: State, t: Tid)
    requires Inv(s) && t in s.threads && s.threads[t].moving.Flushing?
    ensures Flushes(s, t) && Returned(s, t) == ReturnAll(s, t)
    decreases |s.threads[t].moving.chain|
  {
    ChainReturnable(s, t);
    if s.threads[t].moving.chain != [] {
      ReturnOneOk(s, t);
      ReturnedAll(ReturnOne(s, t), t);
    }
  }

  lemma {:induction false} CapacityPositive(sp: Span)
    requires sp.pageSize == BATCH && ClassSize(sp.objsSize) && sp.objsSize > 0
    ensures |SlotsOf(sp)| >= 1
  {
    SmallestClass(sp.objsSize);
  }

  lemma RefileOk(h: Heap, cl: ClassRings, c: nat, d: Ptr)
    requires ClassOk(h, cl, c) && InClass(cl, d)
    ensures ClassOk(h, Refile(cl, d), c) && d in Refile(cl, d).list
  {
    var cl' := Refile(cl, d);
    WithoutNoDup(cl.list, d);
    WithoutNoDup(cl.idle, d);
    if cl.list != [] {
      assert cl.list == [cl.list[0]] + cl.list[1..];
    }
    assert forall x :: InClass(cl', x) <==> InClass(cl, x);
    if d in cl.idle {
      ConsNoDup(d, cl.list);
    } else if cl.list != [] && cl.list[0] == d {
    } else if d in cl.list {
      ConsNoDup(d, Without(cl.list, d));
    } else {
      ConsNoDup(d, cl.list);
    }
  }

  /** With no slot lent, every slot of the span is on its own list, so none is anywhere else. */
  lemma AllHome(s: State, d: Ptr)
    requires Inv(s) && Central(s.heap, d) && s.heap.spans[d].refcount == 0
    ensures forall a, p :: a in SlotsOf(s.heap.spans[d]) && At(s, a, p) ==> p == Free(d)
  {
    var sp := s.heap.spans[d];
    assert SpanOk(s.heap, d);
    CarveSpaced(sp.start, SpanEnd(sp), sp.objsSize);
    Pigeonhole(sp.objs, SlotsOf(sp));
    forall a, p | a in SlotsOf(sp) && At(s, a, p)
      ensures p == Free(d)
    {
      assert At(s, a, Free(d));
    }
  }

  lemma ReleaseHeap(s: State, d: Ptr)
    requires Inv(s) && Central(s.heap, d) && s.heap.spans[d].refcount == 0
    ensures var h' := ReturnSpan(s.heap, d);
            && HeapInv(h') && SpansOk(h') && UncutClean(h') && CoverOk(h', s.live)
            && (forall x :: Central(h', x) <==> Central(s.heap, x) && x != d)
            && (forall x :: x in s.heap.spans && x != d ==> h'.spans[x] == s.heap.spans[x])
  {
    assert SpanOk(s.heap, d);
    ReturnSpanOk(s.heap, d);
    var h' := ReturnSpan(s.heap, d);
    forall x | Central(h', x)
      ensures SpanOk(h', x)
    {
      assert SpanOk(s.heap, x);
    }
  }

  lemma ReleaseOut(s: State, d: Ptr)
    requires Inv(s) && Central(s.heap, d) && s.heap.spans[d].refcount == 0
    ensures ThreadsOk(ReturnSpan(s.heap, d), s.threads) && LiveOk(ReturnSpan(s.heap, d), s.live)
  {
    var h' := ReturnSpan(s.heap, d);
    assert SpanOk(s.heap, d);
    ReturnSpanOk(s.heap, d);
    AllHome(s, d);
    forall a, p | At(s, a, p) && !p.Free? && Mapped(s.heap, a) && Central(s.heap, SpanAt(s.heap, a))
      ensures Carries(s.heap, h', SpanAt(s.heap, a))
    {
      PlaceSpan(s, a, p);
      assert Held(h', SpanAt(s.heap, a));
    }
    CarryThreads(s, h');
    CarryLive(s, h');
  }

  lemma ReleaseFiling(h: Heap, h': Heap, classes: seq<ClassRings>, c: nat, d: Ptr)
    requires FilingOk(h, classes) && c < CLASSES && Central(h, d) && GetIndex(h.spans[d].objsSize) == c
    requires d !in classes[c].idle
    requires forall x :: Central(h', x) <==> Central(h, x) && x != d
    requires forall x :: x in h.spans && x != d ==> x in h'.spans && h'.spans[x] == h.spans[x]
    ensures FilingOk(h', classes[c := Unfile(classes[c], d)])
  {
    var classes' := classes[c := Unfile(classes[c], d)];
    forall k | 0 <= k < CLASSES
      ensures ClassOk(h', classes'[k], k)
    {
      assert ClassOk(h, classes[k], k);
      WithoutNoDup(classes[k].list, d);
      assert forall x :: InClass(classes'[k], x) <==> InClass(classes[k], x) && x != d;
    }
  }

  lemma ReleaseGone(s: State, s': State, d: Ptr)
    requires d in s.heap.spans && |s.heap.rings| == 256
    requires s'.heap == ReturnSpan(s.heap, d) && s'.threads == s.threads && s'.live == s.live
    ensures forall a, p :: At(s', a, p) <==> At(s, a, p) && p != Free(d)
  {
    assert s'.heap.spans[d].objs == [];
  }

  lemma ReleasePlaces(s: State, s': State, d: Ptr)
    requires Inv(s) && Central(s.heap, d) && s.heap.spans[d].refcount == 0
    requires s'.heap == ReturnSpan(s.heap, d) && s'.threads == s.threads && s'.live == s.live
    ensures Unique(s') && Complete(s')
  {
    ReleaseGone(s, s', d);
    forall x, a | Central(s'.heap, x) && a in SlotsOf(s'.heap.spans[x])
      ensures Somewhere(s', a)
    {
      assert Central(s.heap, x) && x != d;
      assert Somewhere(s, a);
      var p :| At(s, a, p);
      SlotElsewhere(s, x, a, p, d);
      assert At(s', a, p);
    }
  }

  lemma SlotElsewhere(s: State, x: Ptr, a: Addr, p: Place, d: Ptr)
    requires Inv(s) && Central(s.heap, x) && a in SlotsOf(s.heap.spans[x]) && At(s, a, p) && x != d
    ensures p != Free(d)
  {
    PlaceSpan(s, a, p);
    assert SpanOk(s.heap, x);
    SlotMapped(s.heap, x, a);
  }

  /** Refiling the span of the last slot; afterwards a span with all slots home is not idle. */
  lemma RefiledOk(s: State, c: nat, d: Ptr)
    requires Inv(s) && c < CLASSES && Central(s.heap, d) && GetIndex(s.heap.spans[d].objsSize) == c
    ensures ClassOk(s.heap, Refiled(s, c, d), c)
    ensures s.heap.spans[d].refcount == 0 ==> d !in Refiled(s, c, d).idle
  {
    var sp := s.heap.spans[d];
    assert SpanOk(s.heap, d);
    assert ClassOk(s.heap, s.classes[c], c) && InClass(s.classes[c], d);
    RefileOk(s.heap, s.classes[c], c, d);
    CapacityPositive(sp);
  }

  /** Settling keeps the invariant; the last span is on the page heap again exactly when none
      of its slots is out. */
  lemma SettleOk(s: State, c: nat, d: Ptr)
    requires Inv(s) && c < CLASSES && Central(s.heap, d) && GetIndex(s.heap.spans[d].objsSize) == c
    ensures Inv(Settle(s, c, d))
    ensures InRing(Settle(s, c, d).heap, d) <==> s.heap.spans[d].refcount == 0
  {
    assert SpanOk(s.heap, d);
    RefiledOk(s, c, d);
    var s1 := s.(classes := s.classes[c := Refiled(s, c, d)]);
    SetClass(s.heap, s.classes, c, Refiled(s, c, d));
    SameOk(s, s1);
    if s.heap.spans[d].refcount == 0 {
      ReleaseOk(s1, c, d);
    }
  }

  lemma SameOk(s: State, s1: State)
    requires Inv(s) && s1.heap == s.heap && s1.threads == s.threads && s1.live == s.live && FilingOk(s1.heap, s1.classes)
    ensures Inv(s1)
  {
    assert forall a, p :: At(s1, a, p) <==> At(s, a, p);
    MovedKeepsPlaces(s, s1, [], User);
  }

  lemma ReleaseOk(s: State, c: nat, d: Ptr)
    requires Inv(s) && c < CLASSES && Central(s.heap, d) && GetIndex(s.heap.spans[d].objsSize) == c
    requires s.heap.spans[d].refcount == 0 && d !in s.classes[c].idle
    ensures Inv(Release(s, c, d)) && InRing(Release(s, c, d).heap, d)
  {
    var s' := Release(s, c, d);
    ReleaseHeap(s, d);
    ReleaseOut(s, d);
    ReleaseFiling(s.heap, s'.heap, s.classes, c, d);
    ReleasePlaces(s, s', d);
  }

  // ----- a whole flush, and blocks of pages ---------------------------------

  function Last(chain: seq<Addr>): Addr
    requires chain != []
  {
    chain[|chain| - 1]
  }

  /** return_objs_to_centralcache, from lock to unlock. */
  function Flush(s: State, t: Tid): State
    requires Inv(s) && t in s.threads && s.threads[t].moving.Flushing? && s.threads[t].moving.chain != []
  {
    LastSpan(s, t);
    var d := SpanAt(s.heap, Last(s.threads[t].moving.chain));
    Done(Settle(ReturnAll(s, t), s.threads[t].moving.class_, d), t)
  }

  /** The span of the last slot is still carved, for the same class, when the loop is over. */
  lemma LastSpan(s: State, t: Tid)
    requires Inv(s) && t in s.threads && s.threads[t].moving.Flushing? && s.threads[t].moving.chain != []
    ensures var a := Last(s.threads[t].moving.chain); var c := s.threads[t].moving.class_; var r := ReturnAll(s, t);
            && Mapped(s.heap, a) && Inv(r) && c < CLASSES && t in r.threads && r.threads[t].moving == Flushing(c, [])
            && Central(r.heap, SpanAt(s.heap, a)) && GetIndex(r.heap.spans[SpanAt(s.heap, a)].objsSize) == c
  {
    assert ThreadOk(s.heap, s.threads[t]);
    assert Lent(s.heap, Last(s.threads[t].moving.chain), s.threads[t].moving.class_);
    ReturnAllOk(s, t);
  }

  lemma DoneOk(s: State, t: Tid)
    requires Inv(s) && t in s.threads && s.threads[t].moving.Flushing? && s.threads[t].moving.chain == []
    ensures Inv(Done(s, t))
  {
    var s' := Done(s, t);
    assert ThreadOk(s.heap, s.threads[t]);
    assert ThreadOk(s.heap, s'.threads[t]);
    assert forall a, p :: At(s', a, p) <==> At(s, a, p);
    LocalOk(s, s', [], User);
  }

  lemma FlushOk(s: State, t: Tid)
    requires Inv(s) && t in s.threads && s.threads[t].moving.Flushing? && s.threads[t].moving.chain != []
    ensures Inv(Flush(s, t))
  {
    LastSpan(s, t);
    var d := SpanAt(s.heap, Last(s.threads[t].moving.chain));
    SettleOk(ReturnAll(s, t), s.threads[t].moving.class_, d);
    DoneOk(Settle(ReturnAll(s, t), s.threads[t].moving.class_, d), t);
  }

  /** First request whose pages do not fit an int. */
  const INT_BYTES := 4096 * INT_PAGES

  /** tc_malloc of more than the threshold: whole pages, the request rounded down. */
  function MallocLarge(s: State, size: nat): State
    requires HeapInv(s.heap) && THRESH_ALLOC < size < INT_BYTES
  {
    var r := FetchSpan(s.heap, size / 4096);
    s.(heap := r.0, live := s.live[r.0.spans[r.1].start := size])
  }

  function LargeResult(s: State, size: nat): Addr
    requires HeapInv(s.heap) && THRESH_ALLOC < size < INT_BYTES
  {
    FetchSpan(s.heap, size / 4096).0.spans[FetchSpan(s.heap, size / 4096).1].start
  }

  /** tc_free of a block of pages. */
  function FreeLarge(s: State, a: Addr): State
    requires |s.heap.rings| == 256 && Mapped(s.heap, a) && SpanAt(s.heap, a) in s.heap.spans
  {
    s.(heap := ReturnSpan(s.heap, SpanAt(s.heap, a)), live := s.live - {a})
  }

  lemma LargeOk(s: State, h: Heap, d: Ptr, size: nat)
    requires Inv(s) && size > THRESH_ALLOC && HeapInv(h) && Keeps(s.heap, h, {d}) && Held(h, d) && Clean(h.spans[d])
    ensures Inv(s.(heap := h, live := s.live[h.spans[d].start := size]))
  {
    var a0 := h.spans[d].start;
    var s' := s.(heap := h, live := s.live[a0 := size]);
    FetchCarries(s, h, d);
    FetchCarriesOut(s, h, d);
    PageOfOffset(h.base, h.spans[d].pageId, h.spans[d].pageSize, a0);
    assert InRange(h.spans[d], PageIndex(h, a0));
    assert LargeBlock(h, a0);
    assert forall p :: !At(s, a0, p);
    forall a, p
      ensures At(s', a, p) <==> if a in [a0] then p == User else At(s, a, p)
    {
      LargePlace(s, h, d, size, a, p);
    }
    MovedKeepsPlaces(s, s', [a0], User);
  }

  lemma LargePlace(s: State, h: Heap, d: Ptr, size: nat, a: Addr, p: Place)
    requires Held(h, d) && Keeps(s.heap, h, {d}) && !At(s, h.spans[d].start, p)
    ensures At(s.(heap := h, live := s.live[h.spans[d].start := size]), a, p) <==>
              if a == h.spans[d].start then p == User else At(s, a, p)
  {
  }

  /** Two spans in use do not start at the same address. */
  lemma StartsDiffer(h: Heap, x: Ptr, y: Ptr)
    requires Held(h, x) && Held(h, y) && x != y
    ensures h.spans[x].start != h.spans[y].start
  {
    assert InRange(h.spans[x], h.spans[x].pageId) && InRange(h.spans[y], h.spans[y].pageId);
  }

  lemma UncutReturned(s: State, h': Heap, d: Ptr)
    requires Inv(s) && Held(s.heap, d) && Clean(s.heap.spans[d]) && Gives(s.heap, h', d) && Clean(h'.spans[d])
    ensures SpansOk(h') && UncutClean(h') && FilingOk(h', s.classes)
  {
    forall x | Central(s.heap, x)
      ensures SpanOk(h', x)
    {
      assert SpanOk(s.heap, x);
      assert Held(h', x);
    }
    forall k | 0 <= k < CLASSES
      ensures ClassOk(h', s.classes[k], k)
    {
      assert ClassOk(s.heap, s.classes[k], k);
    }
  }

  lemma UncutOut(s: State, h': Heap, d: Ptr)
    requires Inv(s) && Held(s.heap, d) && Clean(s.heap.spans[d]) && Gives(s.heap, h', d)
    ensures OutCarried(s, h') && ThreadsOk(h', s.threads)
  {
    forall x | Central(s.heap, x)
      ensures Carries(s.heap, h', x)
    {
      assert SpanOk(s.heap, x);
      assert Held(h', x);
    }
    CarryThreads(s, h');
  }

  lemma UncutLive(s: State, h': Heap, d: Ptr, a: Addr)
    requires Inv(s) && Held(s.heap, d) && s.heap.spans[d].start == a && OutCarried(s, h') && Gives(s.heap, h', d)
    ensures LiveOk(h', s.live - {a})
  {
    var s1 := s.(live := s.live - {a});
    assert OutCarried(s1, h') by {
      assert forall b, p :: At(s1, b, p) ==> At(s, b, p);
    }
    forall b | b in s1.live && LargeBlock(s1.heap, b)
      ensures Held(h', SpanAt(s1.heap, b)) && h'.spans[SpanAt(s1.heap, b)] == s1.heap.spans[SpanAt(s1.heap, b)]
    {
      assert SpanAt(s.heap, b) != d;
    }
    CarryLive(s1, h');
  }

  lemma UncutCover(s: State, h': Heap, d: Ptr, a: Addr)
    requires CoverOk(s.heap, s.live) && Held(s.heap, d) && s.heap.spans[d].start == a && Gives(s.heap, h', d)
    ensures CoverOk(h', s.live - {a})
  {
    forall x | Held(h', x)
      ensures Central(h', x) || (h'.spans[x].start in s.live - {a} && s.live[h'.spans[x].start] > THRESH_ALLOC)
    {
      StartsDiffer(s.heap, x, d);
    }
  }

  lemma FreeLargeGone(s: State, a: Addr, s': State, d: Ptr)
    requires d in s.heap.spans && Clean(s.heap.spans[d]) && |s.heap.rings| == 256
    requires s'.heap == ReturnSpan(s.heap, d) && s'.threads == s.threads && s'.live == s.live - {a}
    ensures forall b, p :: At(s', b, p) <==> At(s, b, p) && !(b == a && p == User)
  {
  }

  lemma FreeLargePlaces(s: State, a: Addr, s': State, d: Ptr)
    requires Inv(s) && a in s.live && LargeBlock(s.heap, a) && SpanAt(s.heap, a) == d
    requires s'.threads == s.threads && s'.live == s.live - {a}
    requires s'.heap == ReturnSpan(s.heap, d) && Gives(s.heap, s'.heap, d)
    ensures Unique(s') && Complete(s')
  {
    FreeLargeGone(s, a, s', d);
    forall x, b | Central(s'.heap, x) && b in SlotsOf(s'.heap.spans[x])
      ensures Somewhere(s', b)
    {
      assert Central(s.heap, x) && Somewhere(s, b);
      var p :| At(s, b, p);
      assert b != a by {
        assert SpanOk(s.heap, x);
        SlotMapped(s.heap, x, b);
      }
      assert At(s', b, p);
    }
  }

  lemma FreeLargeOk(s: State, a: Addr)
    requires Inv(s) && a in s.live && s.live[a] > THRESH_ALLOC
    ensures Mapped(s.heap, a) && SpanAt(s.heap, a) in s.heap.spans && Inv(FreeLarge(s, a))
    ensures InRing(FreeLarge(s, a).heap, SpanAt(s.heap, a))
  {
    assert LiveAt(s.heap, a, s.live[a]);
    var d := SpanAt(s.heap, a);
    var s' := FreeLarge(s, a);
    ReturnSpanOk(s.heap, d);
    UncutReturned(s, s'.heap, d);
    UncutOut(s, s'.heap, d);
    UncutLive(s, s'.heap, d, a);
    UncutCover(s, s'.heap, d, a);
    FreeLargePlaces(s, a, s', d);
  }
}
