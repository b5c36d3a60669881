/** The page heap: spans of pages filed in 256 rings by length, the page-to-span map,
    and the pool that span descriptors are cut from.

    Addresses are naturals. A span descriptor is named by its own address, so that two
    descriptors being different is a fact about the pool and not an assumption. The
    program break only grows and is page aligned; other code may also move it. Break
    and pool are kept as page numbers counted from the break at set-up. */
module PageHeap {
  import opened Sequences

  type Ptr = nat

  datatype Location = InPageHeap | Isolated | CentralList | CentralIdle

  datatype Span = Span(
    start: nat, pageId: int, pageSize: nat,
    objs: seq<nat>, objLen: nat, objsSize: nat, refcount: nat, loc: Location)

  /** A descriptor in zeroed memory. */
  const ZERO_SPAN := Span(0, 0, 0, [], 0, 0, 0, InPageHeap)

  const SYS_FETCH_PAGES := 65536
  const POOL_PAGES := 1440
  /** Size of a descriptor, and of a pool of descriptors, in bytes. */
  const SPAN_BYTES := 64
  const POOL_BYTES := 5898240

  datatype Heap = Heap(
    base: nat,              // address of the break when the allocator was set up
    brk: nat,               // the break now, in pages past `base`
    obtained: set<int>,     // pages the allocator itself got from the system
    chunk: nat,             // first page of the descriptor pool in use
    remBytes: nat, currInd: nat,
    pools: set<Ptr>,        // the descriptors that stand for descriptor pools
    spans: map<Ptr, Span>,
    rings: seq<seq<Ptr>>,
    pageMap: map<int, Ptr>)

  /** The pages `first`, `first + 1`, ... of a run of `count`. */
  function Pages(first: int, count: nat): (r: set<int>)
    ensures forall p :: p in r <==> first <= p < first + count
  {
    if count == 0 then {} else Pages(first, count - 1) + {first + count - 1}
  }

  predicate InRange(sp: Span, p: int) {
    sp.pageId <= p < sp.pageId + sp.pageSize
  }

  function PageIndex(h: Heap, addr: nat): int {
    addr / 4096 - h.base / 4096
  }

  /** Address of a page. */
  function AddrOf(h: Heap, page: int): int {
    h.base + 4096 * page
  }

  /** Address of the break. */
  function BreakAddr(h: Heap): nat {
    h.base + 4096 * h.brk
  }

  /** The descriptor the page map holds for an address. */
  predicate Mapped(h: Heap, addr: nat) {
    PageIndex(h, addr) in h.pageMap
  }

  function SpanAt(h: Heap, addr: nat): Ptr
    requires Mapped(h, addr)
  {
    h.pageMap[PageIndex(h, addr)]
  }

  /** Ring of a span by its length; the unsigned `pageSize - 1` wraps for 0. */
  function RingIndex(pageSize: nat): (i: nat)
    ensures i < 256
  {
    if pageSize == 0 || pageSize - 1 > 255 then 255 else pageSize - 1
  }

  /** Every filed span has a descriptor. */
  predicate Filed(h: Heap) {
    && |h.rings| == 256
    && forall i, d :: 0 <= i < 256 && d in h.rings[i] ==> d in h.spans
  }

  // ----- operations ---------------------------------------------------------

  function Empty(base: nat): Heap {
    Heap(base, 0, {}, 0, 0, 0, {}, map[], seq(256, _ => []), map[])
  }

  /** Moves the break up by whole pages; the block obtained starts at the old break. */
  function Sbrk(h: Heap, pages: nat): Heap {
    h.(brk := h.brk + pages, obtained := h.obtained + Pages(h.brk, pages))
  }

  function UpdateMapping(h: Heap, d: Ptr): Heap
    requires d in h.spans
  {
    var sp := h.spans[d];
    h.(pageMap := map p: int | p in h.pageMap.Keys + Pages(sp.pageId, sp.pageSize)
                  :: if InRange(sp, p) then d else h.pageMap[p])
  }

  function Push(h: Heap, i: nat, d: Ptr): Heap
    requires i < |h.rings|
  {
    h.(rings := h.rings[i := [d] + h.rings[i]])
  }

  function DropHead(h: Heap, i: nat): Heap
    requires i < |h.rings| && h.rings[i] != []
  {
    h.(rings := h.rings[i := h.rings[i][1..]])
  }

  /** Address of the `k`th descriptor of the pool in use. */
  function Cursor(h: Heap, k: nat): Ptr {
    h.base + 4096 * h.chunk + 64 * k
  }

  /** A fresh pool: its first descriptor stands for the pool itself. */
  function NewPool(h: Heap): Heap {
    var h1 := Sbrk(h, POOL_PAGES).(chunk := h.brk);
    var c := Cursor(h1, 0);
    var meta := ZERO_SPAN.(pageId := h.brk, pageSize := POOL_PAGES);
    UpdateMapping(h1.(spans := h.spans[c := meta], pools := h.pools + {c}, remBytes := POOL_BYTES - SPAN_BYTES, currInd := 1), c)
  }

  /** Fills the descriptor at the pool cursor with `sp`. */
  function TakeDescriptor(h: Heap, sp: Span): Heap {
    h.(spans := h.spans[Cursor(h, h.currInd) := sp], currInd := h.currInd + 1,
       remBytes := if h.remBytes < SPAN_BYTES then 0 else h.remBytes - SPAN_BYTES)
  }

  /** Next descriptor, for `npages` pages from `page` on; the page is 0 when the place of the
      span is settled later. */
  function AllocSpan(h: Heap, npages: nat, page: int): (r: (Heap, Ptr))
    requires Filed(h)
    ensures Filed(r.0) && r.0.rings == h.rings && r.1 in r.0.spans
  {
    var h1 := if h.remBytes < SPAN_BYTES then NewPool(h) else h;
    (TakeDescriptor(h1, ZERO_SPAN.(pageSize := npages, pageId := page)), Cursor(h1, h1.currInd))
  }

  function SetStart(h: Heap, d: Ptr, start: nat): Heap
    requires d in h.spans
  {
    h.(spans := h.spans[d := h.spans[d].(start := start)])
  }

  /** A block of `npage` pages of its own, straight from the system. */
  function GrabBlock(h: Heap, npage: nat): (r: (Heap, Ptr))
    requires Filed(h)
    ensures Filed(r.0) && r.0.rings == h.rings && r.1 in r.0.spans
  {
    var r := AllocSpan(Sbrk(h, npage), npage, h.brk);
    (UpdateMapping(SetStart(r.0, r.1, BreakAddr(h)), r.1), r.1)
  }

  function FetchFromSystem(h: Heap): (r: Heap)
    requires Filed(h)
    ensures Filed(r) && r.rings[255] != []
  {
    var (h1, d) := GrabBlock(h, SYS_FETCH_PAGES);
    Push(h1, RingIndex(SYS_FETCH_PAGES), d)
  }

  /** First non-empty ring from `i` on, or 256. */
  function FirstFiled(rings: seq<seq<Ptr>>, i: nat): (r: nat)
    requires |rings| == 256
    ensures r <= 256 || r == i
    ensures r < 256 ==> i <= r && rings[r] != []
    ensures forall j :: i <= j < r && j < 256 ==> rings[j] == []
    decreases 256 - i
  {
    if i >= 256 || rings[i] != [] then i else FirstFiled(rings, i + 1)
  }

  /** What the search in the rings leaves behind when the exact ring is empty: the new
      descriptor, marked isolated for long requests. */
  function Prepare(h: Heap, npage: nat): (r: (Heap, Ptr))
    requires Filed(h)
    ensures Filed(r.0) && r.0.rings == h.rings && r.1 in r.0.spans
  {
    var (h1, d) := AllocSpan(h, npage, 0);
    if npage > 8 then (h1.(spans := h1.spans[d := h1.spans[d].(loc := Isolated)]), d) else (h1, d)
  }

  /** Rewrites the record of a descriptor. */
  function Tweak(h: Heap, d: Ptr, sp: Span): Heap {
    h.(spans := h.spans[d := sp])
  }

  /** pages_to_bytes of a span's length: a 32-bit product. */
  function Bytes32(pages: nat): nat {
    4096 * pages % 0x1_0000_0000
  }

  /** The product is exact below this many pages, and only there. */
  const WRAP_PAGES := 0x10_0000

  lemma Bytes32Exact(pages: nat)
    ensures Bytes32(pages) == 4096 * pages <==> pages < WRAP_PAGES
  {
  }

  /** Gives the last pages of `t`, as many as `d` is for, to `d`. */
  function MoveTail(h: Heap, t: Ptr, d: Ptr): Heap
    requires t in h.spans && d in h.spans && h.spans[d].pageSize <= h.spans[t].pageSize
  {
    var rest := h.spans[t].pageSize - h.spans[d].pageSize;
    var cut := h.spans[d].(start := h.spans[t].start + Bytes32(rest), pageId := h.spans[t].pageId + rest);
    UpdateMapping(Tweak(Tweak(h, t, h.spans[t].(pageSize := rest)), d, cut), d)
  }

  /** Splits `t`: its tail goes to `d`, and the rest, if any, is filed by its new length. */
  function SplitSpans(h: Heap, t: Ptr, d: Ptr): Heap
    requires |h.rings| == 256
    requires t in h.spans && d in h.spans && h.spans[d].pageSize <= h.spans[t].pageSize
  {
    var h' := MoveTail(h, t, d);
    if h'.spans[t].pageSize == 0 then h' else Push(h', RingIndex(h'.spans[t].pageSize), t)
  }

  /** Splits the head of ring `i` in favour of `d`. */
  function CutFrom(h: Heap, d: Ptr, i: nat): Heap
    requires |h.rings| == 256 && i < 256 && h.rings[i] != [] && d in h.spans
    requires h.rings[i][0] in h.spans && h.spans[d].pageSize <= h.spans[h.rings[i][0]].pageSize
  {
    SplitSpans(DropHead(h, i), h.rings[i][0], d)
  }

  /** Files a span again; the page map is rewritten with what it already says. */
  function ReturnSpan(h: Heap, d: Ptr): (r: Heap)
    requires |h.rings| == 256 && d in h.spans
  {
    var sp := h.spans[d].(objsSize := 0, objLen := 0, objs := [], loc := InPageHeap);
    UpdateMapping(Push(Tweak(h, d, sp), RingIndex(sp.pageSize), d), d)
  }

  // ----- invariant ----------------------------------------------------------

  /** Every page in the range of `d`, and there is one, is mapped to `d`. */
  ghost predicate Owns(h: Heap, d: Ptr) {
    && d in h.spans
    && h.spans[d].pageSize >= 1
    && forall p: int {:trigger InRange(h.spans[d], p)} :: InRange(h.spans[d], p) ==> p in h.pageMap && h.pageMap[p] == d
  }

  /** Holds no slot list and has lent nothing. */
  predicate Clean(sp: Span) {
    sp.objs == [] && sp.objLen == 0 && sp.objsSize == 0 && sp.refcount == 0
  }

  predicate StartOk(h: Heap, sp: Span) {
    sp.start == h.base + 4096 * sp.pageId
  }

  predicate InRing(h: Heap, d: Ptr)
    requires |h.rings| == 256
  {
    d in h.spans && d in h.rings[RingIndex(h.spans[d].pageSize)]
  }

  predicate HeadsRing(h: Heap, d: Ptr)
    requires |h.rings| == 256
  {
    d in h.spans && h.rings[RingIndex(h.spans[d].pageSize)] != [] && h.rings[RingIndex(h.spans[d].pageSize)][0] == d
  }

  /** What holds of a span filed in ring `i`. */
  ghost predicate Parked(h: Heap, d: Ptr, i: nat) {
    Owns(h, d) && Clean(h.spans[d]) && StartOk(h, h.spans[d]) && d !in h.pools
    && RingIndex(h.spans[d].pageSize) == i
  }

  ghost predicate RingsOk(h: Heap) {
    && |h.rings| == 256
    && (forall i :: 0 <= i < 256 ==> NoDup(h.rings[i]))
    && (forall i, d :: 0 <= i < 256 && d in h.rings[i] ==> Parked(h, d, i))
  }

  /** Each mapped page is owned by the descriptor it is mapped to, and lies below the break;
      spans other than descriptor pools know their start address. */
  ghost predicate MapOk(h: Heap) {
    forall p :: p in h.pageMap ==> Placed(h, p)
  }

  ghost predicate Placed(h: Heap, p: int)
    requires p in h.pageMap
  {
    var d := h.pageMap[p];
    && Owns(h, d) && InRange(h.spans[d], p) && 0 <= p < h.brk
    && (d in h.pools || StartOk(h, h.spans[d]))
  }

  ghost predicate PoolsOk(h: Heap) {
    && (forall q :: q in h.pools ==> Owns(h, q) && Clean(h.spans[q]) && h.spans[q].pageSize == POOL_PAGES)
    && (h.remBytes == 0 || (Cursor(h, 0) in h.pools && h.spans[Cursor(h, 0)].pageId == h.chunk
                            && h.remBytes == POOL_BYTES - 64 * h.currInd))
  }

  /** `d` is the `k`th descriptor of the pool `q`. */
  predicate Houses(h: Heap, q: Ptr, k: int, d: Ptr) {
    && q in h.pools && q in h.spans
    && d == AddrOf(h, h.spans[q].pageId) + 64 * k && 0 <= k < 92160
  }

  ghost predicate Housed(h: Heap, d: Ptr) {
    exists q, k :: Houses(h, q, k, d)
  }

  /** Descriptors lie in pools, none past the pool cursor. */
  ghost predicate DescriptorsOk(h: Heap) {
    && 4096 * h.chunk + 64 * h.currInd <= 4096 * h.brk
    && (forall d :: d in h.spans ==> h.base <= d < Cursor(h, h.currInd))
    && (forall d {:trigger Housed(h, d)} :: d in h.spans ==> Housed(h, d))
  }

  ghost predicate Core(h: Heap) {
    RingsOk(h) && MapOk(h) && PoolsOk(h) && DescriptorsOk(h)
  }

  /** The whole invariant of the page heap: `Core`, and the map covers exactly the pages
      that came from the system. */
  ghost predicate HeapInv(h: Heap) {
    Core(h) && h.obtained == h.pageMap.Keys
  }

  lemma EmptyOk(base: nat)
    ensures HeapInv(Empty(base))
  {
  }

  /** `h2` keeps all that `h1` says of descriptors and owned pages. */
  ghost predicate Extends(h1: Heap, h2: Heap) {
    && h2.base == h1.base && h1.brk <= h2.brk && h2.rings == h1.rings && h1.pools <= h2.pools
    && (forall d :: d in h1.spans ==> d in h2.spans && h2.spans[d] == h1.spans[d])
    && (forall p :: p in h1.pageMap ==> p in h2.pageMap && h2.pageMap[p] == h1.pageMap[p])
    && (forall q :: q in h2.pools && q !in h1.pools ==> q !in h1.spans)
    && (forall p :: p in h2.pageMap && p !in h1.pageMap ==> h2.pageMap[p] !in h1.spans)
    && h1.obtained <= h2.obtained
    && (forall p :: p in h2.obtained && p !in h1.obtained <==> p in h2.pageMap && p !in h1.pageMap)
  }

  lemma OwnsExtends(h1: Heap, h2: Heap)
    requires Extends(h1, h2)
    ensures forall d :: Owns(h1, d) ==> Owns(h2, d)
  {
  }

  lemma RingsExtend(h1: Heap, h2: Heap)
    requires RingsOk(h1) && Extends(h1, h2)
    ensures RingsOk(h2)
  {
    OwnsExtends(h1, h2);
    forall i, d | 0 <= i < 256 && d in h2.rings[i]
      ensures Parked(h2, d, i)
    {
      assert Parked(h1, d, i);
    }
  }

  /** The pages gained from `h1` to `h2` are those of the one span `d`. */
  lemma MapExtends(h1: Heap, h2: Heap, d: Ptr)
    requires MapOk(h1) && Extends(h1, h2)
    requires Owns(h2, d)
    requires forall p :: p in h2.pageMap && p !in h1.pageMap ==> InRange(h2.spans[d], p)
    requires 0 <= h2.spans[d].pageId && h2.spans[d].pageId + h2.spans[d].pageSize <= h2.brk
    requires d in h2.pools || StartOk(h2, h2.spans[d])
    ensures MapOk(h2)
  {
    OwnsExtends(h1, h2);
    forall p | p in h2.pageMap
      ensures Placed(h2, p)
    {
      if p in h1.pageMap {
        assert Placed(h1, p);
      }
    }
  }

  /** No page at or past the break has been obtained. */
  ghost predicate BelowBreak(h: Heap) {
    forall p :: p in h.obtained ==> p < h.brk
  }

  lemma NewPoolExtends(h: Heap)
    requires MapOk(h) && DescriptorsOk(h) && BelowBreak(h)
    ensures Extends(h, NewPool(h)) && Owns(NewPool(h), Cursor(NewPool(h), 0))
    ensures BelowBreak(NewPool(h))
  {
    var h' := NewPool(h);
    var c := Cursor(h', 0);
    assert c !in h.spans;
    assert h'.spans[c] == ZERO_SPAN.(pageId := h.brk, pageSize := POOL_PAGES);
    assert h'.pageMap.Keys == h.pageMap.Keys + Pages(h.brk, POOL_PAGES);
    assert h'.obtained == h.obtained + Pages(h.brk, POOL_PAGES);
  }

  lemma HousedExtends(h1: Heap, h2: Heap)
    requires Extends(h1, h2) && DescriptorsOk(h1)
    ensures forall d {:trigger Housed(h2, d)} :: d in h1.spans ==> Housed(h2, d)
  {
    forall d | d in h1.spans
      ensures Housed(h2, d)
    {
      assert Housed(h1, d);
      var q, k :| Houses(h1, q, k, d);
      assert Houses(h2, q, k, d);
    }
  }

  lemma NewPoolOk(h: Heap)
    requires Core(h) && BelowBreak(h)
    ensures Core(NewPool(h)) && Extends(h, NewPool(h)) && BelowBreak(NewPool(h))
  {
    var h' := NewPool(h);
    var c := Cursor(h', 0);
    NewPoolExtends(h);
    RingsExtend(h, h');
    MapExtends(h, h', c);
    NewPoolPools(h);
    NewPoolDescriptors(h);
  }

  lemma NewPoolPools(h: Heap)
    requires MapOk(h) && DescriptorsOk(h) && PoolsOk(h) && BelowBreak(h)
    ensures PoolsOk(NewPool(h))
  {
    NewPoolExtends(h);
    OwnsExtends(h, NewPool(h));
  }

  lemma NewPoolDescriptors(h: Heap)
    requires MapOk(h) && DescriptorsOk(h) && BelowBreak(h)
    ensures DescriptorsOk(NewPool(h))
  {
    var c := Cursor(NewPool(h), 0);
    NewPoolExtends(h);
    HousedExtends(h, NewPool(h));
    assert Houses(NewPool(h), c, 0, c);
  }

  lemma ExtendsTrans(h1: Heap, h2: Heap, h3: Heap)
    requires Extends(h1, h2) && Extends(h2, h3)
    ensures Extends(h1, h3)
  {
  }

  /** `d` is a descriptor of no pages. */
  ghost predicate Blank(h: Heap, d: Ptr) {
    d in h.spans && d !in h.pools && forall p :: p in h.pageMap ==> h.pageMap[p] != d
  }

  lemma SameMapOk(h1: Heap, h2: Heap)
    requires MapOk(h1) && Extends(h1, h2) && h2.pageMap == h1.pageMap && h2.brk == h1.brk
    ensures MapOk(h2)
  {
    OwnsExtends(h1, h2);
    forall p | p in h2.pageMap
      ensures Placed(h2, p)
    {
      assert Placed(h1, p);
    }
  }

  lemma TakeExtends(h: Heap, sp: Span)
    requires DescriptorsOk(h)
    ensures Cursor(h, h.currInd) !in h.spans && Extends(h, TakeDescriptor(h, sp))
  {
  }

  lemma TakePoolsOk(h: Heap, sp: Span)
    requires DescriptorsOk(h) && PoolsOk(h) && h.remBytes >= SPAN_BYTES
    ensures PoolsOk(TakeDescriptor(h, sp))
  {
    TakeExtends(h, sp);
    OwnsExtends(h, TakeDescriptor(h, sp));
  }

  lemma TakeDescriptorsOk(h: Heap, sp: Span)
    requires MapOk(h) && PoolsOk(h) && DescriptorsOk(h) && h.remBytes >= SPAN_BYTES
    ensures DescriptorsOk(TakeDescriptor(h, sp))
  {
    TakeExtends(h, sp);
    HousedExtends(h, TakeDescriptor(h, sp));
    assert Houses(TakeDescriptor(h, sp), Cursor(h, 0), h.currInd, Cursor(h, h.currInd));
    assert InRange(h.spans[Cursor(h, 0)], h.chunk + POOL_PAGES - 1);
  }

  /** The next descriptor of the pool in use. */
  lemma TakeDescriptorOk(h: Heap, sp: Span)
    requires Core(h) && h.remBytes >= SPAN_BYTES
    ensures Core(TakeDescriptor(h, sp)) && Extends(h, TakeDescriptor(h, sp))
    ensures Cursor(h, h.currInd) !in h.spans && Blank(TakeDescriptor(h, sp), Cursor(h, h.currInd))
  {
    TakeExtends(h, sp);
    RingsExtend(h, TakeDescriptor(h, sp));
    SameMapOk(h, TakeDescriptor(h, sp));
    TakePoolsOk(h, sp);
    TakeDescriptorsOk(h, sp);
  }

  lemma AllocSpanOk(h: Heap, npages: nat, page: int) returns (h': Heap, d: Ptr)
    requires Core(h) && BelowBreak(h)
    ensures Filed(h) && AllocSpan(h, npages, page) == (h', d)
    ensures Core(h') && Blank(h', d) && h'.spans[d] == ZERO_SPAN.(pageSize := npages, pageId := page)
    ensures Extends(h, h') && BelowBreak(h') && d !in h.spans
  {
    var sp := ZERO_SPAN.(pageSize := npages, pageId := page);
    h', d := TakeNext(h, sp);
  }

  /** A pool with room, and its next descriptor. */
  lemma TakeNext(h: Heap, sp: Span) returns (h': Heap, d: Ptr)
    requires Core(h) && BelowBreak(h)
    ensures var h1 := if h.remBytes < SPAN_BYTES then NewPool(h) else h;
            h' == TakeDescriptor(h1, sp) && d == Cursor(h1, h1.currInd)
    ensures Core(h') && Blank(h', d) && h'.spans[d] == sp
    ensures Extends(h, h') && BelowBreak(h') && d !in h.spans
  {
    var h1 := PoolReady(h);
    TakeDescriptorOk(h1, sp);
    h', d := TakeDescriptor(h1, sp), Cursor(h1, h1.currInd);
    ExtendsTrans(h, h1, h');
  }

  lemma AllocSpanAdds(h: Heap, npages: nat, page: int)
    requires Filed(h)
    ensures var r := AllocSpan(h, npages, page);
            forall x :: x in r.0.spans && x !in h.spans ==> x == r.1 || x in r.0.pools
  {
  }

  lemma PoolReady(h: Heap) returns (h1: Heap)
    requires Core(h) && BelowBreak(h)
    ensures h1 == if h.remBytes < SPAN_BYTES then NewPool(h) else h
    ensures Core(h1) && Extends(h, h1) && BelowBreak(h1) && h1.remBytes >= SPAN_BYTES
    ensures forall x :: x in h1.spans && x !in h.spans ==> x in h1.pools
  {
    h1 := h;
    if h.remBytes < SPAN_BYTES {
      NewPoolOk(h);
      h1 := NewPool(h);
    }
  }

  // ----- blocks from the system ---------------------------------------------

  /** A blank descriptor is filed nowhere. */
  lemma BlankUnfiled(h: Heap, d: Ptr)
    requires RingsOk(h) && Blank(h, d)
    ensures forall i :: 0 <= i < 256 ==> d !in h.rings[i]
    ensures !Owns(h, d)
  {
    assert Owns(h, d) ==> InRange(h.spans[d], h.spans[d].pageId);
    forall i | 0 <= i < 256
      ensures d !in h.rings[i]
    {
      assert d in h.rings[i] ==> Parked(h, d, i);
    }
  }

  lemma HousedKeeps(h: Heap, h': Heap)
    requires DescriptorsOk(h) && h'.base == h.base && h'.pools == h.pools && h'.spans.Keys == h.spans.Keys
    requires forall q :: q in h.pools && q in h.spans ==> h'.spans[q].pageId == h.spans[q].pageId
    ensures forall d {:trigger Housed(h', d)} :: d in h'.spans ==> Housed(h', d)
  {
    forall d | d in h'.spans
      ensures Housed(h', d)
    {
      assert Housed(h, d);
      var q, k :| Houses(h, q, k, d);
      assert Houses(h', q, k, d);
    }
  }

  /** Core survives when owned spans keep their records, mapped pages keep their owners and
      any newly mapped page is owned by whom it is mapped to. */
  lemma CoreCarries(h: Heap, h': Heap)
    requires Core(h) && h.brk <= h'.brk
    requires h'.base == h.base && h'.rings == h.rings && h'.pools == h.pools
    requires h'.chunk == h.chunk && h'.currInd == h.currInd && h'.remBytes == h.remBytes
    requires h'.spans.Keys == h.spans.Keys
    requires forall x :: Owns(h, x) ==> h'.spans[x] == h.spans[x]
    requires forall p :: p in h.pageMap ==> p in h'.pageMap && h'.pageMap[p] == h.pageMap[p]
    requires forall p :: p in h'.pageMap && p !in h.pageMap ==>
               Placed(h', p)
    ensures Core(h')
    ensures forall x :: Owns(h, x) ==> Owns(h', x)
  {
    assert forall x :: Owns(h, x) ==> Owns(h', x);
    assert RingsOk(h') by {
      forall i, x | 0 <= i < 256 && x in h'.rings[i]
        ensures Parked(h', x, i)
      {
        assert Parked(h, x, i);
      }
    }
    assert MapOk(h') by {
      forall p | p in h'.pageMap
        ensures Placed(h', p)
      {
        assert p in h.pageMap ==> Placed(h, p);
      }
    }
    assert DescriptorsOk(h') by {
      HousedKeeps(h, h');
    }
  }

  lemma TweakBlankOk(h: Heap, d: Ptr, sp: Span)
    requires Core(h) && Blank(h, d)
    ensures Core(Tweak(h, d, sp)) && Blank(Tweak(h, d, sp), d)
  {
    BlankUnfiled(h, d);
    CoreCarries(h, Tweak(h, d, sp));
  }

  /** Gives a blank descriptor a run of pages nobody is mapped to. */
  lemma MapBlankExtends(h: Heap, d: Ptr)
    requires Blank(h, d) && h.spans[d].pageSize >= 1
    requires forall p :: InRange(h.spans[d], p) ==> p !in h.pageMap
    ensures Owns(UpdateMapping(h, d), d)
    ensures forall x :: Owns(h, x) ==> Owns(UpdateMapping(h, d), x)
    ensures forall p :: p in h.pageMap ==> p in UpdateMapping(h, d).pageMap && UpdateMapping(h, d).pageMap[p] == h.pageMap[p]
    ensures UpdateMapping(h, d).pageMap.Keys == h.pageMap.Keys + Pages(h.spans[d].pageId, h.spans[d].pageSize)
  {
  }

  lemma MapBlankOk(h: Heap, d: Ptr)
    requires Core(h) && Blank(h, d) && h.spans[d].pageSize >= 1
    requires forall p :: InRange(h.spans[d], p) ==> p !in h.pageMap
    requires 0 <= h.spans[d].pageId && h.spans[d].pageId + h.spans[d].pageSize <= h.brk && StartOk(h, h.spans[d])
    ensures Core(UpdateMapping(h, d)) && Owns(UpdateMapping(h, d), d)
  {
    var h' := UpdateMapping(h, d);
    MapBlankExtends(h, d);
    BlankUnfiled(h, d);
    CoreCarries(h, h');
  }

  /** In use outside the page heap: owns its pages and is neither filed nor a pool. */
  ghost predicate Held(h: Heap, d: Ptr) {
    |h.rings| == 256 && Owns(h, d) && StartOk(h, h.spans[d]) && d !in h.pools && !InRing(h, d)
  }

  lemma SbrkOk(h: Heap, pages: nat)
    requires HeapInv(h)
    ensures Core(Sbrk(h, pages)) && BelowBreak(Sbrk(h, pages))
  {
    CoreCarries(h, Sbrk(h, pages));
  }

  /** The block's descriptor just before its pages are mapped. */
  lemma GrabUnmapped(h: Heap, npage: nat) returns (h2: Heap, d: Ptr)
    requires HeapInv(h) && npage >= 1
    ensures Filed(h) && d in h2.spans && GrabBlock(h, npage) == (UpdateMapping(h2, d), d)
    ensures Core(h2) && Blank(h2, d) && d !in h.spans && Extends(Sbrk(h, npage), h2)
    ensures h2.spans[d] == ZERO_SPAN.(pageSize := npage, pageId := h.brk, start := BreakAddr(h))
    ensures forall x :: x in h2.spans && x !in h.spans ==> x == d || x in h2.pools
  {
    SbrkOk(h, npage);
    var h1;
    h1, d := AllocSpanOk(Sbrk(h, npage), npage, h.brk);
    AllocSpanAdds(Sbrk(h, npage), npage, h.brk);
    SetStartOk(Sbrk(h, npage), h1, d, BreakAddr(h));
    h2 := SetStart(h1, d, BreakAddr(h));
  }

  lemma SetStartOk(h: Heap, h1: Heap, d: Ptr, start: nat)
    requires Core(h1) && Blank(h1, d) && d !in h.spans && Extends(h, h1)
    ensures Core(SetStart(h1, d, start)) && Blank(SetStart(h1, d, start), d) && Extends(h, SetStart(h1, d, start))
  {
    TweakBlankOk(h1, d, h1.spans[d].(start := start));
  }

  lemma GrabFresh(h: Heap, npage: nat, h2: Heap, d: Ptr)
    requires HeapInv(h) && Extends(Sbrk(h, npage), h2) && d in h2.spans
    requires h2.spans[d].pageId == h.brk && h2.spans[d].pageSize == npage
    ensures forall p :: InRange(h2.spans[d], p) ==> p !in h2.pageMap
  {
    forall p | InRange(h2.spans[d], p)
      ensures p !in h2.pageMap
    {
      assert p in Sbrk(h, npage).obtained && p !in h.pageMap;
    }
  }

  lemma MappedCovers(h: Heap, npage: nat, h2: Heap, h3: Heap)
    requires h.obtained == h.pageMap.Keys && Extends(Sbrk(h, npage), h2) && h3.obtained == h2.obtained
    requires h3.pageMap.Keys == h2.pageMap.Keys + Pages(h.brk, npage)
    ensures h3.obtained == h3.pageMap.Keys
  {
  }

  lemma MappedExtends(h: Heap, npage: nat, h2: Heap, h3: Heap)
    requires h.obtained == h.pageMap.Keys && Extends(Sbrk(h, npage), h2)
    requires h3 == h2.(pageMap := h3.pageMap) && h3.obtained == h3.pageMap.Keys
    requires forall p :: p in h2.pageMap ==> p in h3.pageMap && h3.pageMap[p] == h2.pageMap[p]
    requires forall p :: p in h3.pageMap && p !in h2.pageMap ==> h3.pageMap[p] !in h.spans
    ensures Extends(h, h3)
  {
  }

  /** A block from the system: the new span is held and nothing else changes. */
  lemma GrabBlockOk(h: Heap, npage: nat) returns (h': Heap, d: Ptr)
    requires HeapInv(h) && npage >= 1
    ensures Filed(h) && GrabBlock(h, npage) == (h', d)
    ensures HeapInv(h') && Held(h', d) && Extends(h, h')
    ensures d !in h.spans && Clean(h'.spans[d]) && h'.spans[d].pageSize == npage
    ensures forall x :: x in h'.spans && x !in h.spans ==> x == d || x in h'.pools
  {
    var h2;
    h2, d := GrabUnmapped(h, npage);
    GrabFresh(h, npage, h2, d);
    h' := UpdateMapping(h2, d);
    MapGrabbed(h, npage, h2, d);
  }

  lemma MapGrabbed(h: Heap, npage: nat, h2: Heap, d: Ptr)
    requires h.obtained == h.pageMap.Keys && Core(h2) && Blank(h2, d) && d !in h.spans && Extends(Sbrk(h, npage), h2)
    requires npage >= 1 && h2.spans[d].pageSize == npage && h2.spans[d].pageId == h.brk && StartOk(h2, h2.spans[d])
    requires forall p :: InRange(h2.spans[d], p) ==> p !in h2.pageMap
    ensures HeapInv(UpdateMapping(h2, d)) && Owns(UpdateMapping(h2, d), d) && Extends(h, UpdateMapping(h2, d))
    ensures !InRing(UpdateMapping(h2, d), d)
  {
    var h' := UpdateMapping(h2, d);
    MapBlankOk(h2, d);
    BlankUnfiled(h2, d);
    MapBlankExtends(h2, d);
    MappedCovers(h, npage, h2, h');
    MappedExtends(h, npage, h2, h');
  }

  // ----- filing and cutting -------------------------------------------------

  /** Filing a held, clean span. */
  lemma PushOk(h: Heap, d: Ptr)
    requires Core(h) && Held(h, d) && Clean(h.spans[d])
    ensures var i := RingIndex(h.spans[d].pageSize); var h' := Push(h, i, d);
      Core(h') && HeadsRing(h', d) && DropHead(h', i) == h
  {
    var i := RingIndex(h.spans[d].pageSize);
    var h' := Push(h, i, d);
    assert forall x :: Owns(h, x) ==> Owns(h', x);
    assert RingsOk(h') by {
      ConsNoDup(d, h.rings[i]);
      forall j, x | 0 <= j < 256 && x in h'.rings[j]
        ensures Parked(h', x, j)
      {
        assert x in h.rings[j] ==> Parked(h, x, j);
      }
    }
    DescriptorsMoved(h, h');
    assert ([d] + h.rings[i])[1..] == h.rings[i] && h.rings[i := [d] + h.rings[i]][i := h.rings[i]] == h.rings;
  }

  lemma DescriptorsMoved(h: Heap, h': Heap)
    requires DescriptorsOk(h)
    requires h' == h.(rings := h'.rings)
    ensures DescriptorsOk(h')
  {
    HousedKeeps(h, h');
  }

  /** Taking the head of a ring: it is held, and every other span stays as it was. */
  lemma DropHeadOk(h: Heap, i: nat)
    requires Core(h) && i < 256 && h.rings[i] != []
    ensures var h' := DropHead(h, i); var d := h.rings[i][0];
            && Core(h') && Held(h', d) && Clean(h'.spans[d]) && RingIndex(h'.spans[d].pageSize) == i
  {
    var h' := DropHead(h, i);
    var d := h.rings[i][0];
    assert Parked(h, d, i);
    assert forall x :: Owns(h, x) ==> Owns(h', x);
    assert RingsOk(h') by {
      forall j, x | 0 <= j < 256 && x in h'.rings[j]
        ensures Parked(h', x, j)
      {
        assert Parked(h, x, j);
      }
    }
    DescriptorsMoved(h, h');
  }

  lemma MoveTailOwns(h: Heap, t: Ptr, d: Ptr)
    requires Owns(h, t) && Blank(h, d) && t != d
    requires 1 <= h.spans[d].pageSize < h.spans[t].pageSize
    ensures var h' := MoveTail(h, t, d);
            && Owns(h', t) && Owns(h', d) && h'.pageMap.Keys == h.pageMap.Keys
            && (forall x :: x != t && Owns(h, x) ==> Owns(h', x))
            && (forall p :: p in h.pageMap ==> h'.pageMap[p] == if InRange(h'.spans[d], p) then d else h.pageMap[p])
  {
    var h' := MoveTail(h, t, d);
    forall p | InRange(h'.spans[t], p)
      ensures p in h'.pageMap && h'.pageMap[p] == t
    {
      assert InRange(h.spans[t], p);
    }
    forall p | InRange(h'.spans[d], p)
      ensures p in h.pageMap && h.pageMap[p] == t
    {
      assert InRange(h.spans[t], p);
    }
    forall x | x != t && Owns(h, x)
      ensures Owns(h', x)
    {
      assert x == d ==> InRange(h.spans[d], h.spans[d].pageId);
      forall p | InRange(h'.spans[x], p)
        ensures p in h'.pageMap && h'.pageMap[p] == x
      {
        assert InRange(h.spans[x], p);
      }
    }
  }

  lemma MoveTailRings(h: Heap, t: Ptr, d: Ptr)
    requires RingsOk(h) && Held(h, t) && Blank(h, d) && t != d
    requires 1 <= h.spans[d].pageSize < h.spans[t].pageSize
    ensures RingsOk(MoveTail(h, t, d))
  {
    var h' := MoveTail(h, t, d);
    MoveTailOwns(h, t, d);
    BlankUnfiled(h, d);
    forall j, x | 0 <= j < 256 && x in h'.rings[j]
      ensures Parked(h', x, j)
    {
      assert Parked(h, x, j) && x != t && x != d;
    }
  }

  lemma MoveTailMap(h: Heap, t: Ptr, d: Ptr)
    requires MapOk(h) && Owns(h, t) && StartOk(h, h.spans[t]) && Blank(h, d) && t != d
    requires 1 <= h.spans[d].pageSize < h.spans[t].pageSize < h.spans[d].pageSize + WRAP_PAGES
    ensures MapOk(MoveTail(h, t, d))
  {
    var h' := MoveTail(h, t, d);
    MoveTailOwns(h, t, d);
    Bytes32Exact(h.spans[t].pageSize - h.spans[d].pageSize);
    forall p | p in h'.pageMap
      ensures Placed(h', p)
    {
      assert Placed(h, p);
    }
  }

  lemma MoveTailPools(h: Heap, t: Ptr, d: Ptr)
    requires PoolsOk(h) && DescriptorsOk(h) && Owns(h, t) && t !in h.pools && Blank(h, d) && t != d
    requires 1 <= h.spans[d].pageSize < h.spans[t].pageSize
    ensures PoolsOk(MoveTail(h, t, d)) && DescriptorsOk(MoveTail(h, t, d))
  {
    MoveTailOwns(h, t, d);
    HousedKeeps(h, MoveTail(h, t, d));
  }

  lemma MoveTailOk(h: Heap, t: Ptr, d: Ptr)
    requires Core(h) && Held(h, t) && Blank(h, d) && t != d
    requires 1 <= h.spans[d].pageSize < h.spans[t].pageSize < h.spans[d].pageSize + WRAP_PAGES
    ensures Core(MoveTail(h, t, d))
  {
    MoveTailRings(h, t, d);
    MoveTailMap(h, t, d);
    MoveTailPools(h, t, d);
  }

  /** A span that has pages and a wrong start address, and is no descriptor pool. */
  ghost predicate Misplaced(h: Heap, d: Ptr) {
    d in h.spans && d !in h.pools && !StartOk(h, h.spans[d]) && exists p :: p in h.pageMap && h.pageMap[p] == d
  }

  lemma MisplacedBreaks(h: Heap, d: Ptr)
    requires Misplaced(h, d)
    ensures !MapOk(h)
  {
    var p :| p in h.pageMap && h.pageMap[p] == d;
    assert !Placed(h, p);
  }

  /** From 2^20 pages left over on, the product wraps and the new span's start is wrong. */
  lemma MoveTailWraps(h: Heap, t: Ptr, d: Ptr)
    requires Owns(h, t) && StartOk(h, h.spans[t]) && Blank(h, d) && t != d
    requires 1 <= h.spans[d].pageSize && h.spans[d].pageSize + WRAP_PAGES <= h.spans[t].pageSize
    ensures Misplaced(MoveTail(h, t, d), d)
  {
    var h' := MoveTail(h, t, d);
    MoveTailOwns(h, t, d);
    Bytes32Exact(h.spans[t].pageSize - h.spans[d].pageSize);
    assert InRange(h'.spans[d], h'.spans[d].pageId);
  }

  /** Splitting keeps page map, start addresses and rings consistent exactly if fewer than 2^20
      pages are left over. */
  lemma MoveTailExact(h: Heap, t: Ptr, d: Ptr)
    requires Core(h) && Held(h, t) && Blank(h, d) && t != d
    requires 1 <= h.spans[d].pageSize < h.spans[t].pageSize
    ensures Core(MoveTail(h, t, d)) <==> h.spans[t].pageSize - h.spans[d].pageSize < WRAP_PAGES
  {
    if h.spans[t].pageSize < h.spans[d].pageSize + WRAP_PAGES {
      MoveTailOk(h, t, d);
    } else {
      MoveTailWraps(h, t, d);
      MisplacedBreaks(MoveTail(h, t, d), d);
    }
  }

  /** Before what is left of the ring's head `t` is filed again. */
  lemma CutUnfiled(h: Heap, d: Ptr, i: nat) returns (h2: Heap, t: Ptr)
    requires Core(h) && Blank(h, d) && i < 256 && h.rings[i] != []
    requires h.rings[i][0] in h.spans && 1 <= h.spans[d].pageSize < h.spans[h.rings[i][0]].pageSize < h.spans[d].pageSize + WRAP_PAGES
    ensures t == h.rings[i][0] && d != t && h2 == MoveTail(DropHead(h, i), t, d)
    ensures Core(h2) && Held(h2, t) && Held(h2, d) && Clean(h2.spans[t]) && h2.pageMap.Keys == h.pageMap.Keys
  {
    t := h.rings[i][0];
    BlankUnfiled(h, d);
    DropHeadOk(h, i);
    var h1 := DropHead(h, i);
    MoveTailOk(h1, t, d);
    MoveTailOwns(h1, t, d);
    Bytes32Exact(h.spans[t].pageSize - h.spans[d].pageSize);
    h2 := MoveTail(h1, t, d);
    assert t !in h2.rings[RingIndex(h2.spans[t].pageSize)] by {
      assert t in h.rings[RingIndex(h2.spans[t].pageSize)] ==> Parked(h, t, RingIndex(h2.spans[t].pageSize));
      assert Parked(h, t, i);
    }
  }

  /** Cutting `d` off the head of ring `i`: `d` is held with its pages, and what is left
      of the head is filed again. */
  lemma CutOk(h: Heap, d: Ptr, i: nat)
    requires Core(h) && Blank(h, d) && i < 256 && h.rings[i] != []
    requires h.rings[i][0] in h.spans && 1 <= h.spans[d].pageSize < h.spans[h.rings[i][0]].pageSize < h.spans[d].pageSize + WRAP_PAGES
    ensures Filed(h)
    ensures var h' := CutFrom(h, d, i);
            Core(h') && h'.pageMap.Keys == h.pageMap.Keys && Held(h', d) && InRing(h', h.rings[i][0])
  {
    var h2, t := CutUnfiled(h, d, i);
    PushOk(h2, t);
  }

  // ----- fetching a span ----------------------------------------------------

  lemma PrepareOk(h: Heap, npage: nat) returns (h1: Heap, d: Ptr)
    requires HeapInv(h)
    ensures Filed(h) && Prepare(h, npage) == (h1, d)
    ensures HeapInv(h1) && Blank(h1, d) && Extends(h, h1) && d !in h.spans
    ensures Clean(h1.spans[d]) && h1.spans[d].pageSize == npage
    ensures h1.spans[d].loc == if npage <= 8 then InPageHeap else Isolated
  {
    h1, d := AllocSpanOk(h, npage, 0);
    assert h1.obtained == h1.pageMap.Keys;
    if npage > 8 {
      IsolateOk(h, h1, d);
      h1 := Tweak(h1, d, h1.spans[d].(loc := Isolated));
    }
  }

  lemma IsolateOk(h: Heap, h1: Heap, d: Ptr)
    requires HeapInv(h1) && Blank(h1, d) && Extends(h, h1) && d !in h.spans
    ensures var h2 := Tweak(h1, d, h1.spans[d].(loc := Isolated)); HeapInv(h2) && Blank(h2, d) && Extends(h, h2)
  {
    TweakBlankOk(h1, d, h1.spans[d].(loc := Isolated));
  }

  lemma PrepareAdds(h: Heap, npage: nat)
    requires Filed(h)
    ensures var r := Prepare(h, npage);
            forall x :: x in r.0.spans && x !in h.spans ==> x == r.1 || x in r.0.pools
  {
    AllocSpanAdds(h, npage, 0);
  }

  lemma FiledHead(h: Heap, i: nat)
    requires RingsOk(h) && i < 256 && h.rings[i] != []
    ensures Parked(h, h.rings[i][0], i)
  {
    assert h.rings[i][0] in h.rings[i];
  }

  lemma FetchFromSystemOk(h: Heap)
    requires HeapInv(h)
    ensures Filed(h) && HeapInv(FetchFromSystem(h))
  {
    var h1, d := GrabBlockOk(h, SYS_FETCH_PAGES);
    PushOk(h1, d);
  }

  lemma PreparedOk(h: Heap, npage: nat)
    requires HeapInv(h)
    ensures Filed(h) && HeapInv(Prepare(h, npage).0) && Prepare(h, npage).1 in Prepare(h, npage).0.spans
    ensures Prepare(h, npage).0.spans[Prepare(h, npage).1].pageSize == npage
  {
    var h1, d := PrepareOk(h, npage);
  }

  /** Where the search for a longer ring starts: the request as an int. */
  function SearchStart(npage: nat): int {
    var low := npage % 0x1_0000_0000;
    if low < INT_PAGES then low else low - 0x1_0000_0000
  }

  /** Requests are kept in an int from here on wrongly. */
  const INT_PAGES := 0x8000_0000

  /** The search starts at the length asked for exactly below 2^31 pages; from there to 2^32 it starts
      below ring 0, and a request of 2^32 + 8 pages is taken for one of 8. */
  lemma SearchStartExact(npage: nat)
    ensures SearchStart(npage) == npage <==> npage < INT_PAGES
    ensures INT_PAGES <= npage < 0x1_0000_0000 ==> SearchStart(npage) < 0
    ensures SearchStart(0x1_0000_0008) == 8
  {
  }

  /** A span for `npage` pages: the head of the exact ring if there is one. */
  function FetchSpan(h: Heap, npage: nat): (r: (Heap, Ptr))
    requires HeapInv(h) && 1 <= npage < INT_PAGES
    ensures r.1 in r.0.spans
    decreases if h.rings[255] == [] then 1 else 0, 1
  {
    var i := RingIndex(npage);
    if h.rings[i] != [] then FiledHead(h, i); (DropHead(h, i), h.rings[i][0])
    else
      PreparedOk(h, npage);
      var (h1, d) := Prepare(h, npage);
      FetchMiss(h1, npage, d)
  }

  /** Otherwise the tail of the head of the first longer ring, for the new descriptor `d`; or
      a block of its own if no ring is for such a length; or one more block from the system
      and the same again, with another descriptor. */
  function FetchMiss(h: Heap, npage: nat, d: Ptr): (r: (Heap, Ptr))
    requires HeapInv(h) && 1 <= npage < INT_PAGES && h.rings[RingIndex(npage)] == []
    requires d in h.spans && h.spans[d].pageSize == npage
    ensures r.1 in r.0.spans
    decreases if h.rings[255] == [] then 1 else 0, 0
  {
    var j := FirstFiled(h.rings, npage);
    if j < 256 then
      FiledHead(h, j);
      (CutFrom(h, d, j), d)
    else if npage > 256 then GrabBlock(h, npage)
    else
      FetchFromSystemOk(h);
      FetchSpan(FetchFromSystem(h), npage)
  }

  // ----- what fetching and returning do to the rest -------------------------

  predicate SameSlots(a: Span, b: Span) {
    a.objs == b.objs && a.objLen == b.objLen && a.objsSize == b.objsSize && a.refcount == b.refcount
  }

  /** From `h` to `h'` the spans in use outside the page heap stay in use, unchanged, and
      only those in `gained` join them; slot lists and counters of no span change. */
  ghost predicate Keeps(h: Heap, h': Heap, gained: set<Ptr>) {
    && h'.base == h.base && h.pools <= h'.pools
    && (forall x :: x in h.spans ==> x in h'.spans && SameSlots(h.spans[x], h'.spans[x]))
    && (forall x :: x in h'.spans && x !in h.spans ==> Clean(h'.spans[x]))
    && (forall x :: Held(h, x) ==> Held(h', x) && h'.spans[x] == h.spans[x] && x !in gained)
    && (forall x :: Held(h', x) ==> Held(h, x) || x in gained)
  }

  lemma KeepsTrans(h: Heap, h1: Heap, h2: Heap, gained: set<Ptr>)
    requires Keeps(h, h1, {}) && Keeps(h1, h2, gained)
    ensures Keeps(h, h2, gained)
  {
  }

  lemma HeadKeeps(h: Heap, i: nat)
    requires Core(h) && i < 256 && h.rings[i] != []
    ensures Keeps(h, DropHead(h, i), {h.rings[i][0]})
  {
    var h' := DropHead(h, i);
    var d := h.rings[i][0];
    FiledHead(h, i);
    forall x
      ensures Held(h', x) <==> Held(h, x) || x == d
    {
      assert Owns(h, x) <==> Owns(h', x);
      if x in h.spans && x != d {
        assert InRing(h, x) <==> InRing(h', x);
      }
    }
  }

  lemma ExtendsKeeps(h: Heap, h1: Heap, d: Ptr)
    requires Core(h) && Core(h1) && Extends(h, h1) && d !in h.spans && d in h1.spans && Clean(h1.spans[d])
    requires forall x :: x in h1.spans && x !in h.spans ==> x == d || x in h1.pools
    ensures Held(h1, d) ==> Keeps(h, h1, {d})
    ensures !Held(h1, d) ==> Keeps(h, h1, {})
  {
    forall x | x in h.spans
      ensures Owns(h, x) <==> Owns(h1, x)
    {
      OwnsExtends(h, h1);
      if Owns(h1, x) {
        forall p | InRange(h.spans[x], p)
          ensures p in h.pageMap && h.pageMap[p] == x
        {
          assert InRange(h1.spans[x], p);
        }
      }
    }
  }

  lemma CutOwnsBack(h: Heap, d: Ptr, i: nat, x: Ptr)
    requires Core(h) && Blank(h, d) && i < 256 && h.rings[i] != []
    requires h.rings[i][0] in h.spans && 1 <= h.spans[d].pageSize < h.spans[h.rings[i][0]].pageSize
    requires x != d && x != h.rings[i][0]
    ensures Owns(h, x) <==> Owns(CutFrom(h, d, i), x)
  {
    var h' := CutFrom(h, d, i);
    var t := h.rings[i][0];
    FiledHead(h, i);
    MoveTailOwns(DropHead(h, i), t, d);
    if Owns(h, x) {
      assert Owns(DropHead(h, i), x);
    }
    if Owns(h', x) {
      forall p | InRange(h.spans[x], p)
        ensures p in h.pageMap && h.pageMap[p] == x
      {
        assert InRange(h'.spans[x], p);
      }
    }
  }

  lemma CutHeldBack(h: Heap, d: Ptr, i: nat, x: Ptr)
    requires Core(h) && Blank(h, d) && i < 256 && h.rings[i] != []
    requires h.rings[i][0] in h.spans && 1 <= h.spans[d].pageSize < h.spans[h.rings[i][0]].pageSize
    requires x != d && x != h.rings[i][0]
    ensures Held(h, x) <==> Held(CutFrom(h, d, i), x)
  {
    CutOwnsBack(h, d, i, x);
  }

  lemma CutKeeps(h: Heap, d: Ptr, i: nat)
    requires Core(h) && Blank(h, d) && i < 256 && h.rings[i] != []
    requires h.rings[i][0] in h.spans && 1 <= h.spans[d].pageSize < h.spans[h.rings[i][0]].pageSize < h.spans[d].pageSize + WRAP_PAGES
    ensures Keeps(h, CutFrom(h, d, i), {d})
  {
    var t := h.rings[i][0];
    var h' := CutFrom(h, d, i);
    assert !Held(h', t) by {
      CutOk(h, d, i);
    }
    assert !Held(h, t) by {
      FiledHead(h, i);
    }
    assert !Held(h, d) by {
      BlankUnfiled(h, d);
    }
    forall x | x != t && x != d
      ensures Held(h, x) <==> Held(h', x)
    {
      CutHeldBack(h, d, i, x);
    }
  }

  /** Filing a span that was only just gained leaves the spans in use as they were. */
  lemma FiledKeeps(h: Heap, h1: Heap, d: Ptr)
    requires Keeps(h, h1, {d}) && !Held(h, d) && Held(h1, d)
    ensures Keeps(h, Push(h1, RingIndex(h1.spans[d].pageSize), d), {})
  {
    var h2 := Push(h1, RingIndex(h1.spans[d].pageSize), d);
    forall x
      ensures Held(h2, x) <==> Held(h1, x) && x != d
    {
      assert Owns(h1, x) <==> Owns(h2, x);
    }
  }

  /** Length of the span that a request for `npage` pages gets. */
  function FetchedPages(h: Heap, npage: nat): nat
    requires RingsOk(h)
  {
    if npage < 256 then npage
    else if h.rings[255] != [] then
      FiledHead(h, 255);
      h.spans[h.rings[255][0]].pageSize
    else if npage == 256 then SYS_FETCH_PAGES
    else npage
  }

  /** The request is served by splitting the head of ring 255. */
  predicate SplitsLong(h: Heap, npage: nat)
    requires |h.rings| == 256
  {
    h.rings[RingIndex(npage)] == [] && FirstFiled(h.rings, npage) == 255
  }

  /** If it is, fewer than 2^20 pages are left over; the other rings hold no span so long. */
  predicate SplitFits(h: Heap, npage: nat)
    requires RingsOk(h)
  {
    SplitsLong(h, npage) ==> (FiledHead(h, 255); h.spans[h.rings[255][0]].pageSize < npage + WRAP_PAGES)
  }

  /** Every request gets a held span, exactly as long as asked for below 256 pages; the
      invariant is kept and no other span in use is touched. */
  lemma {:induction false} FetchSpanOk(h: Heap, npage: nat) returns (h': Heap, d: Ptr)
    requires HeapInv(h) && 1 <= npage < INT_PAGES && SplitFits(h, npage)
    ensures FetchSpan(h, npage) == (h', d)
    ensures HeapInv(h') && Keeps(h, h', {d}) && Held(h', d) && Clean(h'.spans[d])
    ensures h'.spans[d].pageSize == FetchedPages(h, npage)
    decreases if h.rings[255] == [] then 1 else 0, 1
  {
    var i := RingIndex(npage);
    if h.rings[i] != [] {
      DropHeadOk(h, i);
      HeadKeeps(h, i);
      h', d := DropHead(h, i), h.rings[i][0];
    } else {
      var h1, d1 := PrepareOk(h, npage);
      PrepareAdds(h, npage);
      BlankUnfiled(h1, d1);
      ExtendsKeeps(h, h1, d1);
      h', d := FetchMissOk(h1, npage, d1);
      KeepsTrans(h, h1, h', {d});
    }
  }

  lemma {:induction false} FetchMissOk(h: Heap, npage: nat, d0: Ptr) returns (h': Heap, d: Ptr)
    requires HeapInv(h) && 1 <= npage < INT_PAGES && h.rings[RingIndex(npage)] == [] && SplitFits(h, npage)
    requires Blank(h, d0) && Clean(h.spans[d0]) && h.spans[d0].pageSize == npage
    ensures FetchMiss(h, npage, d0) == (h', d)
    ensures HeapInv(h') && Keeps(h, h', {d}) && Held(h', d) && Clean(h'.spans[d])
    ensures h'.spans[d].pageSize == FetchedPages(h, npage)
    decreases if h.rings[255] == [] then 1 else 0, 0
  {
    var j := FirstFiled(h.rings, npage);
    if j < 256 {
      FiledHead(h, j);
      CutOk(h, d0, j);
      CutKeeps(h, d0, j);
      h', d := CutFrom(h, d0, j), d0;
    } else if npage > 256 {
      h', d := GrabBlockOk(h, npage);
      ExtendsKeeps(h, h', d);
    } else {
      var h1 := RefillKeeps(h);
      h', d := FetchSpanOk(h1, npage);
      KeepsTrans(h, h1, h', {d});
    }
  }

  lemma RefillKeeps(h: Heap) returns (h1: Heap)
    requires HeapInv(h) && h.rings[255] == []
    ensures Filed(h) && h1 == FetchFromSystem(h) && HeapInv(h1) && Keeps(h, h1, {})
    ensures h1.rings[255] != [] && h1.rings[255][0] in h1.spans
    ensures h1.spans[h1.rings[255][0]].pageSize == SYS_FETCH_PAGES && forall i :: 0 <= i < 255 ==> h1.rings[i] == h.rings[i]
  {
    FetchFromSystemOk(h);
    h1 := FetchFromSystem(h);
    var h0, d := GrabBlockOk(h, SYS_FETCH_PAGES);
    ExtendsKeeps(h, h0, d);
    FiledKeeps(h, h0, d);
  }

  // ----- when the 32-bit product wraps --------------------------------------

  lemma CutWraps(h: Heap, d: Ptr, i: nat)
    requires Core(h) && Blank(h, d) && i < 256 && h.rings[i] != [] && 1 <= h.spans[d].pageSize
    requires h.rings[i][0] in h.spans && h.spans[d].pageSize + WRAP_PAGES <= h.spans[h.rings[i][0]].pageSize
    ensures Misplaced(CutFrom(h, d, i), d)
  {
    var t := h.rings[i][0];
    var h1 := DropHead(h, i);
    BlankUnfiled(h, d);
    DropHeadOk(h, i);
    MoveTailWraps(h1, t, d);
    var p :| p in MoveTail(h1, t, d).pageMap && MoveTail(h1, t, d).pageMap[p] == d;
    assert p in CutFrom(h, d, i).pageMap && CutFrom(h, d, i).pageMap[p] == d;
  }

  /** fetch_span leaves the page heap consistent exactly if the split it makes, if any, fits. */
  lemma FetchSpanExact(h: Heap, npage: nat)
    requires HeapInv(h) && 1 <= npage < INT_PAGES
    ensures HeapInv(FetchSpan(h, npage).0) <==> SplitFits(h, npage)
    ensures !SplitFits(h, npage) ==> Misplaced(FetchSpan(h, npage).0, FetchSpan(h, npage).1)
  {
    if SplitFits(h, npage) {
      var h', d := FetchSpanOk(h, npage);
    } else {
      var h1, d1 := PrepareOk(h, npage);
      FiledHead(h1, 255);
      CutWraps(h1, d1, 255);
      MisplacedBreaks(CutFrom(h1, d1, 255), d1);
    }
  }

  /** No span is long enough for a split by 8 pages or more to wrap. */
  ghost predicate Limited(h: Heap) {
    forall d :: d in h.spans ==> h.spans[d].pageSize < WRAP_PAGES + 8
  }

  lemma LimitedFits(h: Heap, npage: nat)
    requires RingsOk(h) && Limited(h) && npage >= 8
    ensures SplitFits(h, npage)
  {
    if SplitsLong(h, npage) {
      FiledHead(h, 255);
    }
  }

  lemma AllocLimited(h: Heap, npages: nat, page: int)
    requires Filed(h) && Limited(h) && npages < WRAP_PAGES + 8
    ensures Limited(AllocSpan(h, npages, page).0)
  {
  }

  lemma GrabLimited(h: Heap, npage: nat)
    requires Filed(h) && Limited(h) && npage < WRAP_PAGES + 8
    ensures Limited(GrabBlock(h, npage).0)
  {
    AllocLimited(Sbrk(h, npage), npage, h.brk);
  }

  /** Requests below the limit leave all spans below it. */
  lemma {:induction false} FetchLimited(h: Heap, npage: nat)
    requires HeapInv(h) && Limited(h) && 1 <= npage < WRAP_PAGES + 8
    ensures Limited(FetchSpan(h, npage).0)
    decreases if h.rings[255] == [] then 1 else 0, 1
  {
    if h.rings[RingIndex(npage)] == [] {
      PreparedOk(h, npage);
      AllocLimited(h, npage, 0);
      FetchMissLimited(Prepare(h, npage).0, npage, Prepare(h, npage).1);
    }
  }

  lemma {:induction false} FetchMissLimited(h: Heap, npage: nat, d: Ptr)
    requires HeapInv(h) && Limited(h) && 1 <= npage < WRAP_PAGES + 8 && h.rings[RingIndex(npage)] == []
    requires d in h.spans && h.spans[d].pageSize == npage
    ensures Limited(FetchMiss(h, npage, d).0)
    decreases if h.rings[255] == [] then 1 else 0, 0
  {
    var j := FirstFiled(h.rings, npage);
    if j < 256 {
      FiledHead(h, j);
    } else if npage > 256 {
      GrabLimited(h, npage);
    } else {
      GrabLimited(h, SYS_FETCH_PAGES);
      FetchFromSystemOk(h);
      FetchLimited(FetchFromSystem(h), npage);
    }
  }

  // ----- refills and remainders ---------------------------------------------

  /** Some ring can serve the request. */
  predicate OnFile(h: Heap, npage: nat)
    requires |h.rings| == 256
  {
    h.rings[RingIndex(npage)] != [] || FirstFiled(h.rings, npage) < 256
  }

  lemma AllocGrows(h: Heap, npages: nat, page: int)
    requires Filed(h)
    ensures h.brk <= AllocSpan(h, npages, page).0.brk <= h.brk + POOL_PAGES
  {
  }

  /** A request of at most 256 pages that some ring can serve takes no block from the system. */
  lemma FetchFiled(h: Heap, npage: nat)
    requires HeapInv(h) && 1 <= npage <= 256 && OnFile(h, npage)
    ensures h.brk <= FetchSpan(h, npage).0.brk <= h.brk + 1440
  {
    if h.rings[RingIndex(npage)] == [] {
      PreparedOk(h, npage);
      AllocGrows(h, npage, 0);
      FiledHead(Prepare(h, npage).0, FirstFiled(h.rings, npage));
    }
  }

  lemma RefillGrows(h: Heap)
    requires Filed(h)
    ensures h.brk + SYS_FETCH_PAGES <= FetchFromSystem(h).brk <= h.brk + SYS_FETCH_PAGES + POOL_PAGES
  {
    AllocGrows(Sbrk(h, SYS_FETCH_PAGES), SYS_FETCH_PAGES, h.brk);
  }

  /** One that none can serve takes exactly one, of 65,536 pages, besides pages for descriptors. */
  lemma FetchRefills(h: Heap, npage: nat)
    requires HeapInv(h) && 1 <= npage <= 256 && !OnFile(h, npage)
    ensures h.brk + 65536 <= FetchSpan(h, npage).0.brk <= h.brk + 65536 + 3 * 1440
  {
    PreparedOk(h, npage);
    AllocGrows(h, npage, 0);
    var h1 := Prepare(h, npage).0;
    FetchFromSystemOk(h1);
    RefillGrows(h1);
    FetchFiled(FetchFromSystem(h1), npage);
  }

  lemma CutLeaves(h: Heap, d: Ptr, i: nat)
    requires |h.rings| == 256 && i < 256 && h.rings[i] != [] && d in h.spans && d != h.rings[i][0]
    requires h.rings[i][0] in h.spans && h.spans[d].pageSize < h.spans[h.rings[i][0]].pageSize
    ensures var t := h.rings[i][0]; var h' := CutFrom(h, d, i);
      && t in h'.spans && d in h'.spans && |h'.rings| == 256 && HeadsRing(h', t)
      && h'.spans[t].pageSize + h.spans[d].pageSize == h.spans[t].pageSize > h.spans[d].pageSize
      && h'.spans[t].pageId == h.spans[t].pageId && h'.spans[d].pageId == h.spans[t].pageId + h'.spans[t].pageSize
  {
  }

  /** A split hands out the last pages, and leaves the first, which go to the head of their ring. */
  lemma SplitLeaves(h: Heap, npage: nat)
    requires HeapInv(h) && 1 <= npage < INT_PAGES && h.rings[RingIndex(npage)] == [] && FirstFiled(h.rings, npage) < 256
    ensures var t := h.rings[FirstFiled(h.rings, npage)][0]; var (h', d) := FetchSpan(h, npage);
      && t in h.spans && t in h'.spans && |h'.rings| == 256
      && h'.spans[t].pageSize + npage == h.spans[t].pageSize > npage && HeadsRing(h', t)
      && h'.spans[t].pageId == h.spans[t].pageId && h'.spans[d].pageId == h.spans[t].pageId + h'.spans[t].pageSize
  {
    var i := FirstFiled(h.rings, npage);
    FiledHead(h, i);
    var h1, d1 := PrepareOk(h, npage);
    CutLeaves(h1, d1, i);
  }

  /** Other descriptors are as they were, and `d` alone is no longer in use. */
  ghost predicate Gives(h: Heap, h': Heap, d: Ptr) {
    && h'.base == h.base && h'.pools == h.pools && h'.spans.Keys == h.spans.Keys
    && (forall x :: x in h.spans && x != d ==> h'.spans[x] == h.spans[x])
    && (forall x :: Held(h', x) <==> Held(h, x) && x != d)
  }

  lemma CleanHeldOk(h: Heap, d: Ptr, sp: Span)
    requires Core(h) && Held(h, d)
    requires sp.start == h.spans[d].start && sp.pageId == h.spans[d].pageId && sp.pageSize == h.spans[d].pageSize
    ensures Core(Tweak(h, d, sp))
    ensures forall x :: Held(Tweak(h, d, sp), x) <==> Held(h, x)
  {
    var h' := Tweak(h, d, sp);
    forall x
      ensures Owns(h', x) <==> Owns(h, x)
    {
      assert Owns(h', x) ==> forall p :: InRange(h.spans[x], p) ==> InRange(h'.spans[x], p);
      assert Owns(h, x) ==> forall p :: InRange(h'.spans[x], p) ==> InRange(h.spans[x], p);
    }
    assert RingsOk(h') by {
      forall j, x | 0 <= j < 256 && x in h'.rings[j]
        ensures Parked(h', x, j)
      {
        assert Parked(h, x, j);
      }
    }
    HousedKeeps(h, h');
  }

  lemma RemapOwned(h: Heap, d: Ptr)
    requires Owns(h, d)
    ensures UpdateMapping(h, d).pageMap == h.pageMap
  {
    assert forall p :: p in Pages(h.spans[d].pageId, h.spans[d].pageSize) ==> InRange(h.spans[d], p);
  }

  /** A span whose slots are all home goes back on file, and nothing else changes. */
  lemma ReturnSpanOk(h: Heap, d: Ptr)
    requires HeapInv(h) && Held(h, d) && h.spans[d].refcount == 0
    ensures HeapInv(ReturnSpan(h, d)) && Gives(h, ReturnSpan(h, d), d)
    ensures Clean(ReturnSpan(h, d).spans[d]) && HeadsRing(ReturnSpan(h, d), d)
  {
    var sp := h.spans[d].(objsSize := 0, objLen := 0, objs := [], loc := InPageHeap);
    var h1 := Tweak(h, d, sp);
    CleanHeldOk(h, d, sp);
    PushOk(h1, d);
    var h2 := Push(h1, RingIndex(sp.pageSize), d);
    RemapOwned(h2, d);
    assert ReturnSpan(h, d) == h2;
    forall x
      ensures Held(h2, x) <==> Held(h1, x) && x != d
    {
      assert Owns(h1, x) <==> Owns(h2, x);
    }
  }

  lemma ReturnSpanMap(h: Heap, d: Ptr)
    requires |h.rings| == 256 && Owns(h, d)
    ensures ReturnSpan(h, d).pageMap == h.pageMap
  {
    var sp := h.spans[d].(objsSize := 0, objLen := 0, objs := [], loc := InPageHeap);
    var h1 := Push(Tweak(h, d, sp), RingIndex(sp.pageSize), d);
    forall p | InRange(h1.spans[d], p)
      ensures p in h1.pageMap && h1.pageMap[p] == d
    {
      assert InRange(h.spans[d], p);
    }
    RemapOwned(h1, d);
  }

  /** The span returned last is the first to go out again: the next request for its ring gets it,
      and the rings are as before the return. */
  lemma ReturnThenFetch(h: Heap, d: Ptr, npage: nat) returns (h1: Heap)
    requires HeapInv(h) && Held(h, d) && h.spans[d].refcount == 0
    requires 1 <= npage < INT_PAGES && RingIndex(npage) == RingIndex(h.spans[d].pageSize)
    ensures h1 == ReturnSpan(h, d) && HeapInv(h1)
    ensures FetchSpan(h1, npage).1 == d && FetchSpan(h1, npage).0.rings == h.rings
    ensures FetchSpan(h1, npage).0.spans == h1.spans && FetchSpan(h1, npage).0.pageMap == h.pageMap && h1.pageMap == h.pageMap
    ensures h1.base == h.base && h1.spans[d].start == h.spans[d].start
  {
    ReturnSpanOk(h, d);
    h1 := ReturnSpan(h, d);
    var i := RingIndex(npage);
    assert h1.rings == h.rings[i := [d] + h.rings[i]];
    assert ([d] + h.rings[i])[1..] == h.rings[i];
    assert h.rings[i := [d] + h.rings[i]][i := h.rings[i]] == h.rings;
    ReturnSpanMap(h, d);
  }

  /** No page has two owners. */
  lemma OwnersDisjoint(h: Heap, x: Ptr, y: Ptr)
    requires Owns(h, x) && Owns(h, y) && x != y
    ensures forall p :: !(InRange(h.spans[x], p) && InRange(h.spans[y], p))
  {
  }
}
