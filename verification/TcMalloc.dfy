/** tc_malloc and tc_free as the program runs them: walks, loops and assignments over the shared
    structures and the caller's cache, each proved to do what the step functions say. */
module TcMalloc {
  import opened Sequences
  import opened SizeClasses
  import opened Slots
  import opened PageHeap
  import opened Runs
  import opened PageCache
  import opened Allocator
  import opened AllocatorRuns
  import opened AllocatorSafety
  import opened BlockReuse
  import opened StartUp

  // ----- calls as runs ------------------------------------------------------

  /** Only the list of class `c` of thread `t` may differ. */
  predicate OtherLists(before: map<Tid, Thread>, after: map<Tid, Thread>, t: Tid, c: nat) {
    && t in before && t in after && |before[t].lists| == |after[t].lists|
    && forall k :: 0 <= k < |before[t].lists| && k != c ==> after[t].lists[k] == before[t].lists[k]
  }

  /** Exactly the lists of the classes below `c` have slots, and their limits are raised. */
  predicate FilledBelow(th: Thread, c: nat) {
    forall k :: 0 <= k < |th.lists| ==> (th.lists[k].objs != [] <==> k < c) && (k < c ==> th.lists[k].maxLength > 1)
  }

  lemma FilledNext(before: map<Tid, Thread>, after: map<Tid, Thread>, t: Tid, c: nat)
    requires OtherLists(before, after, t, c) && c < |before[t].lists| && FilledBelow(before[t], c) && after[t].lists[c].objs != []
    requires after[t].lists[c].maxLength > 1
    ensures FilledBelow(after[t], c + 1)
  {
  }

  /** Some run, with requests below the limit, leads from `s` to `s'`: every set with `s` that is
      closed under such steps has `s'`. */
  ghost predicate Leads(s: State, s': State) {
    forall states :: StepClosed(states) && s in states ==> s' in states
  }

  ghost predicate StepClosed(states: iset<State>) {
    forall s, act, s' :: s in states && Goes(s, act, s') && Moderate(act) ==> s' in states
  }

  lemma LeadsOn(s: State, s1: State, act: Action, s2: State)
    requires Leads(s, s1) && Goes(s1, act, s2) && Moderate(act)
    ensures Leads(s, s2)
  {
    forall states | StepClosed(states) && s in states
      ensures s2 in states
    {
      assert s1 in states;
    }
  }

  lemma {:induction false} RunLeads(s: State, acts: seq<Action>, s': State)
    requires ModerateRun(s, acts, s')
    ensures Leads(s, s')
    decreases |acts|
  {
    if acts != [] {
      var s1 :| StepRelation()(s, acts[0], s1) && Path(StepRelation(), s1, acts[1..], s');
      assert Moderate(acts[0]);
      RunLeads(s1, acts[1..], s');
      forall states | StepClosed(states) && s in states
        ensures s' in states
      {
        assert Goes(s, acts[0], s1) && s1 in states;
      }
    }
  }

  lemma OnlyStep(s: State, act: Action, s': State)
    requires Run(s, [act], s')
    ensures Goes(s, act, s')
  {
    var s1 :| StepRelation()(s, act, s1) && Path(StepRelation(), s1, [act][1..], s');
  }

  lemma TwoSteps(s: State, x: Action, y: Action, s': State) returns (s1: State)
    requires Run(s, [x] + [y], s')
    ensures Goes(s, x, s1) && Goes(s1, y, s')
  {
    s1 :| StepRelation()(s, x, s1) && Path(StepRelation(), s1, ([x] + [y])[1..], s');
    assert ([x] + [y])[1..] == [y];
    OnlyStep(s1, y, s');
  }

  lemma TwoReachable(s: State, x: Action, y: Action, s': State)
    requires Reachable(s) && Run(s, [x] + [y], s') && Moderate(x) && Moderate(y)
    ensures Reachable(s') && Leads(s, s')
  {
    RunLeads(s, [x] + [y], s');
    LeadsReachable(s, s');
  }

  lemma LeadsReachable(s: State, s': State)
    requires Reachable(s) && Leads(s, s')
    ensures Reachable(s')
  {
    forall states | Closed(states)
      ensures s' in states
    {
      assert StepClosed(states) && s in states;
    }
  }

  /** A fetch leaves a limit above 1. */
  lemma LimitRaised(s: State, t: Tid, c: nat)
    requires Inv(s) && Idle(s, t) && c < CLASSES
    ensures GrownLimit(c, s.threads[t].lists[c].maxLength) > 1
  {
    assert ThreadOk(s.heap, s.threads[t]) && ListOk(s.heap, s.threads[t].lists[c], c);
  }

  /** What was fetched is not empty. */
  lemma FetchedSome(s: State, t: Tid)
    requires Inv(s) && t in s.threads && s.threads[t].moving.Fetched?
    ensures |s.threads[t].moving.chain| >= 1 && |s.threads[t].lists| == CLASSES && s.threads[t].moving.class_ < CLASSES
  {
    assert ThreadOk(s.heap, s.threads[t]);
  }

  lemma PoppedNew(s: State, t: Tid, size: nat)
    requires Inv(s) && Enabled(s, PopStep(t, size))
    ensures PopResult(s, t, size) !in s.live
  {
    assert ThreadOk(s.heap, s.threads[t]) && ListOk(s.heap, s.threads[t].lists[GetIndex(size)], GetIndex(size));
    PopMoves(s, t, size);
  }

  /** `d` is the span of the last of the first `i` slots of the chain. */
  predicate LastReturned(h: Heap, chain: seq<Addr>, i: nat, d: Ptr) {
    0 < i <= |chain| ==> Mapped(h, chain[i - 1]) && d == SpanAt(h, chain[i - 1])
  }

  /** One pass of the loop. */
  lemma ReturnPass(h: Heap, s: State, t: Tid, c: nat, chain: seq<Addr>, i: nat)
    requires Flushes(s, t) && i < |chain| && s.threads[t].moving == Flushing(c, chain[i..])
    requires h.base == s.heap.base && h.pageMap == s.heap.pageMap
    ensures Mapped(s.heap, chain[i]) && LastReturned(h, chain, i + 1, SpanAt(s.heap, chain[i]))
    ensures Flushable(s, t) && Flushes(ReturnOne(s, t), t) && Returned(ReturnOne(s, t), t) == Returned(s, t)
    ensures ReturnOne(s, t).threads[t].moving == Flushing(c, chain[i + 1..]) && s.threads[t].moving.chain[0] == chain[i]
    ensures ReturnOne(s, t).heap.pageMap == s.heap.pageMap
  {
    FlushesOn(s, t);
    assert chain[i..][1..] == chain[i + 1..];
  }

  /** The steps that a tc_malloc of thread `t` is. */
  function MallocSteps(s: State, t: Tid, size: nat): seq<Action>
    requires Idle(s, t) && size >= 1
  {
    SmallestClass(size);
    if size > THRESH_ALLOC then [LargeMallocStep(t, size)]
    else if s.threads[t].lists[GetIndex(size)].objs != [] then [PopStep(t, size)]
    else [FetchStep(t, GetIndex(size))] + [InsertStep(t)] + [PopStep(t, size)]
  }

  /** Whether the cache of the block's class is at its limit when the block comes back. */
  predicate FlushesFull(s: State, t: Tid, a: Addr)
    requires Idle(s, t)
  {
    FreesSmall(s.heap, a) && IsClass(FreedClass(s.heap, a)) &&
    s.threads[t].lists[FreedClass(s.heap, a)].objLen == s.threads[t].lists[FreedClass(s.heap, a)].maxLength
  }

  /** The steps that a tc_free by thread `t` is. */
  function FreeSteps(s: State, t: Tid, a: Addr): seq<Action>
    requires Idle(s, t)
  {
    if !FreesSmall(s.heap, a) then [LargeFreeStep(t, a)]
    else if FlushesFull(s, t, a) then [FreeStep(t, a)] + [FlushStep(t)]
    else [FreeStep(t, a)]
  }

  /** Freeing a slot is a step, and leaves the caller flushing exactly if its list was full. */
  lemma FreeGoes(s: State, t: Tid, a: Addr)
    requires Inv(s) && Enabled(s, FreeStep(t, a))
    ensures IsClass(FreedClass(s.heap, a)) && Goes(s, FreeStep(t, a), FreeSlot(s, t, a)) && Inv(FreeSlot(s, t, a))
    ensures t in FreeSlot(s, t, a).threads
    ensures if FlushesFull(s, t, a) then Enabled(FreeSlot(s, t, a), FlushStep(t)) else FreeSlot(s, t, a).threads[t].moving == Nothing
  {
    LiveSmall(s, a);
    FreeSlotOk(s, t, a);
  }

  /** The return loop changes nothing of the thread but what is left to return. */
  lemma {:induction false} ReturnedThread(s: State, t: Tid)
    requires Flushes(s, t)
    ensures t in Returned(s, t).threads && Returned(s, t).threads[t].lists == s.threads[t].lists
    decreases |s.threads[t].moving.chain|
  {
    if s.threads[t].moving.chain != [] {
      FlushesOn(s, t);
      ReturnedThread(ReturnOne(s, t), t);
    }
  }

  lemma FlushedThread(s: State, t: Tid)
    requires Inv(s) && Enabled(s, FlushStep(t))
    ensures t in Flush(s, t).threads && Flush(s, t).threads[t].lists == s.threads[t].lists && Flush(s, t).threads[t].moving == Nothing
  {
    FlushParts(s, t);
    ReturnedThread(s, t);
  }

  predicate Raised(threads: map<Tid, Thread>, t: Tid) {
    t in threads && |threads[t].lists| == CLASSES && forall c :: 0 <= c < CLASSES ==> threads[t].lists[c].maxLength > 1
  }

  lemma LiveMapped(s: State, a: Addr)
    requires Inv(s) && a in s.live
    ensures Mapped(s.heap, a) && SpanAt(s.heap, a) in s.heap.spans
  {
    LiveSmall(s, a);
    assert LiveAt(s.heap, a, s.live[a]);
  }

  lemma FlushParts(s: State, t: Tid)
    requires Inv(s) && Enabled(s, FlushStep(t))
    ensures Flushes(s, t) && Mapped(s.heap, Last(s.threads[t].moving.chain))
    ensures var r := Returned(s, t); var c := s.threads[t].moving.class_; var d := SpanAt(s.heap, Last(s.threads[t].moving.chain));
      && |r.heap.rings| == 256 && c < |r.classes| && d in r.heap.spans && t in r.threads
      && Flush(s, t) == Done(Settle(r, c, d), t)
  {
    LastSpan(s, t);
    ReturnedAll(s, t);
  }

  /** The split that the call makes, if any, does not wrap. */
  ghost predicate MallocFits(s: State, t: Tid, size: nat)
    requires Inv(s) && Ready(s, t) && 1 <= size < INT_BYTES
  {
    SmallestClass(size);
    if size > THRESH_ALLOC then Fits(s, LargeMallocStep(t, size))
    else s.threads[t].lists[GetIndex(size)].objs == [] ==> Fits(s, FetchStep(t, GetIndex(size)))
  }

  /** In a reachable state no call of tc_malloc makes a split that wraps, even for a request past the
      limit. */
  lemma ReachableFits(s: State, t: Tid, size: nat)
    requires Reachable(s) && Ready(s, t) && 1 <= size < INT_BYTES
    ensures Inv(s) && MallocFits(s, t, size)
  {
    ReachableOk(s);
    SmallestClass(size);
    if size > THRESH_ALLOC {
      StepLimited(s, LargeMallocStep(t, size));
    } else if s.threads[t].lists[GetIndex(size)].objs == [] {
      StepLimited(s, FetchStep(t, GetIndex(size)));
    }
  }

  // ----- loops over one list ------------------------------------------------

  /** `sp` with the slots pushed one after the other. */
  function Pushed(sp: Span, slots: seq<Addr>): Span {
    sp.(objs := Reversed(slots) + sp.objs, objLen := sp.objLen + |slots|)
  }

  function PushedOne(sp: Span, a: Addr): Span {
    sp.(objs := [a] + sp.objs, objLen := sp.objLen + 1)
  }

  lemma PushedStep(sp: Span, a: Addr, rest: seq<Addr>)
    ensures Pushed(PushedOne(sp, a), rest) == Pushed(sp, [a] + rest)
  {
    ReversedOnto(a, rest, sp.objs);
  }

  lemma PushedNone(sp: Span)
    ensures Pushed(sp, []) == sp
  {
    assert Reversed<Addr>([]) + sp.objs == sp.objs;
  }

  /** The loop that cuts a span into slots and pushes each. */
  method PushSlots(sp0: Span, z: nat) returns (sp: Span)
    requires z > 0
    ensures sp.(loc := CentralList) == Carved(sp0, z)
  {
    sp := sp0.(objsSize := z);
    ghost var done := Pushed(sp, SlotsOf(sp));
    var ptr, end := sp.start, SpanEnd(sp);
    while ptr + z <= end
      invariant Pushed(sp, Carve(ptr, end, z)) == done
      decreases end - ptr
    {
      PushedStep(sp, ptr, Carve(ptr + z, end, z));
      sp := PushedOne(sp, ptr);
      ptr := ptr + z;
    }
    PushedNone(sp);
  }

  /** The loop of insert_to_threadcache: the slots of a chain, one by one, to the front. */
  method PushAll(l0: ThreadList, chain: seq<Addr>) returns (l: ThreadList)
    ensures l == l0.(objs := Reversed(chain) + l0.objs, objLen := l0.objLen + |chain|)
  {
    l := l0;
    var rest := chain;
    while rest != []
      invariant l.maxLength == l0.maxLength && l.objLen + |rest| == l0.objLen + |chain|
      invariant Reversed(rest) + l.objs == Reversed(chain) + l0.objs
      decreases |rest|
    {
      ReversedOnto(rest[0], rest[1..], l.objs);
      assert [rest[0]] + rest[1..] == rest;
      l := l.(objs := [rest[0]] + l.objs, objLen := l.objLen + 1);
      rest := rest[1..];
    }
    assert Reversed<Addr>([]) + l.objs == l.objs;
  }

  class Arena {
    const pages: Cache
    var classes: seq<ClassRings>
    var threads: map<Tid, Thread>
    ghost var live: map<Addr, nat>

    ghost function Model(): State
      reads this, pages
    {
      State(pages.Model(), classes, threads, live)
    }

    /** The globals zeroed, with no thread yet. */
    constructor (brkAddr: nat)
      requires brkAddr % 4096 == 0
      ensures Model() == Init(brkAddr) && Inv(Model()) && fresh(pages)
    {
      pages := new Cache(brkAddr);
      classes := seq(CLASSES, _ => ClassRings([], [], {}));
      threads := map[];
      live := map[];
      new;
      InitOk(brkAddr);
    }

    // ----- central cache ----------------------------------------------------

    /** Cuts the span `d` into slots. */
    method CarveSpan(d: Ptr, z: nat)
      requires d in pages.spans && z > 0
      modifies pages`spans
      ensures pages.Model() == Tweak(old(pages.Model()), d, Carved(old(pages.spans[d]), z))
    {
      var sp := PushSlots(pages.spans[d], z);
      pages.WriteSpan(d, sp.(loc := CentralList));
    }

    /** get_span_central. */
    method GetSpanCentral(c: nat) returns (d: Ptr)
      requires CentralReady(Model(), c) && pages.base % 4096 == 0
      modifies this`classes, pages
      ensures Allocator.GetSpanCentral(old(Model()), c) == (Model(), d)
    {
      var list := classes[c].list;
      var k := 0;
      while k < |list| && pages.spans[list[k]].objs == []
        invariant 0 <= k <= |list| && forall j :: 0 <= j < k ==> pages.spans[list[j]].objs == []
      {
        k := k + 1;
      }
      assert k == FirstWithSlots(pages.spans, list);
      if k < |list| {
        return list[k];
      }
      ClassRoundTrip(c);
      d := pages.FetchSpan(BATCH);
      CarveSpan(d, IndexToSize(c));
      classes := classes[c := classes[c].(list := [d] + classes[c].list)];
    }

    /** fetch_objs: counts off slots, cuts the list there, and moves a span with nothing left. */
    method FetchObjs(c: nat, num: nat) returns (chain: seq<Addr>)
      requires CentralReady(Model(), c) && pages.base % 4096 == 0
      modifies this`classes, pages
      ensures Allocator.FetchObjs(old(Model()), c, num) == (Model(), chain)
    {
      GetReady(Model(), c);
      var d := GetSpanCentral(c);
      var sp := pages.spans[d];
      var diff := if sp.refcount <= sp.objLen then sp.objLen - sp.refcount else 0x1_0000_0000_0000_0000;
      var maxIter := Min(num, diff);
      var n := 0;
      while n < |sp.objs| && n < maxIter
        invariant 0 <= n <= |sp.objs| && n <= maxIter
      {
        n := n + 1;
      }
      assert n == FetchCount(sp, num);
      chain := sp.objs[..n];
      TakeSlots(c, d, n);
    }

    method TakeSlots(c: nat, d: Ptr, n: nat)
      requires c < |classes| && d in pages.spans && n <= |pages.spans[d].objs|
      modifies this`classes, pages`spans
      ensures Model() == Shrink(old(Model()), c, d, n)
    {
      var sp := pages.spans[d];
      sp := sp.(objs := sp.objs[n..], refcount := sp.refcount + n);
      if sp.refcount == sp.objLen {
        var cl := classes[c];
        classes := classes[c := cl.(list := Without(cl.list, d), idle := [d] + cl.idle)];
        sp := sp.(loc := CentralIdle);
      }
      pages.WriteSpan(d, sp);
    }

    // ----- thread caches ----------------------------------------------------

    /** insert_to_threadcache. */
    method InsertToThreadCache(t: Tid)
      requires t in threads && threads[t].moving.Fetched? && threads[t].moving.class_ < |threads[t].lists|
      modifies this`threads
      ensures Model() == Insert(old(Model()), t)
    {
      var th := threads[t];
      var c := th.moving.class_;
      var l := PushAll(th.lists[c], th.moving.chain);
      threads := threads[t := SetList(th, c, l, Nothing)];
    }

    /** fetch_from_centralcache up to the unlock: the limit is raised, up to the old one fetched. */
    method FetchUpTo(t: Tid, c: nat)
      requires CentralReady(Model(), c) && Idle(Model(), t) && pages.base % 4096 == 0
      modifies this`classes, this`threads, pages
      ensures Model() == Fetch(old(Model()), t, c)
    {
      var th := threads[t];
      var chain := FetchObjs(c, FetchLimit(th.lists[c].maxLength));
      threads := threads[t := WithChain(th, c, chain)];
    }

    /** That part as a step. */
    method FetchChain(t: Tid, c: nat)
      requires Inv(Model()) && Enabled(Model(), FetchStep(t, c)) && Fits(Model(), FetchStep(t, c))
      modifies this`classes, this`threads, pages
      ensures Goes(old(Model()), FetchStep(t, c), Model()) && Inv(Model())
      ensures t in threads && threads[t].moving.Fetched? && threads[t].moving.class_ == c
      ensures OtherLists(old(threads), threads, t, c) && threads[t].lists[c].maxLength > 1
    {
      FetchOk(Model(), t, c);
      LimitRaised(Model(), t, c);
      FetchUpTo(t, c);
    }

    /** insert_to_threadcache as a step. */
    method InsertChain(t: Tid, c: nat)
      requires Inv(Model()) && t in threads && threads[t].moving.Fetched? && threads[t].moving.class_ == c < |threads[t].lists|
      modifies this`threads
      ensures Goes(old(Model()), InsertStep(t), Model()) && Inv(Model())
      ensures Idle(Model(), t) && c < CLASSES && threads[t].lists[c].objs != []
      ensures OtherLists(old(threads), threads, t, c) && threads[t].lists[c].maxLength == old(threads[t].lists[c].maxLength)
    {
      FetchedSome(Model(), t);
      InsertOk(Model(), t);
      InsertToThreadCache(t);
    }

    /** fetch_from_centralcache. */
    method FetchFromCentralCache(t: Tid, c: nat)
      requires Inv(Model()) && Enabled(Model(), FetchStep(t, c)) && Fits(Model(), FetchStep(t, c))
      modifies this`classes, this`threads, pages
      ensures Inv(Model()) && Run(old(Model()), [FetchStep(t, c)] + [InsertStep(t)], Model())
      ensures Idle(Model(), t) && threads[t].lists[c].objs != []
      ensures OtherLists(old(threads), threads, t, c) && threads[t].lists[c].maxLength > 1
      ensures var max := old(threads)[t].lists[c].maxLength;
        threads[t].lists[c].maxLength == if max == 32 then 32 else if c <= 22 then 2 * max else max + 1
    {
      ghost var s0 := Model();
      FetchChain(t, c);
      ghost var s1 := Model();
      OneStep(s0, FetchStep(t, c), s1);
      InsertChain(t, c);
      OneStep(s1, InsertStep(t), Model());
      RunsOn(s0, [FetchStep(t, c)], s1, [InsertStep(t)], Model());
    }

    /** The front slot of the caller's list of the class of `size`, which is not empty. */
    method PopFront(t: Tid, size: nat) returns (a: Addr)
      requires Idle(Model(), t) && 0 <= GetIndex(size) < CLASSES
      requires threads[t].lists[GetIndex(size)].objs != [] && threads[t].lists[GetIndex(size)].objLen > 0
      modifies this`threads, this`live
      ensures Model() == Pop(old(Model()), t, size) && a == PopResult(old(Model()), t, size)
    {
      var c := GetIndex(size);
      var th := threads[t];
      var l := th.lists[c];
      a := l.objs[0];
      threads := threads[t := SetList(th, c, l.(objs := l.objs[1..], objLen := l.objLen - 1), Nothing)];
      live := live[a := size];
    }

    /** The same as a step: nobody holds the block before. */
    method PopSlot(t: Tid, size: nat) returns (a: Addr)
      requires Inv(Model()) && Enabled(Model(), PopStep(t, size))
      modifies this`threads, this`live
      ensures Goes(old(Model()), PopStep(t, size), Model()) && Inv(Model()) && Ready(Model(), t)
      ensures a !in old(live) && live == old(live)[a := size]
    {
      PopOk(Model(), t, size);
      PoppedNew(Model(), t, size);
      a := PopFront(t, size);
    }

    /** allocate. */
    method Allocate(t: Tid, size: nat) returns (a: Addr)
      requires Inv(Model()) && Ready(Model(), t) && 1 <= size <= THRESH_ALLOC && MallocFits(Model(), t, size)
      modifies this, pages
      ensures Inv(Model()) && Run(old(Model()), MallocSteps(old(Model()), t, size), Model()) && Ready(Model(), t)
      ensures a !in old(live) && live == old(live)[a := size]
    {
      SmallestClass(size);
      var c := GetIndex(size);
      ghost var s0 := Model();
      if threads[t].lists[c].objs == [] {
        FetchFromCentralCache(t, c);
        ghost var s1 := Model();
        a := PopSlot(t, size);
        OneStep(s1, PopStep(t, size), Model());
        RunsOn(s0, [FetchStep(t, c)] + [InsertStep(t)], s1, [PopStep(t, size)], Model());
      } else {
        a := PopSlot(t, size);
        OneStep(s0, PopStep(t, size), Model());
      }
    }

    /** tc_malloc of whole pages. */
    method FetchPages(t: Tid, size: nat) returns (a: Addr)
      requires Inv(Model()) && Enabled(Model(), LargeMallocStep(t, size))
      modifies this`live, pages
      ensures Goes(old(Model()), LargeMallocStep(t, size), Model())
      ensures Inv(Model()) <==> Fits(old(Model()), LargeMallocStep(t, size))
      ensures (Inv(Model()) ==> a !in old(live)) && live == old(live)[a := size]
    {
      StepExact(Model(), LargeMallocStep(t, size));
      if Fits(Model(), LargeMallocStep(t, size)) {
        LargeUnheld(Model(), size);
      }
      var d := pages.FetchSpan(size / 4096);
      a := pages.spans[d].start;
      live := live[a := size];
    }

    /** tc_malloc, of at least one byte. The block is in nobody's hands before, and the allocator is
        in order afterwards, exactly if no split wraps. */
    method Malloc(t: Tid, size: nat) returns (a: Addr)
      requires Inv(Model()) && Ready(Model(), t) && 1 <= size < INT_BYTES && (size <= THRESH_ALLOC ==> MallocFits(Model(), t, size))
      modifies this, pages
      ensures Run(old(Model()), MallocSteps(old(Model()), t, size), Model()) && Ready(Model(), t)
      ensures Inv(Model()) <==> MallocFits(old(Model()), t, size)
      ensures (Inv(Model()) ==> a !in old(live)) && live == old(live)[a := size]
    {
      if size <= THRESH_ALLOC {
        a := Allocate(t, size);
      } else {
        ghost var s0 := Model();
        a := FetchPages(t, size);
        OneStep(s0, LargeMallocStep(t, size), Model());
      }
    }

    // ----- giving back ------------------------------------------------------

    /** One pass of the loop of return_objs_to_centralcache. */
    method ReturnOne(t: Tid) returns (d: Ptr)
      requires Flushable(Model(), t)
      modifies this`threads, pages`spans
      ensures Model() == Allocator.ReturnOne(old(Model()), t)
      ensures d == SpanAt(old(pages.Model()), old(threads[t].moving.chain[0]))
    {
      var th := threads[t];
      var a := th.moving.chain[0];
      d := pages.pageMap[a / 4096 - pages.base / 4096];
      threads := threads[t := th.(moving := Flushing(th.moving.class_, th.moving.chain[1..]))];
      pages.WriteSpan(d, Grown(pages.spans[d], a));
    }

    /** What follows the loop. */
    method Settle(c: nat, d: Ptr)
      requires |pages.rings| == 256 && c < |classes| && d in pages.spans
      modifies this`classes, pages
      ensures Model() == Allocator.Settle(old(Model()), c, d)
    {
      var sp := pages.spans[d];
      if sp.loc == CentralIdle && sp.refcount != sp.objLen {
        classes := classes[c := Refile(classes[c], d)];
      } else {
        assert classes == classes[c := classes[c]];
      }
      if sp.refcount == 0 {
        classes := classes[c := Unfile(classes[c], d)];
        pages.ReturnSpan(d);
      }
    }

    /** The loop of return_objs_to_centralcache; ends at the span of the last slot. */
    method ReturnLoop(t: Tid, chain: seq<Addr>) returns (d: Ptr)
      requires Flushes(Model(), t) && threads[t].moving.chain == chain != []
      modifies this`threads, pages`spans
      ensures Model() == Returned(old(Model()), t)
      ensures Mapped(old(pages.Model()), Last(chain)) && d == SpanAt(old(pages.Model()), Last(chain))
    {
      ghost var s0 := Model();
      var c := threads[t].moving.class_;
      var i := 0;
      d := 0;
      while i < |chain|
        invariant 0 <= i <= |chain| && t in threads && threads[t].moving == Flushing(c, chain[i..])
        invariant Flushes(Model(), t) && Returned(Model(), t) == Returned(s0, t)
        invariant pages.pageMap == s0.heap.pageMap
        invariant LastReturned(s0.heap, chain, i, d)
      {
        ReturnPass(s0.heap, Model(), t, c, chain, i);
        d := ReturnOne(t);
        i := i + 1;
      }
    }

    /** return_objs_to_centralcache. */
    method ReturnObjs(t: Tid)
      requires Inv(Model()) && Enabled(Model(), FlushStep(t))
      modifies this`classes, this`threads, pages
      ensures Model() == Flush(old(Model()), t)
    {
      FlushParts(Model(), t);
      var c := threads[t].moving.class_;
      var d := ReturnLoop(t, threads[t].moving.chain);
      Settle(c, d);
      threads := threads[t := threads[t].(moving := Nothing)];
    }

    /** return_objs_to_centralcache as a step. */
    method FlushChain(t: Tid)
      requires Inv(Model()) && Enabled(Model(), FlushStep(t))
      modifies this`classes, this`threads, pages
      ensures Goes(old(Model()), FlushStep(t), Model()) && Inv(Model())
      ensures t in threads && threads[t].lists == old(threads[t].lists) && threads[t].moving == Nothing
    {
      FlushOk(Model(), t);
      FlushedThread(Model(), t);
      ReturnObjs(t);
    }

    /** The part of deallocate before any lock: the slot goes to the front of the caller's list,
        or, with a full list, on its way back together with all of it. */
    method CacheSlot(t: Tid, a: Addr, c: nat)
      requires Idle(Model(), t) && FreesSmall(pages.Model(), a) && c == FreedClass(pages.Model(), a) < CLASSES
      modifies this`threads, this`live
      ensures Model() == FreeSlot(old(Model()), t, a)
    {
      var th := threads[t];
      var l := th.lists[c];
      if l.objLen == l.maxLength {
        threads := threads[t := SetList(th, c, l.(objs := [], objLen := 0), Flushing(c, [a] + l.objs))];
      } else {
        threads := threads[t := SetList(th, c, l.(objs := [a] + l.objs, objLen := l.objLen + 1), Nothing)];
      }
      live := live - {a};
    }

    /** That part as a step. */
    method TakeBack(t: Tid, a: Addr, c: nat)
      requires Inv(Model()) && Enabled(Model(), FreeStep(t, a)) && c == FreedClass(pages.Model(), a)
      modifies this`threads, this`live
      ensures Inv(Model()) && Run(old(Model()), [FreeStep(t, a)], Model())
      ensures live == old(live) - {a} && Raised(threads, t)
      ensures if FlushesFull(old(Model()), t, a) then Enabled(Model(), FlushStep(t)) else threads[t].moving == Nothing
    {
      ghost var s0 := Model();
      FreeGoes(s0, t, a);
      CacheSlot(t, a, c);
      OneStep(s0, FreeStep(t, a), Model());
    }

    /** deallocate. */
    method Deallocate(t: Tid, a: Addr, z: nat)
      requires Inv(Model()) && Enabled(Model(), FreeStep(t, a)) && z == pages.spans[SpanAt(pages.Model(), a)].objsSize
      modifies this, pages
      ensures Inv(Model()) && Run(old(Model()), FreeSteps(old(Model()), t, a), Model()) && Ready(Model(), t)
      ensures live == old(live) - {a}
    {
      ghost var s0 := Model();
      TakeBack(t, a, GetIndex(z));
      if threads[t].moving != Nothing {
        ghost var s1 := Model();
        FlushChain(t);
        OneStep(s1, FlushStep(t), Model());
        RunsOn(s0, [FreeStep(t, a)], s1, [FlushStep(t)], Model());
      }
    }

    /** tc_free of a block of pages. */
    method FreePages(t: Tid, a: Addr, d: Ptr)
      requires Inv(Model()) && Enabled(Model(), LargeFreeStep(t, a)) && Mapped(pages.Model(), a) && d == SpanAt(pages.Model(), a)
      modifies this`live, pages
      ensures Goes(old(Model()), LargeFreeStep(t, a), Model()) && Inv(Model())
      ensures live == old(live) - {a}
    {
      LiveLarge(Model(), a);
      FreeLargeOk(Model(), a);
      pages.ReturnSpan(d);
      live := live - {a};
    }

    /** tc_free, of a live block and by any thread. */
    method Free(t: Tid, a: Addr)
      requires Inv(Model()) && Ready(Model(), t) && a in live
      modifies this, pages
      ensures Inv(Model()) && Run(old(Model()), FreeSteps(old(Model()), t, a), Model()) && Ready(Model(), t)
      ensures live == old(live) - {a}
    {
      ghost var s0 := Model();
      LiveMapped(s0, a);
      var d := pages.pageMap[a / 4096 - pages.base / 4096];
      var z := pages.spans[d].objsSize;
      if 0 < z <= THRESH_ALLOC {
        Deallocate(t, a, z);
      } else {
        FreePages(t, a, d);
        OneStep(s0, LargeFreeStep(t, a), Model());
      }
    }

    // ----- setting up -------------------------------------------------------

    /** get_span_central as a step. */
    method CarveAheadFor(c: nat)
      requires Reachable(Model()) && c < CLASSES && threads == map[]
      modifies this`classes, pages
      ensures Goes(old(Model()), CarveAhead(c), Model()) && Reachable(Model())
    {
      ghost var s0 := Model();
      ReachableOk(s0);
      ClassesReady(s0, c);
      var d := GetSpanCentral(c);
      StepReachable(s0, CarveAhead(c), Model());
    }

    /** tc_central_init, after the globals are zeroed: one span for every class. */
    method CentralInit()
      requires Reachable(Model()) && threads == map[]
      modifies this`classes, pages
      ensures Reachable(Model()) && Leads(old(Model()), Model())
      ensures CarvedBelow(old(Model()), 0) ==> CarvedBelow(Model(), 159)
    {
      ghost var s0 := Model();
      var c := 0;
      while c < CLASSES
        invariant 0 <= c <= CLASSES && Reachable(Model()) && Leads(s0, Model())
        invariant CarvedBelow(s0, 0) ==> CarvedBelow(Model(), c)
      {
        ghost var s1 := Model();
        CarveAheadFor(c);
        LeadsOn(s0, s1, CarveAhead(c), Model());
        if CarvedBelow(s1, c) {
          CarveNext(s1, c, Model());
        }
        c := c + 1;
      }
    }

    /** The list heads of a new thread. */
    method InitThreadLists(t: Tid)
      requires Reachable(Model()) && t !in threads
      modifies this`threads
      ensures Goes(old(Model()), StartThread(t), Model()) && Reachable(Model())
      ensures Idle(Model(), t) && FilledBelow(threads[t], 0) && HasOneBelow(threads[t], 0)
    {
      ghost var s0 := Model();
      ReachableOk(s0);
      threads := threads[t := Thread(seq(CLASSES, _ => ThreadList([], 0, 1)), Nothing)];
      StepReachable(s0, StartThread(t), Model());
    }

    /** The first fetch of a thread for class `c`. */
    method FirstFetch(t: Tid, c: nat)
      requires Reachable(Model()) && Idle(Model(), t) && c < CLASSES && FilledBelow(threads[t], c)
      modifies this`classes, this`threads, pages
      ensures Reachable(Model()) && Leads(old(Model()), Model()) && Idle(Model(), t) && FilledBelow(threads[t], c + 1)
      ensures LentBelow(old(Model()), c) && HasOneBelow(old(threads)[t], c) ==> LentBelow(Model(), c + 1) && HasOneBelow(threads[t], c + 1)
    {
      ghost var s0 := Model();
      ReachableOk(s0);
      StepLimited(s0, FetchStep(t, c));
      FetchFromCentralCache(t, c);
      FilledNext(s0.threads, threads, t, c);
      TwoReachable(s0, FetchStep(t, c), InsertStep(t), Model());
      ghost var s1 := TwoSteps(s0, FetchStep(t, c), InsertStep(t), Model());
      if LentBelow(s0, c) && HasOneBelow(s0.threads[t], c) {
        FirstTake(s0, t, c, s1, Model());
      }
    }

    /** tc_thread_init: a first fetch for every class. */
    method ThreadInit(t: Tid)
      requires Reachable(Model()) && t !in threads
      modifies this`classes, this`threads, pages
      ensures Reachable(Model()) && Leads(old(Model()), Model())
      ensures Ready(Model(), t) && FilledBelow(threads[t], CLASSES)
      ensures LentBelow(old(Model()), 0) ==> LentBelow(Model(), 159) && HasOneBelow(threads[t], 159)
    {
      ghost var s0 := Model();
      InitThreadLists(t);
      if LentBelow(s0, 0) {
        LentOn(s0, Model(), 0);
      }
      LeadsOn(s0, s0, StartThread(t), Model());
      var c := 0;
      while c < CLASSES
        invariant 0 <= c <= CLASSES && Reachable(Model()) && Leads(s0, Model()) && Idle(Model(), t)
        invariant FilledBelow(threads[t], c) && (LentBelow(s0, 0) ==> LentBelow(Model(), c) && HasOneBelow(threads[t], c))
      {
        FirstFetch(t, c);
        c := c + 1;
      }
    }
  }

  /** The block that tc_free has just taken back is the one tc_malloc hands out next, if the request
      is for as many pages or from the same class and the thread's cache was not full. */
  method FreeThenMalloc(arena: Arena, t: Tid, a: Addr, size: nat) returns (b: Addr)
    requires Reachable(arena.Model()) && Ready(arena.Model(), t) && a in arena.live && Again(arena.Model(), t, a, size)
    modifies arena, arena.pages
    ensures b == a && arena.live == old(arena.live)[a := size]
  {
    ghost var s0 := arena.Model();
    ReachableOk(s0);
    ghost var s1 := FreedReuse(s0, t, a, size);
    arena.Free(t, a);
    OnlyStep(s0, FreeSteps(s0, t, a)[0], arena.Model());
    assert arena.Model() == s1;
    b := arena.Malloc(t, size);
    SameBlock(s0, s1, t, a, size, arena.Model(), b);
  }

  lemma SameBlock(s0: State, s1: State, t: Tid, a: Addr, size: nat, s2: State, b: Addr)
    requires Inv(s1) && Idle(s1, t) && size >= 1 && |MallocSteps(s1, t, size)| == 1 && Enabled(s1, MallocSteps(s1, t, size)[0])
    requires Apply(s1, MallocSteps(s1, t, size)[0]).live == s0.live[a := size] && s1.live == s0.live - {a}
    requires Run(s1, MallocSteps(s1, t, size), s2) && s2.live == s1.live[b := size] && b !in s1.live
    ensures b == a && s2.live == s0.live[a := size]
  {
    OnlyStep(s1, MallocSteps(s1, t, size)[0], s2);
    assert b in s2.live;
  }

  ghost predicate Again(s: State, t: Tid, a: Addr, size: nat)
    requires Ready(s, t) && a in s.live
  {
    if s.live[a] > THRESH_ALLOC then THRESH_ALLOC < size < INT_BYTES && RingIndex(size / 4096) == RingIndex(s.live[a] / 4096)
    else
      && 1 <= size <= THRESH_ALLOC && GetIndex(size) == GetIndex(s.live[a]) && IsClass(GetIndex(size))
      && s.threads[t].lists[GetIndex(size)].objLen != s.threads[t].lists[GetIndex(size)].maxLength
  }

  lemma FreedReuse(s: State, t: Tid, a: Addr, size: nat) returns (s1: State)
    requires Reachable(s) && Inv(s) && Ready(s, t) && a in s.live && Again(s, t, a, size)
    ensures |FreeSteps(s, t, a)| == 1 && Goes(s, FreeSteps(s, t, a)[0], s1)
    ensures Inv(s1) && Ready(s1, t) && 1 <= size < INT_BYTES && MallocFits(s1, t, size)
    ensures |MallocSteps(s1, t, size)| == 1 && Enabled(s1, MallocSteps(s1, t, size)[0])
    ensures Apply(s1, MallocSteps(s1, t, size)[0]).live == s.live[a := size] && s1.live == s.live - {a}
  {
    if s.live[a] > THRESH_ALLOC {
      var s2;
      s1, s2 := LargeReuse(s, t, a, size);
    } else {
      s1 := SmallReuse(s, t, a, size);
    }
    StepReachable(s, FreeSteps(s, t, a)[0], s1);
    ReachableFits(s1, t, size);
  }

  /** What main does first: the allocator is set up, and the main thread's cache. From here on every
      call of Malloc and Free is a run, so all that is promised of reachable states holds. */
  method SetUp(brkAddr: nat) returns (arena: Arena)
    requires brkAddr % 4096 == 0
    ensures fresh(arena) && fresh(arena.pages) && Reachable(arena.Model())
    ensures Ready(arena.Model(), 0) && FilledBelow(arena.threads[0], CLASSES) && arena.live == map[]
    ensures LentBelow(arena.Model(), 159) && HasOneBelow(arena.threads[0], 159)
  {
    arena := new Arena(brkAddr);
    InitReachable(brkAddr);
    assert CarvedBelow(arena.Model(), 0);
    arena.CentralInit();
    CarvedNoneLent(arena.Model());
    arena.ThreadInit(0);
  }
}
