/** The allocator after set-up: what carving every class ahead leaves in the central cache, and what
    the first thread then takes. */
module StartUp {
  import opened SizeClasses
  import opened Slots
  import opened PageHeap
  import opened Allocator
  import opened AllocatorRuns

  /** Class `c` has one span, of 524,288 bytes cut into its slots, `lent` of which are out. */
  predicate OneBatch(s: State, c: nat, lent: nat)
    requires c < |s.classes|
  {
    var cl := s.classes[c];
    && |cl.list| == 1 && cl.idle == [] && cl.lost == {} && cl.list[0] in s.heap.spans
    && BatchSpan(s.heap.spans[cl.list[0]], c, lent)
  }

  predicate BatchSpan(sp: Span, c: nat, lent: nat) {
    && sp.objsSize == IndexToSize(c) && sp.refcount == lent && sp.loc == CentralList
    && |sp.objs| + lent == sp.objLen == 524288 / IndexToSize(c)
  }

  /** Exactly the classes below `k` have their span. */
  predicate CarvedBelow(s: State, k: nat) {
    && |s.classes| == 159
    && forall c :: 0 <= c < 159 ==> if c < k then OneBatch(s, c, 0) else s.classes[c] == ClassRings([], [], {})
  }

  lemma BatchCut(sp: Span, c: nat)
    requires Clean(sp) && sp.pageSize == BATCH && c < CLASSES
    ensures IndexToSize(c) > 0 && BatchSpan(Carved(sp, IndexToSize(c)), c, 0)
  {
    var z := IndexToSize(c);
    CarveCount(sp.start, SpanEnd(sp), z);
  }

  /** The span of another class stays as it is while a batch is fetched. */
  lemma BatchStays(s: State, h: Heap, d: Ptr, c: nat)
    requires Inv(s) && Keeps(s.heap, h, {d}) && c < CLASSES && OneBatch(s, c, 0)
    ensures var x := s.classes[c].list[0]; x != d && x in h.spans && h.spans[x] == s.heap.spans[x]
  {
    var x := s.classes[c].list[0];
    ClassRoundTrip(c);
    assert SpanOk(s.heap, x);
    assert Held(s.heap, x);
  }

  lemma CarveNext(s: State, k: nat, s': State)
    requires Reachable(s) && CarvedBelow(s, k) && k < 159 && Goes(s, CarveAhead(k), s')
    ensures CarvedBelow(s', k + 1)
  {
    ReachableOk(s);
    ClassesReady(s, k);
    BatchLimited(s, k);
    var h, d := FetchSpanOk(s.heap, BATCH);
    assert s' == AddBatch(s, h, d, k);
    forall c | 0 <= c < k
      ensures var x := s.classes[c].list[0]; x != d && x in h.spans && h.spans[x] == s.heap.spans[x]
    {
      BatchStays(s, h, d, c);
    }
    BatchCut(h.spans[d], k);
    BatchAdded(s, h, d, k);
  }

  lemma BatchAdded(s: State, h: Heap, d: Ptr, k: nat)
    requires CarvedBelow(s, k) && k < 159 && d in h.spans && IndexToSize(k) > 0
    requires forall c :: 0 <= c < k ==> var x := s.classes[c].list[0]; x != d && x in h.spans && h.spans[x] == s.heap.spans[x]
    requires BatchSpan(Carved(h.spans[d], IndexToSize(k)), k, 0)
    ensures CarvedBelow(AddBatch(s, h, d, k), k + 1)
  {
  }

  // ----- the first thread ---------------------------------------------------

  /** One slot is lent of each class below `k`, and none of the others. */
  predicate BatchAt(s: State, c: nat, k: nat)
    requires c < |s.classes|
  {
    OneBatch(s, c, if c < k then 1 else 0)
  }

  predicate LentBelow(s: State, k: nat) {
    |s.classes| == 159 && forall c :: 0 <= c < 159 ==> BatchAt(s, c, k)
  }

  /** The thread has that slot of each class below `k`, and its limit is 2 there; in the others it
      has none and the limit is 1. */
  predicate HasOneBelow(th: Thread, k: nat) {
    && |th.lists| == 159 && th.moving == Nothing
    && forall c :: 0 <= c < 159 ==> if c < k then OneSlot(th.lists[c]) else th.lists[c] == ThreadList([], 0, 1)
  }

  predicate OneSlot(l: ThreadList) {
    |l.objs| == l.objLen == 1 && l.maxLength == 2
  }

  lemma CarvedNoneLent(s: State)
    requires CarvedBelow(s, 159)
    ensures LentBelow(s, 0)
  {
  }

  /** Every class has more than one slot. */
  lemma ManySlots(c: nat)
    requires c < 159
    ensures 524288 / IndexToSize(c) >= 16
  {
  }

  lemma FirstSpan(s: State, k: nat) returns (d: Ptr)
    requires LentBelow(s, k) && k < 159
    ensures s.classes[k] == ClassRings([d], [], {}) && d in s.heap.spans && BatchSpan(s.heap.spans[d], k, 0)
    ensures |s.heap.spans[d].objs| >= 16
    ensures CentralReady(s, k) ==> GetSpanCentral(s, k) == (s, d)
  {
    ManySlots(k);
    assert BatchAt(s, k, k);
    d := s.classes[k].list[0];
    assert s.classes[k].list == [d];
  }

  lemma SlotLent(s: State, k: nat, d: Ptr)
    requires LentBelow(s, k) && k < 159 && s.classes[k] == ClassRings([d], [], {}) && d in s.heap.spans
    requires BatchSpan(s.heap.spans[d], k, 0) && |s.heap.spans[d].objs| >= 16
    ensures LentBelow(Shrink(s, k, d, 1), k + 1)
  {
    var s' := Shrink(s, k, d, 1);
    var next := k + 1;
    assert s'.classes == s.classes;
    forall c | 0 <= c < 159
      ensures BatchAt(s', c, next)
    {
      ClassRoundTrip(c);
      ClassRoundTrip(k);
      assert BatchAt(s, c, k);
    }
  }

  /** The fetch of one slot of class `k`. */
  lemma TakeOne(s: State, t: Tid, k: nat) returns (chain: seq<Addr>)
    requires CentralReady(s, k) && LentBelow(s, k) && k < 159 && Idle(s, t) && s.threads[t].lists[k] == ThreadList([], 0, 1)
    ensures LentBelow(Fetch(s, t, k), k + 1) && |chain| == 1
    ensures Fetch(s, t, k).threads == s.threads[t := WithChain(s.threads[t], k, chain)]
  {
    var d := FirstSpan(s, k);
    SlotLent(s, k, d);
    var s1 := Fetch(s, t, k);
    chain := s.heap.spans[d].objs[..1];
    assert s1.heap == Shrink(s, k, d, 1).heap && s1.classes == Shrink(s, k, d, 1).classes;
    LentOn(Shrink(s, k, d, 1), s1, k + 1);
  }

  lemma LentOn(s: State, s': State, k: nat)
    requires s'.classes == s.classes && s'.heap == s.heap && LentBelow(s, k)
    ensures LentBelow(s', k)
  {
    forall c | 0 <= c < 159
      ensures BatchAt(s', c, k)
    {
      assert BatchAt(s, c, k);
    }
  }

  lemma TakeFetch(s: State, t: Tid, k: nat, s1: State) returns (chain: seq<Addr>)
    requires LentBelow(s, k) && k < 159 && Goes(s, FetchStep(t, k), s1) && s.threads[t].lists[k] == ThreadList([], 0, 1)
    ensures LentBelow(s1, k + 1) && |chain| == 1
    ensures s1.threads == s.threads[t := WithChain(s.threads[t], k, chain)]
  {
    ClassesReady(s, k);
    chain := TakeOne(s, t, k);
  }

  lemma InsertOne(s1: State, t: Tid, k: nat, s': State)
    requires LentBelow(s1, k) && Goes(s1, InsertStep(t), s')
    ensures LentBelow(s', k) && s1.threads[t].moving.class_ < |s1.threads[t].lists| && s' == Insert(s1, t)
  {
    InsertOk(s1, t);
    LentOn(s1, s', k);
  }

  lemma ThreadTakes(th: Thread, k: nat, chain: seq<Addr>, s1: State, t: Tid)
    requires HasOneBelow(th, k) && k < 159 && |chain| == 1 && t in s1.threads && s1.threads[t] == WithChain(th, k, chain)
    ensures HasOneBelow(Insert(s1, t).threads[t], k + 1)
  {
  }

  /** One pass of tc_thread_init. */
  lemma FirstTake(s: State, t: Tid, k: nat, s1: State, s': State)
    requires LentBelow(s, k) && k < 159 && t in s.threads && HasOneBelow(s.threads[t], k)
    requires Goes(s, FetchStep(t, k), s1) && Goes(s1, InsertStep(t), s')
    ensures LentBelow(s', k + 1) && t in s'.threads && HasOneBelow(s'.threads[t], k + 1)
  {
    var chain := TakeFetch(s, t, k, s1);
    InsertOne(s1, t, k + 1, s');
    ThreadTakes(s.threads[t], k, chain, s1, t);
  }
}
