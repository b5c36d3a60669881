/** The free lists in memory, over whole runs: every list of every span and thread is threaded
    through the first words of its slots, whatever the program writes inside its own blocks, and
    the allocator writes into no block that is live. */
module FreeLists {
  import opened Sequences
  import opened SizeClasses
  import opened Slots
  import opened PageHeap
  import opened Allocator
  import opened AllocatorRuns
  import opened AllocatorSafety
  import opened FreeChain

  /** A place that is a list. */
  predicate IsList(s: State, p: Place) {
    match p
    case Free(d) => d in s.heap.spans
    case Cached(t, c) => t in s.threads && c < |s.threads[t].lists|
    case OnTheWay(t) => t in s.threads && s.threads[t].moving != Nothing
    case User => false
  }

  function ListAt(s: State, p: Place): seq<Addr>
    requires IsList(s, p)
  {
    match p
    case Free(d) => s.heap.spans[d].objs
    case Cached(t, c) => s.threads[t].lists[c].objs
    case OnTheWay(t) => s.threads[t].moving.chain
  }

  /** Every list of the allocator's state is threaded through memory. */
  ghost predicate Threaded(s: State, w: Words) {
    forall p :: IsList(s, p) ==> Linked(w, ListAt(s, p))
  }

  /** The list at `p` is as it was, and none of its slots is among the words written. */
  ghost predicate Untouched(s: State, s': State, p: Place, places: seq<Addr>) {
    IsList(s', p) ==>
      || ListAt(s', p) == []
      || (IsList(s, p) && ListAt(s', p) == ListAt(s, p) && forall a :: a in ListAt(s, p) ==> a !in places)
  }

  /** Lists stay threaded if all but those in `changed` are untouched and these are threaded anew. */
  lemma Rethreaded(s: State, w: Words, s': State, w': Words, places: seq<Addr>, changed: set<Place>)
    requires Threaded(s, w) && Differs(w, w', places)
    requires forall p :: p !in changed ==> Untouched(s, s', p, places)
    requires forall p :: p in changed && IsList(s', p) ==> Linked(w', ListAt(s', p))
    ensures Threaded(s', w')
  {
    forall p | IsList(s', p)
      ensures Linked(w', ListAt(s', p))
    {
      if p !in changed {
        assert Untouched(s, s', p, places);
        if ListAt(s', p) != [] {
          LinkedFrame(w, w', places, ListAt(s, p));
        }
      }
    }
  }

  /** Slots that are in one place are on no list elsewhere. */
  lemma Elsewhere(s: State, p: Place, q: Place, a: Addr)
    requires Unique(s) && At(s, a, p) && IsList(s, q) && q != p
    ensures a !in ListAt(s, q)
  {
    assert a in ListAt(s, q) ==> At(s, a, q);
  }

  // ----- the steps of one thread --------------------------------------------

  lemma PopThreaded(s: State, t: Tid, size: nat, w: Words)
    requires Idle(s, t) && 0 <= GetIndex(size) < CLASSES && Threaded(s, w)
    requires s.threads[t].lists[GetIndex(size)].objs != [] && s.threads[t].lists[GetIndex(size)].objLen > 0
    ensures Threaded(Pop(s, t, size), w)
  {
    var p := Cached(t, GetIndex(size));
    LinkedRest(w, ListAt(s, p), 1);
    Rethreaded(s, w, Pop(s, t, size), w, [], {p});
  }

  lemma InsertThreaded(s: State, t: Tid, w: Words)
    requires Unique(s) && Threaded(s, w) && t in s.threads && s.threads[t].moving.Fetched?
    requires s.threads[t].moving.class_ < |s.threads[t].lists| && NoDup(s.threads[t].moving.chain)
    requires forall a :: a in s.threads[t].moving.chain ==> a != 0
    ensures var l := s.threads[t].lists[s.threads[t].moving.class_].objs;
      Threaded(Insert(s, t), Pushes(w, HeadOf(l), s.threads[t].moving.chain))
  {
    var c, chain := s.threads[t].moving.class_, s.threads[t].moving.chain;
    var l := s.threads[t].lists[c].objs;
    var s' := Insert(s, t);
    var w' := Pushes(w, HeadOf(l), chain);
    var p := Cached(t, c);
    forall a | a in chain
      ensures a !in l
    {
      Elsewhere(s, OnTheWay(t), p, a);
    }
    assert Linked(w, ListAt(s, p));
    LinkedPushes(w, l, chain);
    forall q | q != p
      ensures Untouched(s, s', q, chain)
    {
      if IsList(s', q) && ListAt(s', q) != [] {
        forall a | a in ListAt(s, q)
          ensures a !in chain
        {
          if a in chain { Elsewhere(s, OnTheWay(t), q, a); }
        }
      }
    }
    Rethreaded(s, w, s', w', chain, {p});
  }

  lemma FreeThreaded(s: State, t: Tid, a: Addr, w: Words)
    requires Unique(s) && Threaded(s, w) && Idle(s, t) && FreesSmall(s.heap, a) && 0 <= FreedClass(s.heap, a) < CLASSES
    requires a in s.live && a != 0
    ensures Threaded(FreeSlot(s, t, a), w[a := HeadOf(s.threads[t].lists[FreedClass(s.heap, a)].objs)])
  {
    var c := FreedClass(s.heap, a);
    var p := Cached(t, c);
    var l := ListAt(s, p);
    var s' := FreeSlot(s, t, a);
    Elsewhere(s, User, p, a);
    LinkedPush(w, a, l);
    forall q | q !in {p, OnTheWay(t)}
      ensures Untouched(s, s', q, [a])
    {
      if IsList(s', q) && ListAt(s', q) != [] { Elsewhere(s, User, q, a); }
    }
    Rethreaded(s, w, s', w[a := HeadOf(l)], [a], {p, OnTheWay(t)});
  }

  // ----- slots going back ---------------------------------------------------

  /** The word one pass of the return loop writes. */
  function ReturnWord(s: State, t: Tid, w: Words): Words
    requires Flushable(s, t)
  {
    var a := s.threads[t].moving.chain[0];
    w[a := HeadOf(s.heap.spans[SpanAt(s.heap, a)].objs)]
  }

  lemma ReturnOneThreaded(s: State, t: Tid, w: Words)
    requires Unique(s) && Threaded(s, w) && Flushable(s, t) && NoDup(s.threads[t].moving.chain)
    requires s.threads[t].moving.chain[0] != 0
    ensures Threaded(ReturnOne(s, t), ReturnWord(s, t, w))
  {
    var chain := s.threads[t].moving.chain;
    var a := chain[0];
    var p, o := Free(SpanAt(s.heap, a)), OnTheWay(t);
    var s', w' := ReturnOne(s, t), ReturnWord(s, t, w);
    assert At(s, a, o);
    Elsewhere(s, o, p, a);
    LinkedPush(w, a, ListAt(s, p));
    LinkedRest(w, ListAt(s, o), 1);
    HeadApart(chain);
    LinkedFrame(w, w', [a], chain[1..]);
    forall q | q !in {p, o}
      ensures Untouched(s, s', q, [a])
    {
      if IsList(s', q) && ListAt(s', q) != [] { Elsewhere(s, o, q, a); }
    }
    Rethreaded(s, w, s', w', [a], {p, o});
  }

  /** All words the loop writes. */
  function ReturnWords(s: State, t: Tid, w: Words): Words
    requires Flushes(s, t)
    decreases |s.threads[t].moving.chain|
  {
    if s.threads[t].moving.chain == [] then w
    else
      FlushesOn(s, t);
      ReturnWords(ReturnOne(s, t), t, ReturnWord(s, t, w))
  }

  lemma ChainPositive(s: State, t: Tid)
    requires Inv(s) && s.heap.base > 0 && t in s.threads && s.threads[t].moving != Nothing
    ensures NoDup(s.threads[t].moving.chain) && forall a :: a in s.threads[t].moving.chain ==> a != 0
  {
    assert ThreadOk(s.heap, s.threads[t]);
    forall a | a in s.threads[t].moving.chain
      ensures a != 0
    {
      SlotPositive(s, a, OnTheWay(t));
    }
  }

  /** No block is at address 0. */
  lemma SlotPositive(s: State, a: Addr, p: Place)
    requires Inv(s) && s.heap.base > 0 && At(s, a, p)
    ensures a != 0
  {
    PlaceSpan(s, a, p);
    assert Placed(s.heap, PageIndex(s.heap, a));
    assert a == 0 ==> PageIndex(s.heap, a) < 0;
  }

  lemma {:induction false} ReturnAllThreaded(s: State, t: Tid, w: Words)
    requires Inv(s) && s.heap.base > 0 && Threaded(s, w) && t in s.threads && s.threads[t].moving.Flushing?
    ensures Flushes(s, t) && Threaded(ReturnAll(s, t), ReturnWords(s, t, w))
    decreases |s.threads[t].moving.chain|
  {
    ChainReturnable(s, t);
    if s.threads[t].moving.chain != [] {
      ChainPositive(s, t);
      ReturnOneOk(s, t);
      ReturnOneThreaded(s, t, w);
      ReturnAllThreaded(ReturnOne(s, t), t, ReturnWord(s, t, w));
    }
  }

  lemma ReleaseThreaded(s: State, c: nat, d: Ptr, w: Words)
    requires Threaded(s, w) && |s.heap.rings| == 256 && c < |s.classes| && d in s.heap.spans
    ensures Threaded(Settle(s, c, d), w)
  {
    Rethreaded(s, w, Settle(s, c, d), w, [], {});
  }

  lemma DoneThreaded(s: State, t: Tid, w: Words)
    requires Threaded(s, w) && t in s.threads
    ensures Threaded(Done(s, t), w)
  {
    Rethreaded(s, w, Done(s, t), w, [], {});
  }

  lemma FlushThreaded(s: State, t: Tid, w: Words)
    requires Inv(s) && s.heap.base > 0 && Threaded(s, w) && Enabled(s, FlushStep(t))
    ensures Flushes(s, t) && Threaded(Flush(s, t), ReturnWords(s, t, w))
  {
    ReturnAllThreaded(s, t, w);
    LastSpan(s, t);
    var c, d := s.threads[t].moving.class_, SpanAt(s.heap, Last(s.threads[t].moving.chain));
    ReleaseThreaded(ReturnAll(s, t), c, d, ReturnWords(s, t, w));
    DoneThreaded(Settle(ReturnAll(s, t), c, d), t, ReturnWords(s, t, w));
  }

  // ----- the page heap and the central cache --------------------------------

  /** Steps of the page heap write no slot: lists stay or are empty. */
  lemma PagesThreaded(s: State, s': State, w: Words)
    requires Threaded(s, w) && s'.threads == s.threads
    requires forall d :: d in s'.heap.spans ==>
      s'.heap.spans[d].objs == [] || (d in s.heap.spans && s'.heap.spans[d].objs == s.heap.spans[d].objs)
    ensures Threaded(s', w)
  {
    Rethreaded(s, w, s', w, [], {});
  }

  lemma FetchThreaded(s: State, npage: nat, w: Words) returns (h: Heap, d: Ptr)
    requires HeapInv(s.heap) && 1 <= npage < INT_PAGES && SplitFits(s.heap, npage) && Threaded(s, w)
    ensures FetchSpan(s.heap, npage) == (h, d) && Threaded(s.(heap := h), w)
  {
    h, d := FetchSpanOk(s.heap, npage);
    PagesThreaded(s, s.(heap := h), w);
  }

  /** The words written when a span is cut: every slot is pushed. */
  function CarveWords(s: State, c: nat, w: Words): Words
    requires CentralReady(s, c)
  {
    if FirstWithSlots(s.heap.spans, s.classes[c].list) < |s.classes[c].list| then w
    else
      ClassRoundTrip(c);
      var r := FetchSpan(s.heap, BATCH);
      Pushes(w, 0, SlotsOf(r.0.spans[r.1].(objsSize := IndexToSize(c))))
  }

  /** The slots of a new batch are on no list, and not at address 0. */
  lemma BatchApart(s: State, h: Heap, d: Ptr, c: nat, a: Addr)
    requires Inv(s) && s.heap.base > 0 && HeapInv(h) && Keeps(s.heap, h, {d}) && Held(h, d) && Clean(h.spans[d])
    requires h.spans[d].pageSize == BATCH && c < CLASSES && IndexToSize(c) > 0
    requires a in SlotsOf(h.spans[d].(objsSize := IndexToSize(c)))
    ensures a != 0 && forall p :: !At(s, a, p)
  {
    BatchSlot(h, d, c, a);
    FetchCarriesOut(s, h, d);
    assert Placed(h, PageIndex(h, a));
    assert a == 0 ==> PageIndex(h, a) < 0;
  }

  lemma BatchThreaded(s: State, h: Heap, d: Ptr, c: nat, w: Words)
    requires Inv(s) && s.heap.base > 0 && HeapInv(h) && Keeps(s.heap, h, {d}) && Held(h, d) && Clean(h.spans[d])
    requires h.spans[d].pageSize == BATCH && c < CLASSES && IndexToSize(c) > 0 && Threaded(s, w)
    ensures Threaded(AddBatch(s, h, d, c), Pushes(w, 0, SlotsOf(h.spans[d].(objsSize := IndexToSize(c)))))
  {
    var z := IndexToSize(c);
    var slots := SlotsOf(h.spans[d].(objsSize := z));
    forall a | a in slots
      ensures a != 0 && forall p :: !At(s, a, p)
    {
      BatchApart(s, h, d, c, a);
    }
    CarveSpaced(h.spans[d].start, SpanEnd(h.spans[d]), z);
    SlotsPushed(s, AddBatch(s, h, d, c), d, slots, w);
  }

  /** From `s` to `g` only the list of `d` changes, to new slots. */
  lemma SlotsPushed(s: State, g: State, d: Ptr, slots: seq<Addr>, w: Words)
    requires Threaded(s, w) && NoDup(slots) && forall a :: a in slots ==> a != 0 && forall p :: !At(s, a, p)
    requires g.threads == s.threads && d in g.heap.spans && g.heap.spans[d].objs == Reversed(slots) + []
    requires forall x :: x in g.heap.spans && x != d ==>
      g.heap.spans[x].objs == [] || (x in s.heap.spans && g.heap.spans[x].objs == s.heap.spans[x].objs)
    ensures Threaded(g, Pushes(w, 0, slots))
  {
    assert Linked(w, []);
    LinkedPushes(w, [], slots);
    forall q | q != Free(d)
      ensures Untouched(s, g, q, slots)
    {
      if IsList(g, q) && ListAt(g, q) != [] {
        assert forall a :: a in ListAt(s, q) ==> At(s, a, q);
      }
    }
    Rethreaded(s, w, g, Pushes(w, 0, slots), slots, {Free(d)});
  }

  lemma CarveThreaded(s: State, c: nat, w: Words)
    requires Inv(s) && s.heap.base > 0 && c < CLASSES && (ClassesReady(s, c); BatchFits(s, c)) && Threaded(s, w)
    ensures CentralReady(s, c) && Threaded(GetSpanCentral(s, c).0, CarveWords(s, c, w))
  {
    ClassesReady(s, c);
    if FirstWithSlots(s.heap.spans, s.classes[c].list) == |s.classes[c].list| {
      ClassRoundTrip(c);
      var h, d := FetchSpanOk(s.heap, BATCH);
      BatchThreaded(s, h, d, c, w);
    }
  }

  /** Cutting the first `n` slots off the list of `d` for thread `t`: one word is written. */
  lemma DetachThreaded(g: State, t: Tid, c: nat, d: Ptr, n: nat, w: Words)
    requires Unique(g) && Threaded(g, w) && c < |g.classes| && c < CLASSES && Idle(g, t)
    requires d in g.heap.spans && NoDup(g.heap.spans[d].objs) && 1 <= n <= |g.heap.spans[d].objs|
    ensures var objs := g.heap.spans[d].objs;
      Threaded(SetThread(Shrink(g, c, d, n), t, WithChain(g.threads[t], c, objs[..n])), w[objs[n - 1] := 0])
  {
    var objs := g.heap.spans[d].objs;
    var s' := SetThread(Shrink(g, c, d, n), t, WithChain(g.threads[t], c, objs[..n]));
    var a, w' := objs[n - 1], w[objs[n - 1] := 0];
    assert Linked(w, ListAt(g, Free(d))) && At(g, a, Free(d));
    ChainCut(w, HeadOf(objs), objs, n);
    LinkedRest(w, objs, n);
    LinkedFrame(w, w', [a], objs[n..]);
    forall q | q !in {Free(d), OnTheWay(t)}
      ensures Untouched(g, s', q, [a])
    {
      if IsList(s', q) && ListAt(s', q) != [] { Elsewhere(g, Free(d), q, a); }
    }
    Rethreaded(g, w, s', w', [a], {Free(d), OnTheWay(t)});
  }

  function FetchWords(s: State, t: Tid, c: nat, w: Words): Words
    requires CentralReady(s, c) && Idle(s, t)
  {
    var chain := FetchObjs(s, c, FetchLimit(s.threads[t].lists[c].maxLength)).1;
    if chain == [] then CarveWords(s, c, w) else CarveWords(s, c, w)[Last(chain) := 0]
  }

  /** A fetch in terms of the span found and the number of slots taken. */
  lemma FetchParts(s: State, t: Tid, c: nat, g: State, d: Ptr, n: nat, w: Words)
    requires CentralReady(s, c) && Idle(s, t) && GetSpanCentral(s, c) == (g, d) && d in g.heap.spans && c < |g.classes|
    requires n == FetchCount(g.heap.spans[d], FetchLimit(s.threads[t].lists[c].maxLength)) >= 1 && g.threads == s.threads
    ensures var objs := g.heap.spans[d].objs;
      && Fetch(s, t, c) == SetThread(Shrink(g, c, d, n), t, WithChain(g.threads[t], c, objs[..n]))
      && FetchWords(s, t, c, w) == CarveWords(s, c, w)[objs[n - 1] := 0]
  {
    assert Last(g.heap.spans[d].objs[..n]) == g.heap.spans[d].objs[n - 1];
  }

  lemma ChainThreaded(s: State, t: Tid, c: nat, w: Words)
    requires Inv(s) && s.heap.base > 0 && Enabled(s, FetchStep(t, c)) && Fits(s, FetchStep(t, c)) && Threaded(s, w)
    ensures CentralReady(s, c) && Threaded(Fetch(s, t, c), FetchWords(s, t, c, w))
  {
    CarveThreaded(s, c, w);
    var g, d := GetSpanCentralOk(s, c);
    FetchSome(s, g, t, c, d);
    var n := FetchCount(g.heap.spans[d], FetchLimit(s.threads[t].lists[c].maxLength));
    FetchParts(s, t, c, g, d, n, w);
    DetachThreaded(g, t, c, d, n, CarveWords(s, c, w));
  }

  lemma FetchSome(s: State, g: State, t: Tid, c: nat, d: Ptr)
    requires Inv(s) && Inv(g) && Idle(s, t) && c < CLASSES && g.threads == s.threads
    requires d in g.classes[c].list && d in g.heap.spans && g.heap.spans[d].objs != []
    ensures 1 <= FetchCount(g.heap.spans[d], FetchLimit(s.threads[t].lists[c].maxLength)) <= |g.heap.spans[d].objs|
    ensures NoDup(g.heap.spans[d].objs) && Idle(g, t)
  {
    ListedOk(g, c, d);
    assert ThreadOk(s.heap, s.threads[t]) && ListOk(s.heap, s.threads[t].lists[c], c);
    LimitOk(c, s.threads[t].lists[c].maxLength);
    FetchCountExact(g.heap.spans[d], FetchLimit(s.threads[t].lists[c].maxLength));
  }

  // ----- every step ---------------------------------------------------------

  /** The slot words after a step. */
  function Written(s: State, act: Action, w: Words): Words
    requires Inv(s) && Enabled(s, act)
  {
    match act
    case CarveAhead(c) => ClassesReady(s, c); CarveWords(s, c, w)
    case FetchStep(t, c) => ClassesReady(s, c); FetchWords(s, t, c, w)
    case InsertStep(t) =>
      InsertOk(s, t);
      Pushes(w, HeadOf(s.threads[t].lists[s.threads[t].moving.class_].objs), s.threads[t].moving.chain)
    case FreeStep(t, a) => LiveSmall(s, a); w[a := HeadOf(s.threads[t].lists[FreedClass(s.heap, a)].objs)]
    case FlushStep(t) => ChainReturnable(s, t); ReturnWords(s, t, w)
    case _ => w
  }

  lemma PageStepThreaded(s: State, act: Action, w: Words)
    requires Inv(s) && Enabled(s, act) && Fits(s, act) && Threaded(s, w)
    requires act.LargeMallocStep? || act.LargeFreeStep? || act.ForeignBreak?
    ensures Threaded(Apply(s, act), w)
  {
    match act
    case LargeMallocStep(t, size) =>
      var h, d := FetchThreaded(s, size / 4096, w);
      PagesThreaded(s.(heap := h), Apply(s, act), w);
    case LargeFreeStep(t, a) => LiveLarge(s, a); PagesThreaded(s, Apply(s, act), w);
    case ForeignBreak(pages) => PagesThreaded(s, Apply(s, act), w);
  }

  lemma LocalStepThreaded(s: State, act: Action, w: Words)
    requires Inv(s) && s.heap.base > 0 && Enabled(s, act) && Threaded(s, w)
    requires act.InsertStep? || act.PopStep? || act.FreeStep?
    ensures Threaded(Apply(s, act), Written(s, act, w))
  {
    match act
    case InsertStep(t) => ChainPositive(s, t); InsertOk(s, t); InsertThreaded(s, t, w);
    case PopStep(t, size) => PopOk(s, t, size); PopThreaded(s, t, size, w);
    case FreeStep(t, a) => LiveSmall(s, a); SlotPositive(s, a, User); FreeThreaded(s, t, a, w);
  }

  lemma StartThreaded(s: State, t: Tid, w: Words)
    requires t !in s.threads && Threaded(s, w)
    ensures Threaded(SetThread(s, t, FreshThread()), w)
  {
    Rethreaded(s, w, SetThread(s, t, FreshThread()), w, [], {});
  }

  /** Every step, with the words it writes, keeps all lists threaded. */
  lemma StepThreaded(s: State, act: Action, w: Words)
    requires Inv(s) && s.heap.base > 0 && Enabled(s, act) && Fits(s, act) && Threaded(s, w)
    ensures Threaded(Apply(s, act), Written(s, act, w))
  {
    match act
    case StartThread(t) => StartThreaded(s, t, w);
    case CarveAhead(c) => CarveThreaded(s, c, w);
    case FetchStep(t, c) => ChainThreaded(s, t, c, w);
    case FlushStep(t) => FlushThreaded(s, t, w);
    case LargeMallocStep(t, size) => PageStepThreaded(s, act, w);
    case LargeFreeStep(t, a) => PageStepThreaded(s, act, w);
    case ForeignBreak(pages) => PageStepThreaded(s, act, w);
    case _ => LocalStepThreaded(s, act, w);
  }

  // ----- the program's writes -----------------------------------------------

  /** The address `x` is inside some block the program holds. */
  ghost predicate InLiveBlock(s: State, x: nat) {
    exists b :: LiveAround(s, b, x)
  }

  predicate LiveAround(s: State, b: Addr, x: nat) {
    b in s.live && Mapped(s.heap, b) && SpanAt(s.heap, b) in s.heap.spans && b <= x < BlockEnd(s.heap, b)
  }

  /** The word at `a` has 8 bytes; `x` is the address of one of them. */
  predicate Covers(a: nat, x: nat) {
    a <= x < a + 8
  }

  /** The whole link word of a slot that is on any list is outside every live block. */
  lemma ListedSlotOutside(s: State, a: Addr, p: Place, x: nat)
    requires Inv(s) && At(s, a, p) && p != User && Covers(a, x)
    ensures !InLiveBlock(s, x)
  {
    ListedSlot(s, a, p);
    var sp := s.heap.spans[SpanAt(s.heap, a)];
    forall b | b in s.live && Mapped(s.heap, b) && SpanAt(s.heap, b) in s.heap.spans
      ensures !(b <= x < BlockEnd(s.heap, b))
    {
      assert At(s, b, User) && a != b;
      BlockInside(s, b);
      if SpanAt(s.heap, b) != SpanAt(s.heap, a) {
        SpansApart(s.heap, SpanAt(s.heap, a), SpanAt(s.heap, b));
      } else {
        SlotsApart(sp.start, SpanEnd(sp), sp.objsSize, a, b);
      }
    }
  }

  /** A listed slot lies in its span and has room for a word. */
  lemma ListedSlot(s: State, a: Addr, p: Place)
    requires Inv(s) && At(s, a, p) && p != User
    ensures Mapped(s.heap, a) && SpanOk(s.heap, SpanAt(s.heap, a)) && a in SlotsOf(s.heap.spans[SpanAt(s.heap, a)])
    ensures s.heap.spans[SpanAt(s.heap, a)].start <= a && s.heap.spans[SpanAt(s.heap, a)].objsSize >= 8
    ensures a + s.heap.spans[SpanAt(s.heap, a)].objsSize <= SpanEnd(s.heap.spans[SpanAt(s.heap, a)])
  {
    PlaceSpan(s, a, p);
    var d := SpanAt(s.heap, a);
    assert SpanOk(s.heap, d) && a in SlotsOf(s.heap.spans[d]);
    SlotMapped(s.heap, d, a);
    ClassRoundTrip(GetIndex(s.heap.spans[d].objsSize));
  }

  /** Some byte of the word at `a` is inside a live block. */
  ghost predicate Exposed(s: State, a: nat) {
    exists x :: Covers(a, x) && InLiveBlock(s, x)
  }

  /** The program writes what it likes, inside its blocks: words with no byte there stay. */
  ghost predicate ProgramWrites(s: State, w: Words, w': Words) {
    forall a :: a in w && !Exposed(s, a) ==> a in w' && w'[a] == w[a]
  }

  lemma ListedHidden(s: State, a: Addr, p: Place)
    requires Inv(s) && At(s, a, p) && p != User
    ensures !Exposed(s, a)
  {
    forall x | Covers(a, x)
      ensures !InLiveBlock(s, x)
    {
      ListedSlotOutside(s, a, p, x);
    }
  }

  /** That harms no free list. */
  lemma WritesHarmless(s: State, w: Words, w': Words)
    requires Inv(s) && Threaded(s, w) && ProgramWrites(s, w, w')
    ensures Threaded(s, w')
  {
    forall p | IsList(s, p)
      ensures Linked(w', ListAt(s, p))
    {
      forall a | a in ListAt(s, p)
        ensures !Exposed(s, a)
      {
        ListedHidden(s, a, p);
      }
      ChainFrame(w, w', HeadOf(ListAt(s, p)), ListAt(s, p));
    }
  }

  // ----- whole runs ---------------------------------------------------------

  /** A state of the allocator and the words of memory. */
  datatype Machine = Machine(s: State, w: Words)

  /** Holds every start, with any memory, and with a machine all that a step of the allocator or a
      write of the program leads to. */
  ghost predicate MachineClosed(all: iset<Machine>) {
    && (forall base, w :: base > 0 && base % 4096 == 0 ==> Machine(Init(base), w) in all)
    && (forall m, act :: m in all && Inv(m.s) && Enabled(m.s, act) && Moderate(act) ==> Stepped(m, act) in all)
    && (forall m, w' :: m in all && ProgramWrites(m.s, m.w, w') ==> Machine(m.s, w') in all)
  }

  function Stepped(m: Machine, act: Action): Machine
    requires Inv(m.s) && Enabled(m.s, act)
  {
    Machine(Apply(m.s, act), Written(m.s, act, m.w))
  }

  ghost predicate MachineReachable(m: Machine) {
    forall all :: MachineClosed(all) ==> m in all
  }

  ghost predicate Sound(m: Machine) {
    Reachable(m.s) && m.s.heap.base > 0 && Threaded(m.s, m.w)
  }

  lemma StartSound(base: nat, w: Words)
    requires base > 0 && base % 4096 == 0
    ensures Sound(Machine(Init(base), w))
  {
    InitReachable(base);
  }

  lemma FetchBase(s: State, c: nat)
    requires Inv(s) && c < CLASSES && (ClassesReady(s, c); BatchFits(s, c))
    ensures CentralReady(s, c) && GetSpanCentral(s, c).0.heap.base == s.heap.base
  {
    ClassesReady(s, c);
    BatchView(s, c);
    if FirstWithSlots(s.heap.spans, s.classes[c].list) == |s.classes[c].list| {
      var h, d := FetchSpanOk(s.heap, BATCH);
    }
  }

  lemma BaseStays(s: State, act: Action)
    requires Inv(s) && Enabled(s, act) && Fits(s, act)
    ensures Apply(s, act).heap.base == s.heap.base
  {
    match act
    case CarveAhead(c) => FetchBase(s, c);
    case FetchStep(t, c) => FetchBase(s, c); ChainView(s, t, c);
    case FlushStep(t) => FlushMapStays(s, t);
    case LargeMallocStep(t, size) => var h, d := FetchSpanOk(s.heap, size / 4096);
    case LargeFreeStep(t, a) => LiveLarge(s, a);
    case _ =>
  }

  lemma StepSound(m: Machine, act: Action)
    requires Sound(m) && Inv(m.s) && Enabled(m.s, act) && Moderate(act)
    ensures Sound(Stepped(m, act))
  {
    ReachableOk(m.s);
    StepLimited(m.s, act);
    StepThreaded(m.s, act, m.w);
    BaseStays(m.s, act);
    StepReachable(m.s, act, Apply(m.s, act));
  }

  lemma WriteSound(m: Machine, w': Words)
    requires Sound(m) && ProgramWrites(m.s, m.w, w')
    ensures Sound(Machine(m.s, w'))
  {
    ReachableOk(m.s);
    WritesHarmless(m.s, m.w, w');
  }

  /** In every run, whatever the program writes into the blocks it holds and whenever, every free
      list of every span and thread is intact in memory: following the links from its head visits
      exactly its slots and ends. */
  lemma ListsIntact(m: Machine, p: Place)
    requires MachineReachable(m) && IsList(m.s, p)
    ensures Reachable(m.s) && Chain(m.w, HeadOf(ListAt(m.s, p)), ListAt(m.s, p))
  {
    var sound := iset x: Machine | Sound(x);
    forall base, w | base > 0 && base % 4096 == 0
      ensures Machine(Init(base), w) in sound
    {
      StartSound(base, w);
    }
    forall x, act | x in sound && Inv(x.s) && Enabled(x.s, act) && Moderate(act)
      ensures Stepped(x, act) in sound
    {
      StepSound(x, act);
    }
    forall x, w' | x in sound && ProgramWrites(x.s, x.w, w')
      ensures Machine(x.s, w') in sound
    {
      WriteSound(x, w');
    }
    assert MachineClosed(sound);
  }

  // ----- the allocator's writes ---------------------------------------------

  lemma {:induction false} PushesDiffer(w: Words, head: nat, slots: seq<nat>)
    ensures Differs(w, Pushes(w, head, slots), slots)
    decreases |slots|
  {
    if slots != [] {
      PushesDiffer(w[slots[0] := head], slots[0], slots[1..]);
    }
  }

  /** The word at `x` is as it was. */
  predicate Kept(w: Words, w': Words, x: nat) {
    x in w ==> x in w' && w'[x] == w[x]
  }

  lemma InsertKept(s: State, t: Tid, w: Words, x: nat)
    requires Inv(s) && Enabled(s, InsertStep(t)) && Exposed(Apply(s, InsertStep(t)), x)
    ensures Kept(w, Written(s, InsertStep(t), w), x)
  {
    var s' := Apply(s, InsertStep(t));
    var c, chain := s.threads[t].moving.class_, s.threads[t].moving.chain;
    StepOk(s, InsertStep(t));
    PushesDiffer(w, HeadOf(s.threads[t].lists[c].objs), chain);
    if x in chain {
      assert At(s', x, Cached(t, c));
      ListedHidden(s', x, Cached(t, c));
    }
  }

  lemma FreeKept(s: State, t: Tid, a: Addr, w: Words, x: nat)
    requires Inv(s) && Enabled(s, FreeStep(t, a)) && Exposed(Apply(s, FreeStep(t, a)), x)
    ensures Kept(w, Written(s, FreeStep(t, a), w), x)
  {
    var s' := Apply(s, FreeStep(t, a));
    LiveSmall(s, a);
    StepOk(s, FreeStep(t, a));
    if x == a {
      var p := if s'.threads[t].moving == Nothing then Cached(t, FreedClass(s.heap, a)) else OnTheWay(t);
      assert At(s', a, p);
      ListedHidden(s', a, p);
    }
  }

  /** The new slots of a batch are on its span's list. */
  lemma CarveWritten(s: State, c: nat, w: Words, x: nat)
    requires CentralReady(s, c) && SplitFits(s.heap, BATCH) && !Kept(w, CarveWords(s, c, w), x)
    ensures var r := GetSpanCentral(s, c); At(r.0, x, Free(r.1))
  {
    ClassRoundTrip(c);
    var h, d := FetchSpanOk(s.heap, BATCH);
    PushesDiffer(w, 0, SlotsOf(h.spans[d].(objsSize := IndexToSize(c))));
  }

  lemma CarveKept(s: State, c: nat, w: Words, x: nat)
    requires Inv(s) && Limited(s.heap) && Enabled(s, CarveAhead(c)) && Exposed(Apply(s, CarveAhead(c)), x)
    ensures Kept(w, Written(s, CarveAhead(c), w), x)
  {
    ClassesReady(s, c);
    StepLimited(s, CarveAhead(c));
    StepOk(s, CarveAhead(c));
    LimitedFits(s.heap, BATCH);
    if !Kept(w, CarveWords(s, c, w), x) {
      CarveWritten(s, c, w, x);
      ListedHidden(GetSpanCentral(s, c).0, x, Free(GetSpanCentral(s, c).1));
    }
  }

  /** A slot on the list of the span found is, after the fetch, still there or on its way. */
  lemma FetchPlaces(s: State, t: Tid, c: nat, x: nat)
    requires CentralReady(s, c) && Idle(s, t) && At(GetSpanCentral(s, c).0, x, Free(GetSpanCentral(s, c).1))
    ensures At(Fetch(s, t, c), x, Free(GetSpanCentral(s, c).1)) || At(Fetch(s, t, c), x, OnTheWay(t))
  {
    var r := GetSpanCentral(s, c);
    var objs := r.0.heap.spans[r.1].objs;
    var n := FetchCount(r.0.heap.spans[r.1], FetchLimit(s.threads[t].lists[c].maxLength));
    assert objs == objs[..n] + objs[n..];
  }

  /** What a fetch writes is on a list afterwards. */
  lemma FetchWritten(s: State, t: Tid, c: nat, w: Words, x: nat)
    requires CentralReady(s, c) && Idle(s, t) && SplitFits(s.heap, BATCH) && !Kept(w, FetchWords(s, t, c, w), x)
    ensures At(Fetch(s, t, c), x, Free(GetSpanCentral(s, c).1)) || At(Fetch(s, t, c), x, OnTheWay(t))
  {
    var chain := FetchObjs(s, c, FetchLimit(s.threads[t].lists[c].maxLength)).1;
    assert Fetch(s, t, c).threads[t].moving == Fetched(c, chain);
    if chain == [] || x != Last(chain) {
      CarveWritten(s, c, w, x);
      FetchPlaces(s, t, c, x);
    }
  }

  lemma FetchKept(s: State, t: Tid, c: nat, w: Words, x: nat)
    requires Inv(s) && Limited(s.heap) && Enabled(s, FetchStep(t, c)) && Exposed(Apply(s, FetchStep(t, c)), x)
    ensures Kept(w, Written(s, FetchStep(t, c), w), x)
  {
    ClassesReady(s, c);
    StepLimited(s, FetchStep(t, c));
    StepOk(s, FetchStep(t, c));
    LimitedFits(s.heap, BATCH);
    if !Kept(w, FetchWords(s, t, c, w), x) {
      FetchWritten(s, t, c, w, x);
      var p := if At(Fetch(s, t, c), x, OnTheWay(t)) then OnTheWay(t) else Free(GetSpanCentral(s, c).1);
      ListedHidden(Fetch(s, t, c), x, p);
    }
  }

  lemma {:induction false} ReturnsDiffer(s: State, t: Tid, w: Words)
    requires Flushes(s, t)
    ensures Differs(w, ReturnWords(s, t, w), s.threads[t].moving.chain)
    ensures forall d :: d in s.heap.spans ==> d in Returned(s, t).heap.spans && SamePages(s.heap.spans[d], Returned(s, t).heap.spans[d])
    decreases |s.threads[t].moving.chain|
  {
    if s.threads[t].moving.chain != [] {
      FlushesOn(s, t);
      ReturnsDiffer(ReturnOne(s, t), t, ReturnWord(s, t, w));
    }
  }

  predicate SamePages(a: Span, b: Span) {
    a.start == b.start && a.pageSize == b.pageSize
  }

  lemma SettlePages(s: State, c: nat, d: Ptr)
    requires |s.heap.rings| == 256 && c < |s.classes| && d in s.heap.spans
    ensures forall x :: x in s.heap.spans ==> x in Settle(s, c, d).heap.spans && SamePages(s.heap.spans[x], Settle(s, c, d).heap.spans[x])
  {
  }

  lemma FlushPages(s: State, t: Tid, d: Ptr)
    requires Inv(s) && Enabled(s, FlushStep(t)) && d in s.heap.spans
    ensures d in Flush(s, t).heap.spans && SamePages(s.heap.spans[d], Flush(s, t).heap.spans[d])
  {
    ReturnedAll(s, t);
    ReturnsDiffer(s, t, map[]);
    LastSpan(s, t);
    SettlePages(ReturnAll(s, t), s.threads[t].moving.class_, SpanAt(s.heap, Last(s.threads[t].moving.chain)));
  }

  /** A block of the same span, pages and slot size reaches as far. */
  lemma SameReach(s: State, s': State, b: Addr, x: nat)
    requires SameView(s, s') && LiveAround(s', b, x) && Mapped(s.heap, b) && SpanAt(s.heap, b) in s.heap.spans
    requires SamePages(s.heap.spans[SpanAt(s.heap, b)], s'.heap.spans[SpanAt(s.heap, b)])
    requires s.heap.spans[SpanAt(s.heap, b)].objsSize == s'.heap.spans[SpanAt(s.heap, b)].objsSize
    ensures LiveAround(s, b, x)
  {
  }

  lemma FlushSizeRead(s: State, t: Tid, b: Addr)
    requires Inv(s) && Enabled(s, FlushStep(t)) && b in Flush(s, t).live
    ensures ReadsSize(Flush(s, t), b)
  {
    FlushOk(s, t);
    SizeRead(Flush(s, t), b);
  }

  /** A live block reaches as far as it did before the flush. */
  lemma FlushBlocks(s: State, t: Tid, b: Addr, x: nat)
    requires Inv(s) && Enabled(s, FlushStep(t)) && LiveAround(Flush(s, t), b, x)
    ensures LiveAround(s, b, x)
  {
    FlushMapStays(s, t);
    SizeRead(s, b);
    FlushSizeRead(s, t, b);
    SameSize(s, Flush(s, t), b);
    FlushPages(s, t, SpanAt(s.heap, b));
    SameReach(s, Flush(s, t), b, x);
  }

  lemma SameSize(s: State, s': State, b: Addr)
    requires SameView(s, s') && b in s.live && ReadsSize(s, b) && ReadsSize(s', b)
    ensures Mapped(s.heap, b) && SpanAt(s.heap, b) in s.heap.spans && SpanAt(s.heap, b) in s'.heap.spans
    ensures s'.heap.spans[SpanAt(s.heap, b)].objsSize == s.heap.spans[SpanAt(s.heap, b)].objsSize
  {
  }

  lemma FlushKept(s: State, t: Tid, w: Words, x: nat)
    requires Inv(s) && Enabled(s, FlushStep(t)) && Exposed(Flush(s, t), x)
    ensures Kept(w, Written(s, FlushStep(t), w), x)
  {
    ChainReturnable(s, t);
    ReturnsDiffer(s, t, w);
    var y :| Covers(x, y) && InLiveBlock(Flush(s, t), y);
    var b :| LiveAround(Flush(s, t), b, y);
    FlushBlocks(s, t, b, y);
    if x in s.threads[t].moving.chain {
      ListedSlotOutside(s, x, OnTheWay(t), y);
    }
  }

  /** The allocator writes into no live block: every word with a byte inside a block that is live
      after a step of any thread is what it was before. */
  lemma DataKept(s: State, act: Action, w: Words, x: nat)
    requires Reachable(s) && Enabled(s, act)
    requires (ReachableOk(s); Exposed(Apply(s, act), x))
    ensures Inv(s) && Kept(w, Written(s, act, w), x)
  {
    ReachableOk(s);
    match act
    case CarveAhead(c) => CarveKept(s, c, w, x);
    case FetchStep(t, c) => FetchKept(s, t, c, w, x);
    case InsertStep(t) => InsertKept(s, t, w, x);
    case FreeStep(t, a) => FreeKept(s, t, a, w, x);
    case FlushStep(t) => FlushKept(s, t, w, x);
    case _ =>
  }
}
