/** Runs of the allocator by any number of threads, and what holds in every state they reach. */
module AllocatorRuns {
  import opened SizeClasses
  import opened PageHeap
  import opened Allocator
  import opened Runs

  // ----- steps and runs -----------------------------------------------------

  datatype Action =
    | StartThread(t: Tid)
    | CarveAhead(c: nat)                   // tc_central_init, for one class
    | FetchStep(t: Tid, c: nat)            // a cache miss, or tc_thread_init for one class
    | InsertStep(t: Tid)
    | PopStep(t: Tid, size: nat)           // the end of a small tc_malloc
    | FreeStep(t: Tid, a: Addr)            // tc_free, up to the lock if the cache overflows
    | FlushStep(t: Tid)
    | LargeMallocStep(t: Tid, size: nat)
    | LargeFreeStep(t: Tid, a: Addr)
    | ForeignBreak(pages: nat)             // other code moves the break

  function FreshThread(): Thread {
    Thread(seq(CLASSES, _ => ThreadList([], 0, 1)), Nothing)
  }

  function Init(base: nat): State {
    State(Empty(base), seq(CLASSES, _ => ClassRings([], [], {})), map[], map[])
  }

  /** Between calls, and past tc_thread_init: the first fetch of every class has raised its limit. */
  predicate Ready(s: State, t: Tid) {
    Idle(s, t) && forall c :: 0 <= c < CLASSES ==> s.threads[t].lists[c].maxLength > 1
  }

  /** When a thread may take a step. The classes are carved ahead before any thread starts; a thread
      allocates and frees when it is ready; a block may be freed only while it is live, but by any
      thread, and which way tc_free goes is decided by what the page map says. */
  predicate Enabled(s: State, act: Action) {
    match act
    case StartThread(t) => t !in s.threads
    case CarveAhead(c) => c < CLASSES && s.threads == map[]
    case FetchStep(t, c) => Idle(s, t) && c < CLASSES && s.threads[t].lists[c].objs == []
    case InsertStep(t) => t in s.threads && s.threads[t].moving.Fetched?
    case PopStep(t, size) =>
      Ready(s, t) && 1 <= size <= THRESH_ALLOC && IsClass(GetIndex(size)) && s.threads[t].lists[GetIndex(size)].objs != []
    case FreeStep(t, a) => Ready(s, t) && a in s.live && FreesSmall(s.heap, a)
    case FlushStep(t) => t in s.threads && s.threads[t].moving.Flushing? && s.threads[t].moving.chain != []
    case LargeMallocStep(t, size) => Ready(s, t) && THRESH_ALLOC < size < INT_BYTES
    case LargeFreeStep(t, a) => Ready(s, t) && a in s.live && !FreesSmall(s.heap, a)
    case ForeignBreak(pages) => true
  }

  /** The break moved by someone else: the pages passed over are not the allocator's. */
  function PassOver(h: Heap, pages: nat): Heap {
    h.(brk := h.brk + pages)
  }

  function Apply(s: State, act: Action): State
    requires Inv(s) && Enabled(s, act)
  {
    match act
    case StartThread(t) => SetThread(s, t, FreshThread())
    case CarveAhead(c) => ClassesReady(s, c); GetSpanCentral(s, c).0
    case FetchStep(t, c) => ClassesReady(s, c); Fetch(s, t, c)
    case InsertStep(t) => InsertOk(s, t); Insert(s, t)
    case PopStep(t, size) => PopOk(s, t, size); Pop(s, t, size)
    case FreeStep(t, a) => LiveSmall(s, a); FreeSlot(s, t, a)
    case FlushStep(t) => Flush(s, t)
    case LargeMallocStep(t, size) => MallocLarge(s, size)
    case LargeFreeStep(t, a) => LiveLarge(s, a); FreeLarge(s, a)
    case ForeignBreak(pages) => s.(heap := PassOver(s.heap, pages))
  }

  /** The split that the step makes, if any, does not wrap. */
  ghost predicate Fits(s: State, act: Action)
    requires Inv(s) && Enabled(s, act)
  {
    match act
    case CarveAhead(c) => ClassesReady(s, c); BatchFits(s, c)
    case FetchStep(t, c) => ClassesReady(s, c); BatchFits(s, c)
    case LargeMallocStep(t, size) => SplitFits(s.heap, size / 4096)
    case _ => true
  }

  lemma LiveLarge(s: State, a: Addr)
    requires Inv(s) && a in s.live && !FreesSmall(s.heap, a)
    ensures s.live[a] > THRESH_ALLOC && LargeBlock(s.heap, a) && Mapped(s.heap, a) && SpanAt(s.heap, a) in s.heap.spans
  {
    LiveSmall(s, a);
    assert LiveAt(s.heap, a, s.live[a]);
  }

  lemma FreshOk(h: Heap)
    ensures ThreadOk(h, FreshThread())
  {
  }

  lemma FreshMoves(s: State, t: Tid)
    requires t !in s.threads
    ensures Moved(s, SetThread(s, t, FreshThread()), [], User)
  {
  }

  lemma StartThreadOk(s: State, t: Tid)
    requires Inv(s) && t !in s.threads
    ensures Inv(SetThread(s, t, FreshThread()))
  {
    var s' := SetThread(s, t, FreshThread());
    FreshOk(s.heap);
    FreshMoves(s, t);
    LocalOk(s, s', [], User);
  }

  lemma BreakKeeps(h: Heap, pages: nat)
    requires HeapInv(h)
    ensures HeapInv(PassOver(h, pages))
    ensures forall x :: Held(PassOver(h, pages), x) <==> Held(h, x)
  {
    var h' := PassOver(h, pages);
    CoreCarries(h, h');
    forall x
      ensures Owns(h', x) <==> Owns(h, x)
    {
    }
  }

  lemma ForeignOk(s: State, pages: nat)
    requires Inv(s)
    ensures Inv(s.(heap := PassOver(s.heap, pages)))
  {
    var h' := PassOver(s.heap, pages);
    var s' := s.(heap := h');
    BreakKeeps(s.heap, pages);
    forall x | Central(s.heap, x)
      ensures SpanOk(h', x) && Carries(s.heap, h', x)
    {
      assert SpanOk(s.heap, x);
    }
    forall k | 0 <= k < CLASSES
      ensures ClassOk(h', s.classes[k], k)
    {
      assert ClassOk(s.heap, s.classes[k], k);
    }
    CarryThreads(s, h');
    CarryLive(s, h');
    assert forall a, p :: At(s', a, p) <==> At(s, a, p);
    MovedKeepsPlaces(s, s', [], User);
  }

  lemma InitOk(base: nat)
    requires base % 4096 == 0
    ensures Inv(Init(base))
  {
    EmptyOk(base);
  }

  lemma LargeMallocOk(s: State, size: nat)
    requires Inv(s) && THRESH_ALLOC < size < INT_BYTES && SplitFits(s.heap, size / 4096)
    ensures Inv(MallocLarge(s, size))
  {
    var h, d := FetchSpanOk(s.heap, size / 4096);
    LargeOk(s, h, d, size);
  }

  lemma CacheStepOk(s: State, act: Action)
    requires Inv(s) && Enabled(s, act) && (act.InsertStep? || act.PopStep? || act.FreeStep?)
    ensures Inv(Apply(s, act))
  {
    match act
    case InsertStep(t) => InsertOk(s, t);
    case PopStep(t, size) => PopOk(s, t, size);
    case FreeStep(t, a) => LiveSmall(s, a); FreeSlotOk(s, t, a);
  }

  lemma CentralStepOk(s: State, act: Action)
    requires Inv(s) && Enabled(s, act) && (act.CarveAhead? || act.FetchStep? || act.FlushStep?) && Fits(s, act)
    ensures Inv(Apply(s, act))
  {
    match act
    case CarveAhead(c) => var s', d := GetSpanCentralOk(s, c);
    case FetchStep(t, c) => FetchOk(s, t, c);
    case FlushStep(t) => FlushOk(s, t);
  }

  lemma PageStepOk(s: State, act: Action)
    requires Inv(s) && Enabled(s, act)
    requires (act.StartThread? || act.ForeignBreak? || act.LargeMallocStep? || act.LargeFreeStep?) && Fits(s, act)
    ensures Inv(Apply(s, act))
  {
    match act
    case StartThread(t) => StartThreadOk(s, t);
    case ForeignBreak(pages) => ForeignOk(s, pages);
    case LargeMallocStep(t, size) => LargeMallocOk(s, size);
    case LargeFreeStep(t, a) => LiveLarge(s, a); FreeLargeOk(s, a);
  }

  /** Every step whose split fits keeps the invariant. */
  lemma StepOk(s: State, act: Action)
    requires Inv(s) && Enabled(s, act) && Fits(s, act)
    ensures Inv(Apply(s, act))
  {
    if act.InsertStep? || act.PopStep? || act.FreeStep? {
      CacheStepOk(s, act);
    } else if act.CarveAhead? || act.FetchStep? || act.FlushStep? {
      CentralStepOk(s, act);
    } else {
      PageStepOk(s, act);
    }
  }

  // ----- where a split wraps ------------------------------------------------

  lemma MisplacedStill(h: Heap, d: Ptr, sp: Span)
    requires Misplaced(h, d) && sp.start == h.spans[d].start && sp.pageId == h.spans[d].pageId
    ensures Misplaced(Tweak(h, d, sp), d)
  {
    var p :| p in h.pageMap && h.pageMap[p] == d;
    assert p in Tweak(h, d, sp).pageMap && Tweak(h, d, sp).pageMap[p] == d;
  }

  lemma BatchWraps(s: State, c: nat)
    requires CentralReady(s, c) && !BatchFits(s, c)
    ensures Misplaced(GetSpanCentral(s, c).0.heap, GetSpanCentral(s, c).1)
  {
    var r := FetchSpan(s.heap, BATCH);
    FetchSpanExact(s.heap, BATCH);
    ClassRoundTrip(c);
    MisplacedStill(r.0, r.1, Carved(r.0.spans[r.1], IndexToSize(c)));
  }

  lemma FetchWraps(s: State, t: Tid, c: nat)
    requires CentralReady(s, c) && !BatchFits(s, c) && Idle(s, t)
    ensures Misplaced(Fetch(s, t, c).heap, GetSpanCentral(s, c).1)
  {
    BatchWraps(s, c);
    var r := GetSpanCentral(s, c);
    var sp := r.0.heap.spans[r.1];
    MisplacedStill(r.0.heap, r.1, Shrunk(sp, FetchCount(sp, FetchLimit(s.threads[t].lists[c].maxLength))));
  }

  lemma StepWraps(s: State, act: Action) returns (d: Ptr)
    requires Inv(s) && Enabled(s, act) && !Fits(s, act)
    ensures Misplaced(Apply(s, act).heap, d)
  {
    if act.LargeMallocStep? {
      FetchSpanExact(s.heap, act.size / 4096);
      d := FetchSpan(s.heap, act.size / 4096).1;
    } else {
      ClassesReady(s, act.c);
      d := GetSpanCentral(s, act.c).1;
      if act.CarveAhead? {
        BatchWraps(s, act.c);
      } else {
        FetchWraps(s, act.t, act.c);
      }
    }
  }

  /** A step of any thread, with a request of any size, keeps the invariant exactly if the split
      it makes, if any, leaves fewer than 2^20 pages. */
  lemma StepExact(s: State, act: Action)
    requires Inv(s) && Enabled(s, act)
    ensures Inv(Apply(s, act)) <==> Fits(s, act)
  {
    if Fits(s, act) {
      StepOk(s, act);
    } else {
      var d := StepWraps(s, act);
      MisplacedBreaks(Apply(s, act).heap, d);
    }
  }

  /** First request so long that its span, once freed and split by 8 pages, wraps. */
  const LARGE_LIMIT := 4096 * (WRAP_PAGES + 8)

  predicate Moderate(act: Action) {
    act.LargeMallocStep? ==> act.size < LARGE_LIMIT
  }

  lemma {:induction false} ReturnAllLimited(s: State, t: Tid)
    requires Inv(s) && t in s.threads && s.threads[t].moving.Flushing? && Limited(s.heap)
    ensures Limited(ReturnAll(s, t).heap)
    decreases |s.threads[t].moving.chain|
  {
    if s.threads[t].moving.chain != [] {
      ReturnOneOk(s, t);
      ReturnAllLimited(ReturnOne(s, t), t);
    }
  }

  lemma FlushLimited(s: State, t: Tid)
    requires Inv(s) && Enabled(s, FlushStep(t)) && Limited(s.heap)
    ensures Limited(Flush(s, t).heap)
  {
    LastSpan(s, t);
    ReturnAllLimited(s, t);
  }

  lemma BatchLimited(s: State, c: nat)
    requires CentralReady(s, c) && Limited(s.heap)
    ensures BatchFits(s, c) && Limited(GetSpanCentral(s, c).0.heap)
  {
    LimitedFits(s.heap, BATCH);
    FetchLimited(s.heap, BATCH);
  }

  lemma ChainLimited(s: State, t: Tid, c: nat)
    requires CentralReady(s, c) && Idle(s, t) && Limited(s.heap)
    ensures BatchFits(s, c) && Limited(Fetch(s, t, c).heap)
  {
    BatchLimited(s, c);
  }

  /** While no request reaches the limit no span does, so every split fits. */
  lemma StepLimited(s: State, act: Action)
    requires Inv(s) && Enabled(s, act) && Limited(s.heap)
    ensures Fits(s, act) && (Moderate(act) ==> Limited(Apply(s, act).heap))
  {
    match act
    case CarveAhead(c) => ClassesReady(s, c); BatchLimited(s, c);
    case FetchStep(t, c) => ClassesReady(s, c); ChainLimited(s, t, c);
    case FlushStep(t) => FlushLimited(s, t);
    case LargeMallocStep(t, size) =>
      LimitedFits(s.heap, size / 4096);
      if size < LARGE_LIMIT { FetchLimited(s.heap, size / 4096); }
    case _ =>
  }

  // ----- runs ---------------------------------------------------------------

  /** The step relation. */
  ghost predicate Goes(s: State, act: Action, s': State) {
    Inv(s) && Enabled(s, act) && s' == Apply(s, act)
  }

  ghost function StepRelation(): (State, Action, State) -> bool {
    (s, act, s') => Goes(s, act, s')
  }

  /** A run: each step is enabled in the state the steps before it lead to. */
  ghost predicate Run(s: State, acts: seq<Action>, s': State) {
    Path(StepRelation(), s, acts, s')
  }

  /** Holds the states at set-up, and with a state all that one step leads to, requests being
      below the limit. */
  ghost predicate Closed(states: iset<State>) {
    && (forall base :: base % 4096 == 0 ==> Init(base) in states)
    && (forall s, act, s' :: s in states && Goes(s, act, s') && Moderate(act) ==> s' in states)
  }

  /** Reachable from a state at set-up: in every such set. `ReachedByRun` puts it as a run. */
  ghost predicate Reachable(s: State) {
    forall states :: Closed(states) ==> s in states
  }

  ghost predicate Good(s: State) {
    Inv(s) && Limited(s.heap)
  }

  lemma GoodStep(s: State, act: Action, s': State)
    requires Good(s) && Goes(s, act, s') && Moderate(act)
    ensures Good(s')
  {
    StepLimited(s, act);
    StepOk(s, act);
  }

  /** The invariant holds in every state that any run of any number of threads reaches. */
  lemma ReachableOk(s: State)
    requires Reachable(s)
    ensures Inv(s) && Limited(s.heap)
  {
    var good := iset a: State | Good(a);
    forall base | base % 4096 == 0
      ensures Init(base) in good
    {
      InitOk(base);
    }
    forall a, x, b | a in good && Goes(a, x, b) && Moderate(x)
      ensures b in good
    {
      GoodStep(a, x, b);
    }
    assert Closed(good);
  }

  lemma OneStep(s: State, act: Action, s': State)
    requires Goes(s, act, s')
    ensures Run(s, [act], s')
  {
    assert [act][1..] == [];
    assert StepRelation()(s, act, s') && Path(StepRelation(), s', [], s');
  }

  lemma RunsOn(s: State, xs: seq<Action>, s1: State, ys: seq<Action>, s2: State)
    requires Run(s, xs, s1) && Run(s1, ys, s2)
    ensures Run(s, xs + ys, s2)
  {
    PathConcat(StepRelation(), s, xs, s1, ys, s2);
  }

  lemma InitReachable(base: nat)
    requires base % 4096 == 0
    ensures Reachable(Init(base))
  {
  }

  lemma StepReachable(s: State, act: Action, s': State)
    requires Reachable(s) && Goes(s, act, s') && Moderate(act)
    ensures Reachable(s')
  {
    forall states | Closed(states)
      ensures s' in states
    {
      assert s in states;
    }
  }

  /** A run from a reachable state, with requests below the limit, leads to a reachable state. */
  lemma {:induction false} StaysReachable(s: State, acts: seq<Action>, s': State)
    requires Reachable(s) && Run(s, acts, s') && forall k :: 0 <= k < |acts| ==> Moderate(acts[k])
    ensures Reachable(s')
    decreases |acts|
  {
    if acts != [] {
      var s1 :| StepRelation()(s, acts[0], s1) && Path(StepRelation(), s1, acts[1..], s');
      StepReachable(s, acts[0], s1);
      StaysReachable(s1, acts[1..], s');
    }
  }

  ghost predicate ModerateRun(s: State, acts: seq<Action>, s': State) {
    Run(s, acts, s') && forall k :: 0 <= k < |acts| ==> Moderate(acts[k])
  }

  ghost predicate ReachedFrom(base: nat, s: State) {
    base % 4096 == 0 && exists acts :: ModerateRun(Init(base), acts, s)
  }

  ghost predicate Reached(s: State) {
    exists base :: ReachedFrom(base, s)
  }

  lemma RunGoesOn(s: State, acts: seq<Action>, s1: State, act: Action, s': State)
    requires ModerateRun(s, acts, s1) && Goes(s1, act, s') && Moderate(act)
    ensures ModerateRun(s, acts + [act], s')
  {
    OneStep(s1, act, s');
    RunsOn(s, acts, s1, [act], s');
  }

  lemma ReachedOnward(base: nat, s: State, act: Action, s': State)
    requires ReachedFrom(base, s) && Goes(s, act, s') && Moderate(act)
    ensures ReachedFrom(base, s')
  {
    var acts :| ModerateRun(Init(base), acts, s);
    RunGoesOn(Init(base), acts, s, act, s');
  }

  lemma ReachedInit(base: nat)
    requires base % 4096 == 0
    ensures ReachedFrom(base, Init(base))
  {
    assert ModerateRun(Init(base), [], Init(base));
  }

  lemma ReachedClosed(all: iset<State>)
    requires forall s :: s in all <==> Reached(s)
    ensures Closed(all)
  {
    forall base | base % 4096 == 0
      ensures Init(base) in all
    {
      ReachedInit(base);
    }
    forall a, x, b | a in all && Goes(a, x, b) && Moderate(x)
      ensures b in all
    {
      var base :| ReachedFrom(base, a);
      ReachedOnward(base, a, x, b);
    }
  }

  /** The reachable states are exactly those that some run reaches from a state at set-up. */
  lemma ReachedByRun(s: State)
    ensures Reachable(s) <==> Reached(s)
  {
    if Reachable(s) {
      var all := iset a: State | Reached(a);
      ReachedClosed(all);
    }
    if Reached(s) {
      var base :| ReachedFrom(base, s);
      var acts :| ModerateRun(Init(base), acts, s);
      InitReachable(base);
      StaysReachable(Init(base), acts, s);
    }
  }
}
