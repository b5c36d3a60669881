/** A run in which a span with free slots drops out of both lists of its class: after the set-up
    sixteen threads, each set up in turn, take all slots of a first span, another starts a second
    one, and then gives six slots of the first span back, three and three. */
module LostSpan {
  import opened Sequences
  import opened SizeClasses
  import opened Slots
  import opened PageHeap
  import opened Allocator
  import opened AllocatorRuns
  import opened AllocatorSafety

  /** The last class: 16 slots of 32,768 bytes to a span. */
  const C := 158
  const Z := 32768

  lemma LastClass()
    ensures IndexToSize(C) == Z && GetIndex(Z) == C
  {
  }

  /** One more step of a run. */
  lemma Go(s: State, act: Action) returns (s': State)
    requires Reachable(s) && Enabled(s, act) && Moderate(act)
    ensures Inv(s) && s' == Apply(s, act) && Reachable(s')
  {
    ReachableOk(s);
    s' := Apply(s, act);
    StepReachable(s, act, s');
  }

  // ----- steps of other classes ---------------------------------------------

  /** A span of the last class. */
  predicate OfLast(s: State, x: Ptr) {
    Central(s.heap, x) && s.heap.spans[x].objsSize == Z
  }

  /** Nothing about the last class changes, and no block becomes or ceases to be live. */
  ghost predicate KeepsLast(s: State, s': State) {
    && C < |s.classes| && C < |s'.classes| && s'.classes[C] == s.classes[C] && s'.live == s.live
    && forall x :: OfLast(s, x) ==> x in s'.heap.spans && s'.heap.spans[x] == s.heap.spans[x]
  }

  lemma KeepsLastTrans(s: State, s1: State, s2: State)
    requires KeepsLast(s, s1) && KeepsLast(s1, s2)
    ensures KeepsLast(s, s2)
  {
  }

  lemma BatchKeepsLast(s: State, c: nat) returns (g: State, d: Ptr)
    requires Reachable(s) && c < CLASSES && c != C
    ensures Inv(s) && CentralReady(s, c) && GetSpanCentral(s, c) == (g, d) && KeepsLast(s, g) && Inv(g)
    ensures d in g.classes[c].list && g.threads == s.threads
  {
    ReachableOk(s);
    ClassesReady(s, c);
    BatchLimited(s, c);
    g, d := GetSpanCentralOk(s, c);
    if FirstWithSlots(s.heap.spans, s.classes[c].list) == |s.classes[c].list| {
      var h, x := FetchSpanOk(s.heap, BATCH);
      FetchCarries(s, h, x);
      ClassRoundTrip(c);
      assert g == AddBatch(s, h, x, c);
    }
  }

  lemma ShrinkKeepsLast(g: State, c: nat, d: Ptr, n: nat)
    requires Inv(g) && c < CLASSES && c != C && d in g.classes[c].list && d in g.heap.spans && n <= |g.heap.spans[d].objs|
    ensures KeepsLast(g, Shrink(g, c, d, n))
  {
    ListedOk(g, c, d);
    LastClass();
  }

  /** A fetch for another class. */
  lemma FetchOther(s: State, t: Tid, c: nat) returns (s': State, chain: seq<Addr>)
    requires Reachable(s) && Enabled(s, FetchStep(t, c)) && c != C
    ensures Reachable(s') && KeepsLast(s, s') && s'.threads == s.threads[t := WithChain(s.threads[t], c, chain)] && |chain| >= 1
  {
    s' := Go(s, FetchStep(t, c));
    FetchTakes(s, t, c);
    var g, d := BatchKeepsLast(s, c);
    var n := FetchCount(g.heap.spans[d], FetchLimit(s.threads[t].lists[c].maxLength));
    chain := g.heap.spans[d].objs[..n];
    ShrinkKeepsLast(g, c, d, n);
  }

  // ----- starting a thread --------------------------------------------------

  /** Thread `t` has made its first fetch for the classes below `c`. */
  predicate InitTo(s: State, t: Tid, c: nat) {
    && Idle(s, t) && (forall k :: 0 <= k < c && k < CLASSES ==> s.threads[t].lists[k].maxLength > 1)
    && (forall k :: c <= k < CLASSES ==> s.threads[t].lists[k] == ThreadList([], 0, 1))
  }

  lemma InitOne(s: State, t: Tid, c: nat) returns (s': State)
    requires Reachable(s) && InitTo(s, t, c) && c < C
    ensures Reachable(s') && InitTo(s', t, c + 1) && KeepsLast(s, s') && s'.threads.Keys == s.threads.Keys
  {
    var s1, chain := FetchOther(s, t, c);
    s' := Go(s1, InsertStep(t));
    KeepsLastTrans(s, s1, s');
  }

  lemma {:induction false} InitAll(s: State, t: Tid, c: nat) returns (s': State)
    requires Reachable(s) && InitTo(s, t, c) && c <= C && C < |s.classes|
    ensures Reachable(s') && InitTo(s', t, C) && KeepsLast(s, s') && s'.threads.Keys == s.threads.Keys
    decreases C - c
  {
    s' := s;
    if c < C {
      var s1 := InitOne(s, t, c);
      s' := InitAll(s1, t, c + 1);
      KeepsLastTrans(s, s1, s');
    }
  }

  /** A new thread, up to its first fetch for the last class. */
  lemma Begin(s: State, t: Tid) returns (s': State)
    requires Reachable(s) && t !in s.threads && C < |s.classes|
    ensures Reachable(s') && InitTo(s', t, C) && KeepsLast(s, s') && s'.threads.Keys == s.threads.Keys + {t}
  {
    var s1 := Go(s, StartThread(t));
    assert InitTo(s1, t, 0) && KeepsLast(s, s1);
    s' := InitAll(s1, t, 0);
    KeepsLastTrans(s, s1, s');
  }

  // ----- taking a slot ------------------------------------------------------

  /** What the first fetch for the last class does: one slot of the span found. */
  lemma FetchOne(s: State, t: Tid) returns (g: State, d: Ptr, s': State)
    requires Reachable(s) && InitTo(s, t, C)
    ensures Inv(s) && CentralReady(s, C) && GetSpanCentral(s, C) == (g, d) && d in g.heap.spans && g.heap.spans[d].objs != []
    ensures Reachable(s') && s'.live == s.live && s'.heap == Tweak(g.heap, d, Shrunk(g.heap.spans[d], 1))
    ensures C < |g.classes| && s'.classes == Shrink(g, C, d, 1).classes
    ensures s'.threads == s.threads[t := WithChain(s.threads[t], C, [g.heap.spans[d].objs[0]])]
  {
    s' := Go(s, FetchStep(t, C));
    ClassesReady(s, C);
    FetchTakes(s, t, C);
    g, d := GetSpanCentral(s, C).0, GetSpanCentral(s, C).1;
    assert g.heap.spans[d].objs[..1] == [g.heap.spans[d].objs[0]];
  }

  /** A thread between calls, with nothing of the last class cached and the limit at 2. */
  predicate ReadyTwo(s: State, t: Tid) {
    Ready(s, t) && s.threads[t].lists[C] == ThreadList([], 0, 2)
  }

  /** The fetched slot is cached and handed out. */
  lemma HandOut(s0: State, s: State, t: Tid, a: Addr) returns (s': State)
    requires InitTo(s0, t, C) && Reachable(s) && t in s.threads && s.threads[t] == WithChain(s0.threads[t], C, [a])
    ensures Reachable(s') && s'.heap == s.heap && s'.classes == s.classes && s'.live == s.live[a := Z]
    ensures s'.threads.Keys == s.threads.Keys && ReadyTwo(s', t)
  {
    LastClass();
    var s1 := Go(s, InsertStep(t));
    assert s1.threads[t].lists[C] == ThreadList([a], 1, 2) && Ready(s1, t);
    s' := Go(s1, PopStep(t, Z));
  }

  /** A new thread starts up and takes a slot of the last class, from the span that comes first. */
  lemma TakeOne(s: State, t: Tid) returns (s1: State, g: State, d: Ptr, s': State)
    requires Reachable(s) && t !in s.threads && C < |s.classes|
    ensures Inv(s1) && KeepsLast(s, s1) && Limited(s1.heap)
    ensures CentralReady(s1, C) && GetSpanCentral(s1, C) == (g, d) && d in g.heap.spans && g.heap.spans[d].objs != []
    ensures Reachable(s') && s'.heap == Tweak(g.heap, d, Shrunk(g.heap.spans[d], 1))
    ensures C < |g.classes| && s'.classes == Shrink(g, C, d, 1).classes
    ensures s'.live == s.live[g.heap.spans[d].objs[0] := Z] && s'.threads.Keys == s.threads.Keys + {t} && ReadyTwo(s', t)
  {
    s1 := Begin(s, t);
    ReachableOk(s1);
    var s2;
    g, d, s2 := FetchOne(s1, t);
    s' := HandOut(s1, s2, t, g.heap.spans[d].objs[0]);
  }

  // ----- taking all of a span -----------------------------------------------

  /** All of a span's slots but those on its list are live. */
  ghost predicate RestLive(s: State, d: Ptr)
    requires Central(s.heap, d)
  {
    forall a :: a in SlotsOf(s.heap.spans[d]) && a !in s.heap.spans[d].objs ==> a in s.live && s.live[a] == Z
  }

  predicate ThreadsBelow(s: State, n: nat) {
    forall t :: t in s.threads ==> t < n
  }

  /** The span `d` of the last class, with `k` slots lent and none returned yet. */
  ghost predicate Lends(s: State, d: Ptr, k: nat) {
    && Central(s.heap, d) && s.heap.spans[d].objsSize == Z && RestLive(s, d)
    && s.heap.spans[d].refcount == k && s.heap.spans[d].objLen == 16 && |s.heap.spans[d].objs| + k == 16
  }

  predicate Lists(s: State, cl: ClassRings) {
    C < |s.classes| && s.classes[C] == cl
  }

  /** A span cut for the last class. */
  lemma CarvedFull(sp: Span)
    requires Clean(sp) && sp.pageSize == BATCH
    ensures var cut := Carved(sp, Z);
      && cut.objsSize == Z && cut.refcount == 0 && cut.objLen == 16 && cut.loc == CentralList
      && |SlotsOf(cut)| == 16 && |cut.objs| == 16 && forall a :: a in SlotsOf(cut) ==> a in cut.objs
  {
    CarveCount(sp.start, SpanEnd(sp), Z);
  }

  /** With no span listed, a new one is cut and listed alone. */
  lemma NewSpan(s: State, g: State, d: Ptr)
    requires CentralReady(s, C) && s.classes[C].list == [] && GetSpanCentral(s, C) == (g, d) && SplitFits(s.heap, BATCH)
    ensures d in g.heap.spans && exists sp :: Clean(sp) && sp.pageSize == BATCH && g.heap.spans[d] == Carved(sp, Z)
    ensures g.classes == s.classes[C := s.classes[C].(list := [d])] && g.live == s.live
  {
    var h, x := FetchSpanOk(s.heap, BATCH);
    LastClass();
    assert g == AddBatch(s, h, x, C);
    assert g.heap.spans[d] == Carved(h.spans[x], Z);
    assert [d] + s.classes[C].list == [d];
  }

  lemma OthersThere(s: State, g: State, d: Ptr)
    requires Inv(s) && CentralReady(s, C) && s.classes[C].list == [] && GetSpanCentral(s, C) == (g, d) && SplitFits(s.heap, BATCH)
    ensures forall x :: Central(s.heap, x) ==> x in g.heap.spans && g.heap.spans[x] == s.heap.spans[x] && x != d
  {
    var h, x := FetchSpanOk(s.heap, BATCH);
    FetchCarries(s, h, x);
    LastClass();
    assert g == AddBatch(s, h, x, C);
    assert !Central(h, x);
  }

  /** One slot of a full span is lent. */
  lemma LendFirst(g: State, d: Ptr, s': State, sp: Span)
    requires d in g.heap.spans && Clean(sp) && sp.pageSize == BATCH && g.heap.spans[d] == Carved(sp, Z) && g.heap.spans[d].objs != []
    requires s'.heap == Tweak(g.heap, d, Shrunk(g.heap.spans[d], 1)) && s'.live == g.live[g.heap.spans[d].objs[0] := Z]
    ensures Lends(s', d, 1) && s'.heap.spans[d].loc == CentralList
  {
    CarvedFull(sp);
    var cut := g.heap.spans[d];
    forall a | a in SlotsOf(s'.heap.spans[d]) && a !in s'.heap.spans[d].objs
      ensures a == cut.objs[0]
    {
      assert a in SlotsOf(cut) && a in cut.objs && a !in cut.objs[1..];
    }
  }

  lemma LentFromNew(s: State, g: State, d: Ptr, s': State, idle: seq<Ptr>)
    requires d in g.heap.spans && exists sp :: Clean(sp) && sp.pageSize == BATCH && g.heap.spans[d] == Carved(sp, Z)
    requires g.heap.spans[d].objs != [] && Lists(s, ClassRings([], idle, {})) && g.classes == s.classes[C := s.classes[C].(list := [d])]
    requires s'.heap == Tweak(g.heap, d, Shrunk(g.heap.spans[d], 1)) && s'.live == g.live[g.heap.spans[d].objs[0] := Z]
    requires s'.classes == Shrink(g, C, d, 1).classes
    ensures Lends(s', d, 1) && Lists(s', ClassRings([d], idle, {}))
  {
    var sp :| Clean(sp) && sp.pageSize == BATCH && g.heap.spans[d] == Carved(sp, Z);
    CarvedFull(sp);
    LendFirst(g, d, s', sp);
  }

  /** Starting a new span: it is carved, listed alone, and one slot is out. */
  lemma TakeFromNew(s: State, t: Tid, idle: seq<Ptr>) returns (s': State, d: Ptr, a: Addr)
    requires Reachable(s) && t !in s.threads && Lists(s, ClassRings([], idle, {}))
    ensures Reachable(s') && Lends(s', d, 1) && Lists(s', ClassRings([d], idle, {}))
    ensures s'.threads.Keys == s.threads.Keys + {t} && ReadyTwo(s', t)
    ensures forall x :: OfLast(s, x) ==> x in s'.heap.spans && s'.heap.spans[x] == s.heap.spans[x] && x != d
    ensures s'.live == s.live[a := Z]
  {
    var s1, g;
    s1, g, d, s' := TakeOne(s, t);
    LimitedFits(s1.heap, BATCH);
    NewSpan(s1, g, d);
    OthersThere(s1, g, d);
    a := g.heap.spans[d].objs[0];
    LentFromNew(s1, g, d, s', idle);
    LastThere(s, s1, g, d, s');
  }

  lemma LastThere(s: State, s1: State, g: State, d: Ptr, s': State)
    requires KeepsLast(s, s1) && d in g.heap.spans && g.heap.spans[d].objs != []
    requires forall x :: Central(s1.heap, x) ==> x in g.heap.spans && g.heap.spans[x] == s1.heap.spans[x] && x != d
    requires s'.heap == Tweak(g.heap, d, Shrunk(g.heap.spans[d], 1))
    ensures forall x :: OfLast(s, x) ==> x in s'.heap.spans && s'.heap.spans[x] == s.heap.spans[x] && x != d
  {
    forall x | OfLast(s, x)
      ensures x in s'.heap.spans && s'.heap.spans[x] == s.heap.spans[x] && x != d
    {
      assert Central(s1.heap, x);
    }
  }

  /** One more slot of a span that has some. */
  lemma LendNext(g: State, d: Ptr, k: nat, s': State)
    requires Lends(g, d, k) && g.heap.spans[d].objs != []
    requires s'.heap == Tweak(g.heap, d, Shrunk(g.heap.spans[d], 1)) && s'.live == g.live[g.heap.spans[d].objs[0] := Z]
    ensures Lends(s', d, k + 1) && (k == 15 ==> s'.heap.spans[d].loc == CentralIdle)
  {
    var sp := g.heap.spans[d];
    forall a | a in SlotsOf(s'.heap.spans[d]) && a !in s'.heap.spans[d].objs
      ensures a == sp.objs[0] || a in g.live
    {
      assert a in SlotsOf(sp) && (a in sp.objs ==> a == sp.objs[0]);
    }
  }

  /** Another thread takes a slot of the only span listed; the last one makes it idle. */
  lemma TakeFromListed(s: State, t: Tid, d: Ptr, k: nat) returns (s': State)
    requires Reachable(s) && t !in s.threads && Lists(s, ClassRings([d], [], {})) && Lends(s, d, k) && k < 16
    ensures Reachable(s') && Lends(s', d, k + 1) && s'.threads.Keys == s.threads.Keys + {t}
    ensures Lists(s', if k == 15 then ClassRings([], [d], {}) else ClassRings([d], [], {}))
    ensures k == 15 ==> s'.heap.spans[d].loc == CentralIdle
  {
    var s1, g, x;
    s1, g, x, s' := TakeOne(s, t);
    assert OfLast(s, d) && Lends(s1, d, k);
    assert FirstWithSlots(s1.heap.spans, [d]) == 0;
    assert g == s1 && x == d;
    LendNext(g, d, k, s');
    assert Without([d], d) == [] && [d] + [] == [d];
  }

  /** Threads take slots until all 16 are out. */
  lemma {:induction false} TakeAll(s: State, d: Ptr, k: nat) returns (s': State)
    requires Reachable(s) && ThreadsBelow(s, k) && Lists(s, ClassRings([d], [], {})) && Lends(s, d, k) && k < 16
    ensures Reachable(s') && ThreadsBelow(s', 16) && Lists(s', ClassRings([], [d], {})) && Lends(s', d, 16)
    ensures s'.heap.spans[d].loc == CentralIdle
    decreases 16 - k
  {
    s' := TakeFromListed(s, k, d, k);
    if k < 15 {
      s' := TakeAll(s', d, k + 1);
    }
  }

  // ----- setting up ---------------------------------------------------------

  /** tc_central_init for the classes below the last. */
  lemma {:induction false} CarveBelow(s: State, c: nat) returns (s': State)
    requires Reachable(s) && s.threads == map[] && c <= C && C < |s.classes|
    ensures Reachable(s') && s'.threads == map[] && KeepsLast(s, s')
    decreases C - c
  {
    s' := s;
    if c < C {
      var g, d := BatchKeepsLast(s, c);
      var s1 := Go(s, CarveAhead(c));
      s' := CarveBelow(s1, c + 1);
      KeepsLastTrans(s, s1, s');
    }
  }

  /** The span cut for the last class, with all its slots. */
  lemma NewLends(g: State, d: Ptr)
    requires d in g.heap.spans && exists sp :: Clean(sp) && sp.pageSize == BATCH && g.heap.spans[d] == Carved(sp, Z)
    ensures Lends(g, d, 0)
  {
    var sp :| Clean(sp) && sp.pageSize == BATCH && g.heap.spans[d] == Carved(sp, Z);
    CarvedFull(sp);
  }

  /** The state after tc_central_init. */
  lemma CentralSet(base: nat) returns (s: State, d: Ptr)
    requires base % 4096 == 0
    ensures Reachable(s) && s.threads == map[] && s.live == map[] && Lists(s, ClassRings([d], [], {})) && Lends(s, d, 0)
  {
    InitReachable(base);
    var s1 := CarveBelow(Init(base), 0);
    ReachableOk(s1);
    ClassesReady(s1, C);
    LimitedFits(s1.heap, BATCH);
    var s2 := Go(s1, CarveAhead(C));
    d := GetSpanCentral(s1, C).1;
    NewSpan(s1, s2, d);
    NewLends(s2, d);
    var h, x := FetchSpanOk(s1.heap, BATCH);
    s := s2;
  }

  /** One span with all slots out and idle, another listed, and a thread with nothing cached. */
  lemma TwoSpans(base: nat) returns (s: State, d: Ptr, e: Ptr)
    requires base % 4096 == 0
    ensures Reachable(s) && Lists(s, ClassRings([e], [d], {})) && d != e && ReadyTwo(s, 16)
    ensures Lends(s, d, 16) && s.heap.spans[d].loc == CentralIdle && Lends(s, e, 1)
  {
    s, d := CentralSet(base);
    s := TakeAll(s, d, 0);
    var before, a := s, 0;
    s, e, a := TakeFromNew(s, 16, [d]);
    assert OfLast(before, d) && s.heap.spans[d] == before.heap.spans[d];
  }

  // ----- giving slots back, three at a time ---------------------------------

  lemma FreesLast(s: State, a: Addr)
    requires Inv(s) && a in s.live && s.live[a] == Z
    ensures FreesSmall(s.heap, a) && FreedClass(s.heap, a) == C
  {
    LiveSmall(s, a);
    LastClass();
  }

  /** A slot is cached while the list is shorter than the limit. */
  lemma FreeCached(s: State, u: Tid, l: seq<Addr>, a: Addr) returns (s': State)
    requires Reachable(s) && Ready(s, u) && s.threads[u].lists[C] == ThreadList(l, |l|, 2) && |l| < 2
    requires a in s.live && s.live[a] == Z
    ensures Reachable(s') && Ready(s', u) && s'.threads[u].lists[C] == ThreadList([a] + l, |l| + 1, 2)
    ensures s'.heap == s.heap && s'.classes == s.classes && s'.live == s.live - {a}
  {
    ReachableOk(s);
    FreesLast(s, a);
    s' := Go(s, FreeStep(u, a));
  }

  /** With two cached the third sets all on their way. */
  lemma FreeFull(s: State, u: Tid, l: seq<Addr>, a: Addr) returns (s': State)
    requires Reachable(s) && Ready(s, u) && s.threads[u].lists[C] == ThreadList(l, 2, 2)
    requires a in s.live && s.live[a] == Z
    ensures Reachable(s') && u in s'.threads && s'.threads[u].moving == Flushing(C, [a] + l)
    ensures ReadyTwo(Settled(s', u), u)
    ensures s'.heap == s.heap && s'.classes == s.classes && s'.live == s.live - {a}
  {
    ReachableOk(s);
    FreesLast(s, a);
    s' := Go(s, FreeStep(u, a));
  }

  /** `s` with nothing on its way for `u`. */
  function Settled(s: State, u: Tid): State
    requires u in s.threads
  {
    SetThread(s, u, s.threads[u].(moving := Nothing))
  }

  /** The three slots `x` are freed one after the other. */
  lemma FreeThree(s: State, u: Tid, x: seq<Addr>) returns (s': State)
    requires Reachable(s) && ReadyTwo(s, u) && |x| == 3 && NoDup(x)
    requires forall i :: 0 <= i < 3 ==> x[i] in s.live && s.live[x[i]] == Z
    ensures Reachable(s') && s'.heap == s.heap && s'.classes == s.classes
    ensures u in s'.threads && s'.threads[u].moving == Flushing(C, [x[2], x[1], x[0]]) && ReadyTwo(Settled(s', u), u)
    ensures s'.live == s.live - {x[0]} - {x[1]} - {x[2]}
  {
    var s1 := FreeCached(s, u, [], x[0]);
    assert [x[0]] + [] == [x[0]];
    var s2 := FreeCached(s1, u, [x[0]], x[1]);
    assert [x[1]] + [x[0]] == [x[1], x[0]];
    s' := FreeFull(s2, u, [x[1], x[0]], x[2]);
    assert [x[2]] + [x[1], x[0]] == [x[2], x[1], x[0]];
  }

  /** `sp` with the slots of a chain back. */
  function GrownAll(sp: Span, chain: seq<Addr>): Span
    decreases |chain|
  {
    if chain == [] then sp else GrownAll(Grown(sp, chain[0]), chain[1..])
  }

  lemma {:induction false} GrownAllCounts(sp: Span, chain: seq<Addr>)
    requires |chain| <= sp.refcount
    ensures var g := GrownAll(sp, chain);
      && g.refcount == sp.refcount - |chain| && g.objLen == sp.objLen + |chain| && g.loc == sp.loc
      && SameShape(sp, g)
    decreases |chain|
  {
    if chain != [] {
      GrownAllCounts(Grown(sp, chain[0]), chain[1..]);
    }
  }

  /** Slots of one span, as the page map has it. */
  predicate AllIn(h: Heap, d: Ptr, x: seq<Addr>) {
    d in h.spans && forall a :: a in x ==> Mapped(h, a) && SpanAt(h, a) == d
  }

  /** `s` after the return loop over a chain of slots of `d`. */
  function LoopOver(s: State, u: Tid, d: Ptr, chain: seq<Addr>): State
    requires u in s.threads && d in s.heap.spans
  {
    SetThread(s, u, s.threads[u].(moving := Flushing(C, []))).(heap := Tweak(s.heap, d, GrownAll(s.heap.spans[d], chain)))
  }

  /** One pass of the loop for a slot of `d`. */
  lemma OnePass(s: State, u: Tid, d: Ptr, chain: seq<Addr>)
    requires u in s.threads && s.threads[u].moving == Flushing(C, chain) && chain != [] && AllIn(s.heap, d, chain)
    ensures Flushable(s, u) && SpanAt(s.heap, chain[0]) == d && u in ReturnOne(s, u).threads
    ensures ReturnOne(s, u).threads[u].moving == Flushing(C, chain[1..]) && AllIn(ReturnOne(s, u).heap, d, chain[1..])
    ensures LoopOver(ReturnOne(s, u), u, d, chain[1..]) == LoopOver(s, u, d, chain)
  {
    assert chain[0] in chain;
    var s1 := ReturnOne(s, u);
    assert s1.heap == Tweak(s.heap, d, Grown(s.heap.spans[d], chain[0]));
    forall a | a in chain[1..]
      ensures Mapped(s1.heap, a) && SpanAt(s1.heap, a) == d
    {
      assert a in chain && Mapped(s.heap, a);
    }
    var sp := GrownAll(s1.heap.spans[d], chain[1..]);
    assert s1.heap.spans[d := sp] == s.heap.spans[d := sp];
  }

  /** The return loop over slots of one span. */
  lemma {:induction false} ReturnIn(s: State, u: Tid, d: Ptr, chain: seq<Addr>)
    requires u in s.threads && s.threads[u].moving == Flushing(C, chain) && AllIn(s.heap, d, chain)
    ensures Flushes(s, u) && Returned(s, u) == LoopOver(s, u, d, chain)
    decreases |chain|
  {
    if chain == [] {
      assert s.threads[u := s.threads[u].(moving := Flushing(C, []))] == s.threads;
      assert s.heap.spans[d := s.heap.spans[d]] == s.heap.spans;
    } else {
      OnePass(s, u, d, chain);
      ReturnIn(ReturnOne(s, u), u, d, chain[1..]);
    }
  }

  /** Slots go back to the idle-marked span `d`, which is refiled and keeps its mark. */
  lemma FlushIn(s: State, u: Tid, d: Ptr, chain: seq<Addr>) returns (s': State)
    requires Reachable(s) && u in s.threads && s.threads[u].moving == Flushing(C, chain) && chain != [] && AllIn(s.heap, d, chain)
    requires s.heap.spans[d].loc == CentralIdle && |chain| < s.heap.spans[d].refcount <= s.heap.spans[d].objLen
    requires C < |s.classes|
    ensures Reachable(s') && s'.heap == Tweak(s.heap, d, GrownAll(s.heap.spans[d], chain)) && s'.live == s.live
    ensures s'.classes == s.classes[C := Refile(s.classes[C], d)]
    ensures s'.threads == Settled(s, u).threads
  {
    ReachableOk(s);
    FlushValue(s, u, d, chain);
    s' := Go(s, FlushStep(u));
    DoneOver(s, u, d, chain);
  }

  /** The state the flush ends in, up to the thread's own bookkeeping. */
  function FlushedInto(s: State, u: Tid, d: Ptr, chain: seq<Addr>): State
    requires u in s.threads && d in s.heap.spans && C < |s.classes|
  {
    LoopOver(s, u, d, chain).(classes := s.classes[C := Refile(s.classes[C], d)])
  }

  lemma FlushValue(s: State, u: Tid, d: Ptr, chain: seq<Addr>)
    requires Inv(s) && u in s.threads && s.threads[u].moving == Flushing(C, chain) && chain != [] && AllIn(s.heap, d, chain)
    requires s.heap.spans[d].loc == CentralIdle && |chain| < s.heap.spans[d].refcount <= s.heap.spans[d].objLen
    requires C < |s.classes|
    ensures Flush(s, u) == Done(FlushedInto(s, u, d, chain), u)
  {
    ReturnIn(s, u, d, chain);
    ReturnedAll(s, u);
    GrownAllCounts(s.heap.spans[d], chain);
    assert Last(chain) in chain;
    SettleIdle(LoopOver(s, u, d, chain), d);
  }

  lemma DoneOver(s: State, u: Tid, d: Ptr, chain: seq<Addr>)
    requires u in s.threads && d in s.heap.spans && C < |s.classes|
    ensures var r := Done(FlushedInto(s, u, d, chain), u);
      && r.threads == Settled(s, u).threads && r.live == s.live && r.classes == s.classes[C := Refile(s.classes[C], d)]
      && r.heap == Tweak(s.heap, d, GrownAll(s.heap.spans[d], chain))
  {
  }

  /** A span that says it is idle, and has some slots out but not all counted, is refiled. */
  lemma SettleIdle(s: State, d: Ptr)
    requires |s.heap.rings| == 256 && C < |s.classes| && d in s.heap.spans
    requires s.heap.spans[d].loc == CentralIdle && 0 < s.heap.spans[d].refcount < s.heap.spans[d].objLen
    ensures Settle(s, C, d) == s.(classes := s.classes[C := Refile(s.classes[C], d)])
  {
  }

  /** Three live slots of `d`. */
  ghost predicate LiveSlots(s: State, d: Ptr, x: seq<Addr>) {
    && Central(s.heap, d)
    && forall a :: a in x ==> a in s.live && s.live[a] == Z && a in SlotsOf(s.heap.spans[d])
  }

  /** Three live slots of `d` are given back by the thread `u`. */
  lemma GiveBack(s: State, u: Tid, d: Ptr, x: seq<Addr>) returns (s': State)
    requires Reachable(s) && ReadyTwo(s, u) && |x| == 3 && NoDup(x) && LiveSlots(s, d, x) && C < |s.classes|
    requires s.heap.spans[d].loc == CentralIdle && 4 <= s.heap.spans[d].refcount <= s.heap.spans[d].objLen
    ensures Reachable(s') && ReadyTwo(s', u) && s'.live == s.live - {x[0]} - {x[1]} - {x[2]}
    ensures s'.heap == Tweak(s.heap, d, GrownAll(s.heap.spans[d], [x[2], x[1], x[0]])) && s'.classes == s.classes[C := Refile(s.classes[C], d)]
  {
    InSpan(s, d, x);
    var s1 := FreeThree(s, u, x);
    s' := FlushIn(s1, u, d, [x[2], x[1], x[0]]);
  }

  lemma InSpan(s: State, d: Ptr, x: seq<Addr>)
    requires Reachable(s) && LiveSlots(s, d, x)
    ensures AllIn(s.heap, d, x)
  {
    ReachableOk(s);
    assert SpanOk(s.heap, d);
    forall a | a in x
      ensures Mapped(s.heap, a) && SpanAt(s.heap, a) == d
    {
      SlotMapped(s.heap, d, a);
    }
  }

  lemma SixSlots(s: State, d: Ptr) returns (x: seq<Addr>, y: seq<Addr>)
    requires Reachable(s) && Lends(s, d, 16)
    ensures |x| == |y| == 3 && NoDup(x) && NoDup(y) && LiveSlots(s, d, x) && LiveSlots(s, d, y)
    ensures forall a :: a in x ==> a !in y
  {
    ReachableOk(s);
    assert SpanOk(s.heap, d);
    var slots := SlotsOf(s.heap.spans[d]);
    CarveSpaced(s.heap.spans[d].start, SpanEnd(s.heap.spans[d]), Z);
    x, y := slots[..3], slots[3..6];
  }

  lemma GiveTwice(s: State, u: Tid, d: Ptr, e: Ptr, x: seq<Addr>, y: seq<Addr>) returns (s': State)
    requires Reachable(s) && ReadyTwo(s, u) && Lists(s, ClassRings([e], [d], {})) && d != e && Central(s.heap, d)
    requires s.heap.spans[d].loc == CentralIdle && 7 <= s.heap.spans[d].refcount <= s.heap.spans[d].objLen
    requires |x| == |y| == 3 && NoDup(x) && NoDup(y) && LiveSlots(s, d, x) && LiveSlots(s, d, y) && forall a :: a in x ==> a !in y
    ensures Reachable(s') && Lists(s', ClassRings([d], [], {e}))
    ensures forall z :: z in s.heap.spans && z != d ==> z in s'.heap.spans && s'.heap.spans[z] == s.heap.spans[z]
  {
    var s1 := GiveBack(s, u, d, x);
    GrownAllCounts(s.heap.spans[d], [x[2], x[1], x[0]]);
    assert s1.classes[C] == ClassRings([d] + [e], [], {});
    assert x[0] in x && x[1] in x && x[2] in x && LiveSlots(s1, d, y);
    s' := GiveBack(s1, u, d, y);
    assert [e] == ([d] + [e])[1..];
    assert {} + ToSet([e]) == {e};
  }

  /** There is a run of the program, with its set-up and that of every thread, after which a span
      with free slots is on neither list of its class, so that no fetch finds it. */
  lemma SpanIsLost(base: nat) returns (s: State, e: Ptr)
    requires base % 4096 == 0
    ensures Reachable(s) && C < |s.classes| && e in s.classes[C].lost && e !in s.classes[C].list && e !in s.classes[C].idle
    ensures Central(s.heap, e) && GetIndex(s.heap.spans[e].objsSize) == C && s.heap.spans[e].objs != []
  {
    LastClass();
    var d;
    s, d, e := TwoSpans(base);
    var x, y := SixSlots(s, d);
    s := GiveTwice(s, 16, d, e, x, y);
  }
}