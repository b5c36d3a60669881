/** The central cache's lists over whole runs: exactly when a flush takes spans off both lists of a
    class, and exactly when it leaves every span with a free slot where a fetch can find it. */
module AllocatorLists {
  import opened Sequences
  import opened SizeClasses
  import opened PageHeap
  import opened Allocator
  import opened AllocatorRuns

  // ----- what refiling loses ------------------------------------------------

  /** Refiling drops spans from both lists exactly when the span refiled is not on the idle list
      but already first of several on the other. */
  lemma RefileLoses(h: Heap, cl: ClassRings, c: nat, d: Ptr)
    requires ClassOk(h, cl, c) && InClass(cl, d)
    ensures Refile(cl, d).lost <= cl.lost <==> !HeadOfMany(cl, d)
    ensures HeadOfMany(cl, d) ==> exists x :: x in Refile(cl, d).lost && x !in cl.lost && x != d
  {
    if HeadOfMany(cl, d) {
      assert cl.list[1] in cl.list[1..];
      assert cl.list[1] in Refile(cl, d).lost && cl.list[1] !in cl.lost;
    }
  }

  predicate HeadOfMany(cl: ClassRings, d: Ptr) {
    d !in cl.idle && |cl.list| > 1 && cl.list[0] == d
  }

  /** After the loop: spans are lost exactly if the last span still says it is idle, has a free slot
      by its counters, and heads a list of several; even if it is released right then. */
  lemma SettleLoses(s: State, c: nat, d: Ptr)
    requires Inv(s) && c < CLASSES && Central(s.heap, d) && GetIndex(s.heap.spans[d].objsSize) == c
    ensures var sp := s.heap.spans[d];
      Settle(s, c, d).classes[c].lost <= s.classes[c].lost <==>
        !(sp.loc == CentralIdle && sp.refcount != sp.objLen && HeadOfMany(s.classes[c], d))
  {
    assert ClassOk(s.heap, s.classes[c], c);
    RefileLoses(s.heap, s.classes[c], c, d);
  }

  lemma {:induction false} FreeStaysFree(s: State, t: Tid, d: Ptr, a: Addr)
    requires Flushes(s, t) && At(s, a, Free(d))
    ensures At(Returned(s, t), a, Free(d))
    decreases |s.threads[t].moving.chain|
  {
    if s.threads[t].moving.chain != [] {
      FlushesOn(s, t);
      FreeStaysFree(ReturnOne(s, t), t, d, a);
    }
  }

  /** Every slot a flush returns is on its span's list after the loop. */
  lemma {:induction false} ReturnedHome(s: State, t: Tid, a: Addr)
    requires Flushes(s, t) && a in s.threads[t].moving.chain
    ensures Mapped(s.heap, a) && At(Returned(s, t), a, Free(SpanAt(s.heap, a)))
    decreases |s.threads[t].moving.chain|
  {
    FlushesOn(s, t);
    if a == s.threads[t].moving.chain[0] {
      FreeStaysFree(ReturnOne(s, t), t, SpanAt(s.heap, a), a);
    } else {
      ReturnedHome(ReturnOne(s, t), t, a);
    }
  }

  /** The loop changes neither the lists nor where a span says it is. */
  lemma {:induction false} ReturnedFiling(s: State, t: Tid)
    requires Flushes(s, t)
    ensures Returned(s, t).classes == s.classes
    ensures forall d :: d in s.heap.spans ==> d in Returned(s, t).heap.spans && Returned(s, t).heap.spans[d].loc == s.heap.spans[d].loc
    decreases |s.threads[t].moving.chain|
  {
    if s.threads[t].moving.chain != [] {
      FlushesOn(s, t);
      ReturnedFiling(ReturnOne(s, t), t);
    }
  }

  /** A span with a free slot has counters that differ. */
  lemma CountersDiffer(s: State, d: Ptr, a: Addr)
    requires Inv(s) && Central(s.heap, d) && At(s, a, Free(d))
    ensures s.heap.spans[d].refcount != s.heap.spans[d].objLen
  {
    assert SpanOk(s.heap, d);
  }

  /** The state in which the loop ends, at the span `d`. */
  lemma LoopEnds(s: State, t: Tid) returns (r: State, c: nat, d: Ptr)
    requires Inv(s) && Enabled(s, FlushStep(t))
    ensures r == ReturnAll(s, t) && Inv(r) && c == s.threads[t].moving.class_ < CLASSES && r.classes == s.classes && t in r.threads
    ensures Mapped(s.heap, Last(s.threads[t].moving.chain)) && d == SpanAt(s.heap, Last(s.threads[t].moving.chain))
    ensures Central(r.heap, d) && GetIndex(r.heap.spans[d].objsSize) == c
    ensures d in s.heap.spans && r.heap.spans[d].loc == s.heap.spans[d].loc && r.heap.spans[d].refcount != r.heap.spans[d].objLen
  {
    var a := Last(s.threads[t].moving.chain);
    LastSpan(s, t);
    ReturnedAll(s, t);
    ReturnedFiling(s, t);
    ReturnedHome(s, t, a);
    r, c, d := ReturnAll(s, t), s.threads[t].moving.class_, SpanAt(s.heap, a);
    CountersDiffer(r, d, a);
  }

  /** In every run a flush takes spans of its class off both lists exactly if the span of the last
      slot returned still says it is idle and is the first of several on the list. */
  lemma FlushLoses(s: State, t: Tid)
    requires Reachable(s) && Enabled(s, FlushStep(t))
    ensures Inv(s) && Mapped(s.heap, Last(s.threads[t].moving.chain)) && s.threads[t].moving.class_ < CLASSES
    ensures var c := s.threads[t].moving.class_; var d := SpanAt(s.heap, Last(s.threads[t].moving.chain));
      && d in s.heap.spans && |Apply(s, FlushStep(t)).classes| == CLASSES
      && (Apply(s, FlushStep(t)).classes[c].lost <= s.classes[c].lost <==>
            !(s.heap.spans[d].loc == CentralIdle && HeadOfMany(s.classes[c], d)))
  {
    ReachableOk(s);
    var r, c, d := LoopEnds(s, t);
    SettledLoses(r, t, c, d);
  }

  lemma SettledLoses(r: State, t: Tid, c: nat, d: Ptr)
    requires Inv(r) && t in r.threads && c < CLASSES && Central(r.heap, d) && GetIndex(r.heap.spans[d].objsSize) == c
    ensures var s' := Done(Settle(r, c, d), t); var sp := r.heap.spans[d];
      && |s'.classes| == CLASSES
      && (s'.classes[c].lost <= r.classes[c].lost <==>
            !(sp.loc == CentralIdle && sp.refcount != sp.objLen && HeadOfMany(r.classes[c], d)))
  {
    SettleLoses(r, c, d);
  }

  // ----- the order on the list ----------------------------------------------

  /** The list but `d`, as refiling `d` leaves it: in its old order, or cut off. */
  function Behind(cl: ClassRings, d: Ptr): seq<Ptr> {
    if HeadOfMany(cl, d) then [] else Without(cl.list, d)
  }

  lemma RefileOrder(h: Heap, cl: ClassRings, c: nat, d: Ptr)
    requires ClassOk(h, cl, c)
    ensures Refile(cl, d).list == [d] + Behind(cl, d) && Refile(cl, d).idle == Without(cl.idle, d)
    ensures Unfile(Refile(cl, d), d).list == Behind(cl, d)
  {
    var behind := Behind(cl, d);
    assert Refile(cl, d).list == [d] + behind;
    assert ([d] + behind)[1..] == behind && d !in behind;
  }

  lemma SettleOrder(s: State, c: nat, d: Ptr)
    requires Inv(s) && c < CLASSES && OfClass(s.heap, d, c) && s.heap.spans[d].refcount != s.heap.spans[d].objLen
    ensures var sp := s.heap.spans[d]; var cl, cl' := s.classes[c], Settle(s, c, d).classes[c];
      && cl'.list == (if sp.loc != CentralIdle then (if sp.refcount == 0 then Without(cl.list, d) else cl.list)
                      else if sp.refcount == 0 then Behind(cl, d) else [d] + Behind(cl, d))
      && cl'.idle == if sp.loc == CentralIdle then Without(cl.idle, d) else cl.idle
  {
    assert ClassOk(s.heap, s.classes[c], c);
    RefileOrder(s.heap, s.classes[c], c, d);
  }

  /** In every run: a span that says it is idle is the first on its class's list after a flush that
      ends at it, unless that flush brings its last slots home; the others behind it keep their
      order, or are all cut off. Any other flush leaves the list as it is, but for a span released. */
  lemma FlushOrder(s: State, t: Tid)
    requires Reachable(s) && Enabled(s, FlushStep(t))
    ensures Inv(s) && Mapped(s.heap, Last(s.threads[t].moving.chain)) && s.threads[t].moving.class_ < CLASSES
    ensures var m := s.threads[t].moving; var c := m.class_; var d := SpanAt(s.heap, Last(m.chain));
      && d in s.heap.spans && |Apply(s, FlushStep(t)).classes| == CLASSES
      && var sp, cl, cl' := s.heap.spans[d], s.classes[c], Apply(s, FlushStep(t)).classes[c];
         var home := sp.refcount == CountIn(s.heap, m.chain, d);
         && cl'.list == (if sp.loc != CentralIdle then (if home then Without(cl.list, d) else cl.list)
                         else if home then Behind(cl, d) else [d] + Behind(cl, d))
         && cl'.idle == if sp.loc == CentralIdle then Without(cl.idle, d) else cl.idle
  {
    ReachableOk(s);
    var r, c, d := LoopEnds(s, t);
    RefsAfterLoop(s, t, d);
    SettledOrder(r, t, c, d);
  }

  lemma SettledOrder(r: State, t: Tid, c: nat, d: Ptr)
    requires Inv(r) && t in r.threads && c < CLASSES && OfClass(r.heap, d, c) && r.heap.spans[d].refcount != r.heap.spans[d].objLen
    ensures var sp := r.heap.spans[d]; var s' := Done(Settle(r, c, d), t);
      && |r.classes| == |s'.classes| == CLASSES
      && var cl, cl' := r.classes[c], s'.classes[c];
         && cl'.list == (if sp.loc != CentralIdle then (if sp.refcount == 0 then Without(cl.list, d) else cl.list)
                         else if sp.refcount == 0 then Behind(cl, d) else [d] + Behind(cl, d))
         && cl'.idle == if sp.loc == CentralIdle then Without(cl.idle, d) else cl.idle
  {
    SettleOrder(r, c, d);
  }

  // ----- which spans a fetch can find ---------------------------------------

  predicate OfClass(h: Heap, x: Ptr, c: nat) {
    Central(h, x) && GetIndex(h.spans[x].objsSize) == c
  }

  /** Every span of the class with a free slot is on its list, so that a fetch finds it. */
  ghost predicate AllListed(s: State, c: nat)
    requires c < |s.classes|
  {
    forall x :: OfClass(s.heap, x, c) && s.heap.spans[x].objs != [] ==> x in s.classes[c].list
  }

  /** The spans but `d` with a free slot are on the list. */
  ghost predicate OthersListed(s: State, c: nat, d: Ptr)
    requires c < |s.classes|
  {
    forall x :: OfClass(s.heap, x, c) && s.heap.spans[x].objs != [] && x != d ==> x in s.classes[c].list
  }

  /** Another span with a free slot is on the list that `d` heads. */
  ghost predicate FreeBehind(s: State, c: nat, d: Ptr)
    requires c < |s.classes|
  {
    HeadOfMany(s.classes[c], d) && exists x :: x in s.classes[c].list && x != d && x in s.heap.spans && s.heap.spans[x].objs != []
  }

  lemma RefileMembers(cl: ClassRings, d: Ptr, x: Ptr)
    requires NoDup(cl.list) && x != d
    ensures x in Refile(cl, d).list <==> x in cl.list && !HeadOfMany(cl, d)
    ensures d in Refile(cl, d).list
  {
    if d !in cl.idle && cl.list != [] && cl.list[0] == d && x in cl.list {
      assert |cl.list| > 1;
    }
  }

  /** What follows the loop leaves every span with a free slot on the list exactly if the others
      were on it, the last span `d` was on it, or says it is idle and is put there, or goes back to
      the page heap, and putting it there does not cut off another with a free slot. */
  lemma SettleLists(s: State, c: nat, d: Ptr)
    requires Inv(s) && c < CLASSES && OfClass(s.heap, d, c) && s.heap.spans[d].objs != []
    ensures var sp := s.heap.spans[d]; var cl := s.classes[c];
      AllListed(Settle(s, c, d), c) <==>
        && OthersListed(s, c, d)
        && (d in cl.list || sp.loc == CentralIdle || sp.refcount == 0)
        && !(sp.loc == CentralIdle && FreeBehind(s, c, d))
  {
    var cl := s.classes[c];
    var s' := Settle(s, c, d);
    assert ClassOk(s.heap, cl, c);
    CountersDiffer(s, d, s.heap.spans[d].objs[0]);
    SettleOthers(s, c, d);
    forall x | x != d
      ensures x in s'.classes[c].list <==> x in cl.list && !(s.heap.spans[d].loc == CentralIdle && HeadOfMany(cl, d))
    {
      RefileMembers(cl, d, x);
    }
    assert s.heap.spans[d].loc == CentralIdle ==> d in Refile(cl, d).list by {
      RefileMembers(cl, d, d + 1);
    }
  }

  /** Settling changes no other span, and `d` only if it is released. */
  lemma SettleOthers(s: State, c: nat, d: Ptr)
    requires Inv(s) && c < CLASSES && OfClass(s.heap, d, c)
    ensures forall x :: x in s.heap.spans && x != d ==> x in Settle(s, c, d).heap.spans && Settle(s, c, d).heap.spans[x] == s.heap.spans[x]
    ensures forall x :: Central(Settle(s, c, d).heap, x) <==> Central(s.heap, x) && !(x == d && s.heap.spans[d].refcount == 0)
    ensures s.heap.spans[d].refcount != 0 ==> Settle(s, c, d).heap == s.heap
  {
    if s.heap.spans[d].refcount == 0 {
      ReleaseHeap(s, d);
    }
  }

  /** The span `x` has a free slot, or gets one from the chain. */
  predicate FreeThen(h: Heap, chain: seq<Addr>, x: Ptr) {
    x in h.spans && (h.spans[x].objs != [] || exists a :: a in chain && Mapped(h, a) && SpanAt(h, a) == x)
  }

  lemma {:induction false} FreeAfterLoop(s: State, t: Tid, x: Ptr)
    requires Flushes(s, t) && x in s.heap.spans
    ensures x in Returned(s, t).heap.spans
    ensures Returned(s, t).heap.spans[x].objs != [] <==> FreeThen(s.heap, s.threads[t].moving.chain, x)
    decreases |s.threads[t].moving.chain|
  {
    var chain := s.threads[t].moving.chain;
    if chain != [] {
      FlushesOn(s, t);
      FreeAfterLoop(ReturnOne(s, t), t, x);
      FreeThenNext(s, t, x);
    }
  }

  lemma FreeThenNext(s: State, t: Tid, x: Ptr)
    requires Flushes(s, t) && Flushable(s, t) && x in s.heap.spans
    ensures FreeThen(ReturnOne(s, t).heap, s.threads[t].moving.chain[1..], x) <==> FreeThen(s.heap, s.threads[t].moving.chain, x)
  {
    var chain := s.threads[t].moving.chain;
    var h, h1 := s.heap, ReturnOne(s, t).heap;
    assert chain == [chain[0]] + chain[1..];
    assert forall a :: Mapped(h1, a) <==> Mapped(h, a);
    assert forall a :: Mapped(h, a) ==> SpanAt(h1, a) == SpanAt(h, a);
  }

  /** How many slots of the chain are slots of `d`. */
  function CountIn(h: Heap, chain: seq<Addr>, d: Ptr): nat {
    if chain == [] then 0
    else CountIn(h, chain[1..], d) + if Mapped(h, chain[0]) && SpanAt(h, chain[0]) == d then 1 else 0
  }

  lemma {:induction false} CountSame(h: Heap, h': Heap, chain: seq<Addr>, d: Ptr)
    requires h'.pageMap == h.pageMap && h'.base == h.base
    ensures CountIn(h', chain, d) == CountIn(h, chain, d)
  {
    if chain != [] {
      CountSame(h, h', chain[1..], d);
    }
  }

  lemma {:induction false} RefsAfterLoop(s: State, t: Tid, d: Ptr)
    requires Inv(s) && t in s.threads && s.threads[t].moving.Flushing? && d in s.heap.spans
    ensures d in ReturnAll(s, t).heap.spans
    ensures ReturnAll(s, t).heap.spans[d].refcount + CountIn(s.heap, s.threads[t].moving.chain, d) == s.heap.spans[d].refcount
    decreases |s.threads[t].moving.chain|
  {
    var chain := s.threads[t].moving.chain;
    if chain != [] {
      ReturnOneOk(s, t);
      RefsNext(s, t, d);
      RefsAfterLoop(ReturnOne(s, t), t, d);
      CountSame(s.heap, ReturnOne(s, t).heap, chain[1..], d);
    }
  }

  /** One pass takes one off the count of its slot's span alone. */
  lemma RefsNext(s: State, t: Tid, d: Ptr)
    requires Inv(s) && t in s.threads && s.threads[t].moving.Flushing? && s.threads[t].moving.chain != [] && d in s.heap.spans
    ensures Flushable(s, t) && d in ReturnOne(s, t).heap.spans
    ensures var a := s.threads[t].moving.chain[0];
      ReturnOne(s, t).heap.spans[d].refcount + (if SpanAt(s.heap, a) == d then 1 else 0) == s.heap.spans[d].refcount
  {
    FlushableOk(s, t);
    var a := s.threads[t].moving.chain[0];
    var x := SpanAt(s.heap, a);
    assert SpanOk(s.heap, x);
    assert At(s, a, OnTheWay(t)) && !At(s, a, Free(x));
    GrownOk(s.heap.spans[x], a);
  }

  /** What decides, before a flush of thread `t` for class `c` that ends at the span `d`, whether
      afterwards a fetch can find every span with a free slot. */
  ghost predicate ListsStay(s: State, c: nat, d: Ptr, chain: seq<Addr>)
    requires c < |s.classes| && d in s.heap.spans
  {
    var cl, sp := s.classes[c], s.heap.spans[d];
    && (forall x :: OfClass(s.heap, x, c) && FreeThen(s.heap, chain, x) && x != d ==> x in cl.list)
    && (d in cl.list || sp.loc == CentralIdle || sp.refcount == CountIn(s.heap, chain, d))
    && !(sp.loc == CentralIdle && HeadOfMany(cl, d) && exists x :: x in cl.list && x != d && FreeThen(s.heap, chain, x))
  }

  lemma LoopLists(s: State, t: Tid, r: State, c: nat, d: Ptr)
    requires c < |s.classes| && d in s.heap.spans && d in r.heap.spans
    requires Flushes(s, t) && r == Returned(s, t) && r.classes == s.classes && r.heap.spans[d].loc == s.heap.spans[d].loc
    requires forall x :: OfClass(r.heap, x, c) <==> OfClass(s.heap, x, c)
    requires forall x :: x in s.classes[c].list ==> x in s.heap.spans
    requires r.heap.spans[d].refcount + CountIn(s.heap, s.threads[t].moving.chain, d) == s.heap.spans[d].refcount
    ensures ListsStay(s, c, d, s.threads[t].moving.chain) <==>
      && OthersListed(r, c, d)
      && (d in r.classes[c].list || r.heap.spans[d].loc == CentralIdle || r.heap.spans[d].refcount == 0)
      && !(r.heap.spans[d].loc == CentralIdle && FreeBehind(r, c, d))
  {
    forall x | x in s.heap.spans
      ensures x in r.heap.spans && (r.heap.spans[x].objs != [] <==> FreeThen(s.heap, s.threads[t].moving.chain, x))
    {
      FreeAfterLoop(s, t, x);
    }
  }

  /** The loop carves nothing and uncarves nothing. */
  lemma {:induction false} ReturnedSizes(s: State, t: Tid, x: Ptr)
    requires Flushes(s, t)
    ensures x in Returned(s, t).heap.spans <==> x in s.heap.spans
    ensures x in s.heap.spans ==> Returned(s, t).heap.spans[x].objsSize == s.heap.spans[x].objsSize
    decreases |s.threads[t].moving.chain|
  {
    if s.threads[t].moving.chain != [] {
      FlushesOn(s, t);
      ReturnedSizes(ReturnOne(s, t), t, x);
    }
  }

  /** In every run: after a flush every span of its class with a free slot is on the class's list
      exactly if `ListsStay` held before. Only the span of the last slot is looked at, so a span
      that gets slots back while it is on the idle list stays out of reach, and one whose slots are
      then all home is not released. */
  lemma FlushLists(s: State, t: Tid)
    requires Reachable(s) && Enabled(s, FlushStep(t))
    ensures Inv(s) && Mapped(s.heap, Last(s.threads[t].moving.chain)) && s.threads[t].moving.class_ < CLASSES
    ensures var c := s.threads[t].moving.class_; var d := SpanAt(s.heap, Last(s.threads[t].moving.chain));
      && d in s.heap.spans && |Apply(s, FlushStep(t)).classes| == CLASSES
      && (AllListed(Apply(s, FlushStep(t)), c) <==> ListsStay(s, c, d, s.threads[t].moving.chain))
      && (forall x :: Central(s.heap, x) && x != d ==> Central(Apply(s, FlushStep(t)).heap, x))
  {
    ReachableOk(s);
    var r, c, d := LoopEnds(s, t);
    LoopDecides(s, t, r, c, d);
    LoopFree(s, t, d);
    SettledLists(r, t, c, d);
  }

  /** The end of the flush, from the state `r` the loop leaves. */
  lemma SettledLists(r: State, t: Tid, c: nat, d: Ptr)
    requires Inv(r) && t in r.threads && c < CLASSES && OfClass(r.heap, d, c) && r.heap.spans[d].objs != []
    ensures var s' := Done(Settle(r, c, d), t);
      && |s'.classes| == CLASSES
      && (AllListed(s', c) <==>
            && OthersListed(r, c, d)
            && (d in r.classes[c].list || r.heap.spans[d].loc == CentralIdle || r.heap.spans[d].refcount == 0)
            && !(r.heap.spans[d].loc == CentralIdle && FreeBehind(r, c, d)))
      && (forall x :: Central(r.heap, x) && x != d ==> Central(s'.heap, x))
  {
    SettleLists(r, c, d);
    SettleOthers(r, c, d);
    DoneListed(Settle(r, c, d), t, c);
  }

  lemma DoneListed(s: State, t: Tid, c: nat)
    requires t in s.threads && c < |s.classes|
    ensures AllListed(Done(s, t), c) <==> AllListed(s, c)
  {
  }

  /** What `ListsStay` says before the loop, the lists say after it. */
  lemma LoopDecides(s: State, t: Tid, r: State, c: nat, d: Ptr)
    requires Inv(s) && Enabled(s, FlushStep(t)) && r == ReturnAll(s, t) && c < CLASSES && d in s.heap.spans
    requires r.classes == s.classes && d in r.heap.spans && r.heap.spans[d].loc == s.heap.spans[d].loc
    ensures c < |s.classes| && forall x :: Central(r.heap, x) <==> Central(s.heap, x)
    ensures ListsStay(s, c, d, s.threads[t].moving.chain) <==>
      && OthersListed(r, c, d)
      && (d in r.classes[c].list || r.heap.spans[d].loc == CentralIdle || r.heap.spans[d].refcount == 0)
      && !(r.heap.spans[d].loc == CentralIdle && FreeBehind(r, c, d))
  {
    ReturnedAll(s, t);
    forall x
      ensures Central(r.heap, x) <==> Central(s.heap, x)
      ensures OfClass(r.heap, x, c) <==> OfClass(s.heap, x, c)
    {
      ReturnedSizes(s, t, x);
    }
    ClassesReady(s, c);
    RefsAfterLoop(s, t, d);
    LoopLists(s, t, r, c, d);
  }

  lemma LoopFree(s: State, t: Tid, d: Ptr)
    requires Inv(s) && Enabled(s, FlushStep(t)) && Mapped(s.heap, Last(s.threads[t].moving.chain)) && d == SpanAt(s.heap, Last(s.threads[t].moving.chain))
    requires d in ReturnAll(s, t).heap.spans
    ensures ReturnAll(s, t).heap.spans[d].objs != []
  {
    ReturnedAll(s, t);
    ReturnedHome(s, t, Last(s.threads[t].moving.chain));
  }
}
