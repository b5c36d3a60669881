/** Free lists threaded through the free slots themselves: the first word of a slot holds the
    address of the next one, 0 at the end. */
module FreeChain {
  import opened Sequences

  type Words = map<nat, nat>

  function HeadOf(s: seq<nat>): nat {
    if s == [] then 0 else s[0]
  }

  /** Following the links from `head` visits exactly `s`. */
  ghost predicate Chain(w: Words, head: nat, s: seq<nat>)
    decreases |s|
  {
    if s == [] then head == 0
    else head == s[0] && head != 0 && head in w && Chain(w, w[head], s[1..])
  }

  /** Only the links of its members matter to a chain. */
  lemma {:induction false} ChainFrame(w: Words, w': Words, head: nat, s: seq<nat>)
    requires Chain(w, head, s)
    requires forall a :: a in s && a in w ==> a in w' && w'[a] == w[a]
    ensures Chain(w', head, s)
    decreases |s|
  {
    if s != [] {
      ChainFrame(w, w', w[head], s[1..]);
    }
  }

  lemma {:induction false} ChainDrop(w: Words, head: nat, s: seq<nat>, n: nat)
    requires Chain(w, head, s) && n <= |s|
    ensures Chain(w, HeadOf(s[n..]), s[n..])
    decreases n
  {
    if n == 0 {
      assert s[0..] == s;
    } else {
      ChainDrop(w, w[head], s[1..], n - 1);
      assert s[1..][n - 1..] == s[n..];
    }
  }

  /** Ending a chain at its `n`th member cuts it there. */
  lemma {:induction false} ChainCut(w: Words, head: nat, s: seq<nat>, n: nat)
    requires Chain(w, head, s) && NoDup(s) && 1 <= n <= |s|
    ensures Chain(w[s[n - 1] := 0], head, s[..n])
    decreases n
  {
    var w' := w[s[n - 1] := 0];
    if n == 1 {
      assert s[..1] == [s[0]];
      assert Chain(w', 0, []);
      assert Chain(w', w'[head], [head][1..]);
    } else {
      assert s[1..][n - 2] == s[n - 1];
      ChainCut(w, w[head], s[1..], n - 1);
      assert s[..n][1..] == s[1..][..n - 1];
    }
  }

  class Memory {
    var words: Words

    /** freelist_push: the slot becomes the head; no other word changes. */
    method FreelistPush(head: nat, ptr: nat, ghost s: seq<nat>) returns (newHead: nat)
      requires Chain(words, head, s) && ptr != 0 && ptr !in s
      modifies this
      ensures newHead == ptr && Chain(words, newHead, [ptr] + s)
      ensures words == old(words)[ptr := head]
    {
      words := words[ptr := head];
      ChainFrame(old(words), words, head, s);
      assert ([ptr] + s)[1..] == s;
      newHead := ptr;
    }

    /** freelist_pop: the head is handed out, nothing is written. */
    method FreelistPop(head: nat, ghost s: seq<nat>) returns (popped: nat, rest: nat)
      requires Chain(words, head, s) && s != []
      ensures popped == s[0] && Chain(words, rest, s[1..])
    {
      popped := head;
      rest := words[head];
    }

    /** The loop of fetch_objs and the cut after it: the first members come off as a chain of
        their own, ended by 0, and only its last link is written. */
    method Detach(objs: nat, maxIter: nat, ghost s: seq<nat>) returns (start: nat, rest: nat, n: nat)
      requires Chain(words, objs, s) && NoDup(s) && s != [] && maxIter >= 1
      modifies this
      ensures n == (if maxIter < |s| then maxIter else |s|)
      ensures start == s[0] && Chain(words, start, s[..n]) && Chain(words, rest, s[n..])
      ensures words == old(words)[s[n - 1] := 0]
    {
      n := 0;
      var ptr, prev := objs, 0;
      while ptr != 0 && n < maxIter
        invariant 0 <= n <= |s| && n <= maxIter
        invariant ptr == HeadOf(s[n..]) && Chain(words, ptr, s[n..])
        invariant n > 0 ==> prev == s[n - 1]
        decreases |s| - n
      {
        assert s[n..] != [] && s[n..][1..] == s[n + 1..];
        prev := ptr;
        n := n + 1;
        ptr := words[ptr];
      }
      assert s[n..] != [] ==> Chain(words, ptr, s[n..]) && ptr != 0;
      start, rest := objs, ptr;
      ChainCut(words, objs, s, n);
      words := words[prev := 0];
      forall a | a in s[n..]
        ensures a != prev
      {
      }
      ChainFrame(old(words), words, rest, s[n..]);
    }

    /** The loop of insert_to_threadcache: the chain is pushed member by member, and so ends up
        reversed in front of the list. */
    method Prepend(objs: nat, head: nat, ghost s: seq<nat>, ghost l: seq<nat>) returns (newHead: nat, count: nat)
      requires Chain(words, objs, s) && Chain(words, head, l) && NoDup(s) && forall a :: a in s ==> a !in l
      modifies this
      ensures Chain(words, newHead, Reversed(s) + l) && count == |s| && words == Pushes(old(words), head, s)
      ensures forall a :: a !in s ==> (a in words <==> a in old(words)) && (a in words ==> words[a] == old(words)[a])
    {
      var p := objs;
      newHead, count := head, 0;
      assert s[..0] == [] && s[0..] == s && Reversed(s[..0]) + l == l;
      while p != 0
        invariant 0 <= count <= |s| && p == HeadOf(s[count..]) && Chain(words, p, s[count..])
        invariant Chain(words, newHead, Reversed(s[..count]) + l) && Pushes(words, newHead, s[count..]) == Pushes(old(words), head, s)
        invariant forall a :: a !in s ==> (a in words <==> a in old(words)) && (a in words ==> words[a] == old(words)[a])
        decreases |s| - count
      {
        ghost var w := words;
        assert s[count..] != [] && s[count..][1..] == s[count + 1..];
        var next := words[p];
        words := words[p := newHead];
        PrependStep(w, p, newHead, s, l, count);
        newHead := p;
        p := next;
        count := count + 1;
      }
      assert s[..count] == s;
    }
  }

  lemma PrependStep(w: Words, p: nat, head: nat, s: seq<nat>, l: seq<nat>, i: nat)
    requires NoDup(s) && i < |s| && p == s[i] && p != 0 && forall a :: a in s ==> a !in l
    requires Chain(w, head, Reversed(s[..i]) + l) && p in w && Chain(w, w[p], s[i + 1..])
    ensures Chain(w[p := head], p, Reversed(s[..i + 1]) + l)
    ensures Chain(w[p := head], w[p], s[i + 1..])
  {
    var before := Reversed(s[..i]) + l;
    assert p !in s[..i] && p !in s[i + 1..];
    ChainFrame(w, w[p := head], head, before);
    ChainFrame(w, w[p := head], w[p], s[i + 1..]);
    assert s[..i + 1] == s[..i] + [p];
    ReversedSnoc(s[..i], p);
    assert Reversed(s[..i + 1]) + l == [p] + before;
    assert ([p] + before)[1..] == before;
  }

  lemma {:induction false} ReversedSnoc(s: seq<nat>, x: nat)
    ensures Reversed(s + [x]) == [x] + Reversed(s)
  {
  }

  // ----- lists --------------------------------------------------------------

  ghost predicate Linked(w: Words, s: seq<nat>) {
    Chain(w, HeadOf(s), s)
  }

  /** `w'` is `w` but for the words at `places`. */
  ghost predicate Differs(w: Words, w': Words, places: seq<nat>) {
    forall a :: a in w && a !in places ==> a in w' && w'[a] == w[a]
  }

  lemma LinkedFrame(w: Words, w': Words, places: seq<nat>, l: seq<nat>)
    requires Linked(w, l) && Differs(w, w', places) && forall a :: a in l ==> a !in places
    ensures Linked(w', l)
  {
    ChainFrame(w, w', HeadOf(l), l);
  }

  lemma LinkedPush(w: Words, a: nat, l: seq<nat>)
    requires Linked(w, l) && a != 0 && a !in l
    ensures Linked(w[a := HeadOf(l)], [a] + l)
  {
    ChainFrame(w, w[a := HeadOf(l)], HeadOf(l), l);
    assert ([a] + l)[1..] == l;
  }

  lemma LinkedRest(w: Words, l: seq<nat>, n: nat)
    requires Linked(w, l) && n <= |l|
    ensures Linked(w, l[n..])
  {
    ChainDrop(w, HeadOf(l), l, n);
  }

  /** Pushing slots one after the other, each in front of the last. */
  function Pushes(w: Words, head: nat, slots: seq<nat>): Words
    decreases |slots|
  {
    if slots == [] then w else Pushes(w[slots[0] := head], slots[0], slots[1..])
  }

  lemma {:induction false} LinkedPushes(w: Words, l: seq<nat>, slots: seq<nat>)
    requires Linked(w, l) && NoDup(slots) && forall a :: a in slots ==> a != 0 && a !in l
    ensures Linked(Pushes(w, HeadOf(l), slots), Reversed(slots) + l) && Differs(w, Pushes(w, HeadOf(l), slots), slots)
    decreases |slots|
  {
    if slots == [] {
      assert Reversed(slots) + l == l;
    } else {
      var a, rest := slots[0], slots[1..];
      HeadApart(slots);
      LinkedPush(w, a, l);
      LinkedPushes(w[a := HeadOf(l)], [a] + l, rest);
      ReversedOnto(a, rest, l);
    }
  }

  lemma HeadApart(slots: seq<nat>)
    requires slots != [] && NoDup(slots)
    ensures slots == [slots[0]] + slots[1..] && slots[0] in slots && NoDup(slots[1..])
    ensures forall b :: b in slots[1..] ==> b in slots && b != slots[0]
  {
  }
}
