/** The circular doubly linked lists of spans, at the level of their pointers, and the
    sequences they stand for. */
module SpanRing {

  class Span {
    var next: Span?
    var prev: Span?
  }

  /** A variable that holds the head of a list. */
  class ListHead {
    var head: Span?
  }

  /** What a `span_t *` points at: a head variable, or the `prev` field of a span. */
  datatype Ref = Cell(c: ListHead) | PrevOf(s: Span)

  function Load(r: Ref): Span?
    reads if r.Cell? then {r.c as object} else {r.s as object}
  {
    match r
    case Cell(c) => c.head
    case PrevOf(s) => s.prev
  }

  method Store(r: Ref, x: Span?)
    modifies if r.Cell? then {r.c as object} else {r.s as object}
    ensures r.Cell? ==> r.c.head == x
    ensures r.PrevOf? ==> r.s.prev == x && r.s.next == old(r.s.next)
  {
    match r
    case Cell(c) => c.head := x;
    case PrevOf(s) => s.prev := x;
  }

  /** Neighbouring positions on a ring of `n`. */
  function Up(n: nat, i: nat): nat
    requires i < n
  {
    if i == n - 1 then 0 else i + 1
  }

  function Down(n: nat, i: nat): nat
    requires i < n
  {
    if i == 0 then n - 1 else i - 1
  }

  predicate Distinct(s: seq<Span>) {
    forall i, j :: 0 <= i < j < |s| ==> s[i] != s[j]
  }

  /** `s` is a ring in the order of `next`, each neighbour pointing back. */
  ghost predicate Ring(s: seq<Span>)
    reads s
  {
    && Distinct(s)
    && (forall i {:trigger s[i].next} :: 0 <= i < |s| ==> s[i].next == s[Up(|s|, i)])
    && (forall i {:trigger s[i].prev} :: 0 <= i < |s| ==> s[i].prev == s[Down(|s|, i)])
  }

  function Removed(s: seq<Span>, k: nat): seq<Span>
    requires k < |s|
  {
    s[..k] + s[k + 1..]
  }

  lemma Alone(span: Span)
    requires span.next == span && span.prev == span
    ensures Ring([span])
  {
  }

  /** `span` linked in before the first and after the last of the others. */
  lemma Prepended(span: Span, s: seq<Span>)
    requires Distinct(s) && span !in s && s != [] && span.next == s[0] && span.prev == s[|s| - 1]
    requires forall i {:trigger s[i].next} :: 0 <= i < |s| ==> s[i].next == if i == |s| - 1 then span else s[Up(|s|, i)]
    requires forall i {:trigger s[i].prev} :: 0 <= i < |s| ==> s[i].prev == if i == 0 then span else s[Down(|s|, i)]
    ensures Ring([span] + s)
  {
    var r := [span] + s;
    forall i | 0 <= i < |r|
      ensures r[i].next == r[Up(|r|, i)] && r[i].prev == r[Down(|r|, i)]
    {
      assert i > 0 ==> r[i] == s[i - 1];
    }
  }

  /** Pushing makes the span the first element of the ring `s`; so it does when the span is
      still the list's head, alone on its ring and perhaps with its `prev` cleared. */
  method SpanlistPush(h: ListHead, span: Span, ghost s: seq<Span>)
    requires Ring(s) && span !in s
    requires h.head == (if s == [] then null else s[0])
             || (s == [] && h.head == span && span.next == span && (span.prev == span || span.prev == null))
    modifies h, span, s
    ensures Ring([span] + s) && h.head == span
  {
    var ptr := h.head;
    if ptr == null {
      h.head := span;
      span.next := span;
      span.prev := span;
      return;
    }
    var prev := ptr.prev;
    if prev == null {
      ptr.prev := ptr;
      ptr.next := ptr;
      prev := ptr;
    }
    span.next := ptr;
    span.prev := prev;
    ptr.prev := span;
    prev.next := span;
    h.head := span;
    if s == [] {
      Alone(span);
      assert [span] + s == [span];
    } else {
      Prepended(span, s);
    }
  }

  lemma RemovedAt(s: seq<Span>, k: nat, i: nat)
    requires k < |s| && i < |s| - 1
    ensures Removed(s, k)[i] == s[if i < k then i else i + 1]
  {
  }

  /** Neighbours on the ring without its `k`th element. */
  lemma RemovedUp(s: seq<Span>, k: nat, i: nat)
    requires |s| > 1 && k < |s| && i < |s| - 1
    ensures var j := if i < k then i else i + 1;
      Removed(s, k)[Up(|s| - 1, i)] == if j == Down(|s|, k) then s[Up(|s|, k)] else s[Up(|s|, j)]
  {
    RemovedAt(s, k, Up(|s| - 1, i));
  }

  lemma RemovedDown(s: seq<Span>, k: nat, i: nat)
    requires |s| > 1 && k < |s| && i < |s| - 1
    ensures var j := if i < k then i else i + 1;
      Removed(s, k)[Down(|s| - 1, i)] == if j == Up(|s|, k) then s[Down(|s|, k)] else s[Down(|s|, j)]
  {
    RemovedAt(s, k, Down(|s| - 1, i));
  }

  /** Pointing past the `k`th element on both sides leaves a ring of the others. */
  lemma Bypassed(s: seq<Span>, k: nat)
    requires |s| > 1 && k < |s| && Distinct(s)
    requires forall i {:trigger s[i].next} :: 0 <= i < |s| && i != k ==> s[i].next == if i == Down(|s|, k) then s[Up(|s|, k)] else s[Up(|s|, i)]
    requires forall i {:trigger s[i].prev} :: 0 <= i < |s| && i != k ==> s[i].prev == if i == Up(|s|, k) then s[Down(|s|, k)] else s[Down(|s|, i)]
    ensures Ring(Removed(s, k))
  {
    var r := Removed(s, k);
    forall i | 0 <= i < |r|
      ensures r[i].next == r[Up(|r|, i)] && r[i].prev == r[Down(|r|, i)]
    {
      RemovedAt(s, k, i);
      RemovedUp(s, k, i);
      RemovedDown(s, k, i);
    }
  }

  /** Unlinks the `k`th element of a ring of at least two; of a sole element only what `head`
      points at is cleared. */
  method SpanlistPop(head: Ref, span: Span, ghost s: seq<Span>, ghost k: nat)
    requires Ring(s) && k < |s| && s[k] == span
    requires head == PrevOf(span) || (head.Cell? && head.c.head == span)
    modifies s, if head.Cell? then {head.c as object} else {}
    ensures |s| == 1 ==> span.next == span && (if head.Cell? then head.c.head == null && span.prev == span else span.prev == null)
    ensures |s| > 1 ==> Ring(Removed(s, k)) && Ring([span])
    ensures |s| > 1 && head.Cell? ==> head.c.head == s[Up(|s|, k)]
  {
    if span == span.next {
      Store(head, null);
      return;
    }
    var p := span.prev;
    var n := span.next;
    ghost var u, d := Up(|s|, k), Down(|s|, k);
    assert |s| > 1 && p == s[d] && n == s[u] && d != k && u != k;
    if p == null {
      p := span;
    }
    if n == null {
      n := span;
    }
    p.next := n;
    n.prev := p;
    if Load(head) == span {
      // the test for a sole element, made again here, cannot succeed
      assert span.next != span;
      Store(head, n);
    } else {
      var q := Load(head);
      q.next := n;
    }
    span.next := span;
    span.prev := span;
    forall i | 0 <= i < |s| && i != k
      ensures s[i].next == (if i == d then s[u] else s[Up(|s|, i)]) && s[i].prev == (if i == u then s[d] else s[Down(|s|, i)])
    {
      assert i != d ==> s[i] != s[d];
      assert i != u ==> s[i] != s[u];
      assert s[i] != s[k];
    }
    Bypassed(s, k);
    Alone(span);
  }

  /** Takes the `k`th element off a ring. Called with the head of its own list this is removal:
      the ring is the same without it, and the head is right again. Called with another head it
      unlinks the element all the same, but its list's head is not looked at, and of a sole
      element the `prev` link is cleared. */
  method RemoveSpan(h: ListHead, span: Span, ghost s: seq<Span>, ghost k: nat)
    requires Ring(s) && k < |s| && s[k] == span
    modifies h, s
    ensures |s| > 1 ==> Ring(Removed(s, k)) && Ring([span])
    ensures |s| == 1 ==> span.next == span && span.prev == (if old(h.head) == span then span else null)
    ensures h.head == if old(h.head) != span then old(h.head) else if |s| == 1 then null else s[Up(|s|, k)]
  {
    if h.head == span {
      SpanlistPop(Cell(h), span, s, k);
    } else {
      SpanlistPop(PrevOf(span), span, s, k);
    }
  }

  ghost predicate Heads(h: ListHead, s: seq<Span>)
    reads h, s
  {
    Ring(s) && h.head == if s == [] then null else s[0]
  }

  /** Removal from a list by its own head: the sequence without that element. */
  method RemoveFromList(h: ListHead, span: Span, ghost s: seq<Span>, ghost k: nat)
    requires Heads(h, s) && k < |s| && s[k] == span
    modifies h, s
    ensures Heads(h, Removed(s, k))
  {
    RemoveSpan(h, span, s, k);
    RemovedHead(s, k);
  }

  lemma RemovedHead(s: seq<Span>, k: nat)
    requires k < |s|
    ensures |Removed(s, k)| == |s| - 1
    ensures |s| > 1 ==> Removed(s, k)[0] == if k == 0 then s[Up(|s|, 0)] else s[0]
  {
  }

  // ----- refiling a span after slots came back ------------------------------

  /** A ring none of whose spans was written to is still a ring. */
  twostate lemma RingUntouched(s: seq<Span>)
    requires old(Ring(s))
    requires forall x :: x in s ==> x.next == old(x.next) && x.prev == old(x.prev)
    ensures Ring(s)
  {
    forall i | 0 <= i < |s|
      ensures s[i].next == s[Up(|s|, i)] && s[i].prev == s[Down(|s|, i)]
    {
      assert s[i] in s;
      assert old(s[i].next) == s[Up(|s|, i)] && old(s[i].prev) == s[Down(|s|, i)];
    }
  }

  lemma RemovedMembers(s: seq<Span>, k: nat)
    requires Distinct(s) && k < |s|
    ensures forall x :: x in Removed(s, k) ==> x in s && x != s[k]
  {
    forall x | x in Removed(s, k)
      ensures x in s && x != s[k]
    {
      var i :| 0 <= i < |s| - 1 && Removed(s, k)[i] == x;
      RemovedAt(s, k, i);
    }
  }

  /** The span is on the idle list: it is moved to the front of the other. */
  method RefileIdle(idle: ListHead, list: ListHead, span: Span, ghost r: seq<Span>, ghost l: seq<Span>, ghost k: nat)
    requires idle != list && Heads(idle, r) && Heads(list, l) && k < |r| && r[k] == span
    requires forall x :: x in r ==> x !in l
    modifies idle, list, r, l
    ensures Heads(idle, Removed(r, k)) && Heads(list, [span] + l)
  {
    RemovedMembers(r, k);
    RemoveFromList(idle, span, r, k);
    RingUntouched(l);
    label Unlinked:
    SpanlistPush(list, span, l);
    RingUntouched@Unlinked(Removed(r, k));
  }

  /** The span is on the list already, because its location was not reset when it was refiled
      before. As the head of several it stays head, alone, and the others form a ring that no
      head points at. */
  method RefileListed(idle: ListHead, list: ListHead, span: Span, ghost l: seq<Span>, ghost k: nat)
    requires idle != list && Heads(list, l) && k < |l| && l[k] == span && idle.head != span
    modifies idle, list, l
    ensures idle.head == old(idle.head)
    ensures k == 0 ==> Heads(list, [span]) && Ring(Removed(l, 0))
    ensures k > 0 ==> Heads(list, [span] + Removed(l, k))
  {
    RemovedMembers(l, k);
    RemovedHead(l, k);
    RemoveSpan(idle, span, l, k);
    assert |l| > 1 ==> [span][0].next == span && [span][0].prev == span;
    label Unlinked:
    SpanlistPush(list, span, if k == 0 then [] else Removed(l, k));
    if k == 0 {
      RingUntouched@Unlinked(Removed(l, 0));
      assert [span] + [] == [span];
    }
  }

  /** The span is on a ring no head points at: it is moved to the front of the list. */
  method RefileLost(idle: ListHead, list: ListHead, span: Span, ghost lost: seq<Span>, ghost l: seq<Span>, ghost k: nat)
    requires idle != list && Heads(list, l) && Ring(lost) && k < |lost| && lost[k] == span && idle.head != span
    requires forall x :: x in lost ==> x !in l
    modifies idle, list, lost, l
    ensures idle.head == old(idle.head) && Ring(Removed(lost, k)) && Heads(list, [span] + l)
  {
    RemovedMembers(lost, k);
    RemoveSpan(idle, span, lost, k);
    RingUntouched(l);
    label Unlinked:
    SpanlistPush(list, span, l);
    RingUntouched@Unlinked(Removed(lost, k));
  }
}
