/** The growing array behind both the word table and the list of file names: insertion probes
    forward from a given slot for an empty one, with no wraparound. */
module DynTable {
  import opened Options

  /** Array and last_index of a list; the array's length is phys_len. */
  datatype List<T> = List(slots: seq<Option<T>>, lastIndex: nat)

  function Fresh<T>(size: nat): List<T> {
    List(seq(size, _ => None), 0)
  }

  /** First empty slot at or after `i`, or the length. */
  function Probe<T>(slots: seq<Option<T>>, i: nat): (j: nat)
    requires i <= |slots|
    ensures i <= j <= |slots|
    ensures j < |slots| ==> slots[j].None?
    ensures forall k :: i <= k < j ==> slots[k].Some?
    decreases |slots| - i
  {
    if i == |slots| || slots[i].None? then i else Probe(slots, i + 1)
  }

  /** The old array followed by as many empty slots. */
  function Doubled<T>(slots: seq<Option<T>>): (r: seq<Option<T>>)
    ensures |r| == 2 * |slots|
    ensures forall k :: 0 <= k < |slots| ==> r[k] == slots[k]
    ensures forall k :: |slots| <= k < |r| ==> r[k].None?
  {
    slots + seq(|slots|, _ => None)
  }

  function Roomy<T>(l: List<T>): List<T> {
    if l.lastIndex >= |l.slots| then l.(slots := Doubled(l.slots)) else l
  }

  /** insert into a DYNLIST: grows the array first if last_index has reached its end; drops the
      item if no slot from `i` on is empty, and counts it all the same. */
  function Inserted<T>(l: List<T>, item: T, i: nat): List<T> {
    var r := Roomy(l);
    if i >= |r.slots| then r
    else
      var j := Probe(r.slots, i);
      List(if j < |r.slots| then r.slots[j := Some(item)] else r.slots,
           if j > r.lastIndex then j + 1 else r.lastIndex)
  }

  class DynList<T(0)> {
    var lastIndex: nat
    var slots: array<Option<T>>

    ghost function Model(): List<T>
      reads this, slots
    {
      List(slots[..], lastIndex)
    }

    constructor (size: nat)
      ensures Model() == Fresh(size) && fresh(slots)
    {
      lastIndex := 0;
      slots := new Option<T>[size](_ => None);
    }

    /** The doubling half of resize, over a realloc that keeps the old words and zeroes the rest. */
    method Resize()
      modifies this
      ensures lastIndex == old(lastIndex) && slots[..] == Doubled(old(slots[..])) && fresh(slots)
    {
      var n := slots.Length;
      var wider := new Option<T>[2 * n](_ => None);
      var i := 0;
      while i < n
        invariant 0 <= i <= n && wider.Length == 2 * n && fresh(wider) && n == slots.Length && slots == old(slots)
        invariant wider[..i] == slots[..i] && slots[..] == old(slots[..]) && lastIndex == old(lastIndex)
        invariant forall k :: i <= k < 2 * n ==> wider[k].None?
      {
        wider[i] := slots[i];
        i := i + 1;
      }
      assert wider[..] == Doubled(slots[..]);
      slots := wider;
    }

    /** Returns 2 if the array was doubled, -1 if the index is out of bounds, 1 otherwise. */
    method Insert(item: T, index: nat) returns (ret: int)
      modifies this, slots
      ensures Model() == Inserted(old(Model()), item, index)
      ensures slots == old(slots) || fresh(slots)
      ensures ret == if index >= |Roomy(old(Model())).slots| then -1 else if old(lastIndex >= slots.Length) then 2 else 1
    {
      ret := 1;
      if lastIndex >= slots.Length {
        Resize();
        ret := 2;
      }
      ghost var r := Model();
      assert r == Roomy(old(Model()));
      if index >= slots.Length {
        return -1;
      }
      var i := index;
      while i < slots.Length && slots[i].Some?
        invariant index <= i <= slots.Length && Model() == r
        invariant Probe(r.slots, index) == Probe(r.slots, i)
        decreases slots.Length - i
      {
        i := i + 1;
      }
      if i < slots.Length {
        slots[i] := Some(item);
      }
      if i > lastIndex {
        lastIndex := i + 1;
      }
      assert slots[..] == if i < |r.slots| then r.slots[i := Some(item)] else r.slots;
    }
  }

  // ----- inserting at last_index --------------------------------------------

  /** The list after the names are inserted one by one, each at last_index. */
  function Appended<T>(l: List<T>, names: seq<T>): List<T>
    decreases |names|
  {
    if names == [] then l
    else
      var before := Appended(l, names[..|names| - 1]);
      Inserted(before, names[|names| - 1], before.lastIndex)
  }

  /** Slots in use are the first `n`, and the index lags behind by one at odd counts. */
  ghost predicate Packed<T>(l: List<T>, names: seq<T>) {
    && |names| <= |l.slots|
    && (forall k :: 0 <= k < |names| ==> l.slots[k] == Some(names[k]))
    && (forall k :: |names| <= k < |l.slots| ==> l.slots[k].None?)
    && l.lastIndex == 2 * (|names| / 2)
  }

  lemma PackedInsert<T>(l: List<T>, names: seq<T>, x: T)
    requires Packed(l, names) && |names| < |Roomy(l).slots|
    ensures Packed(Inserted(l, x, l.lastIndex), names + [x])
    ensures |Inserted(l, x, l.lastIndex).slots| == |Roomy(l).slots|
  {
    assert Probe(Roomy(l).slots, l.lastIndex) == |names|;
  }

  lemma AppendedSnoc<T>(l: List<T>, names: seq<T>, x: T)
    ensures Appended(l, names + [x]) == Inserted(Appended(l, names), x, Appended(l, names).lastIndex)
  {
    assert (names + [x])[..|names|] == names;
  }

  /** An even, positive number of slots, the first ones in use. */
  ghost predicate EvenPacked<T>(l: List<T>, names: seq<T>) {
    Packed(l, names) && |l.slots| % 2 == 0 && |l.slots| > 0
  }

  lemma EvenInsert<T>(l: List<T>, names: seq<T>, x: T)
    requires EvenPacked(l, names)
    ensures EvenPacked(Inserted(l, x, l.lastIndex), names + [x])
  {
    PackedInsert(l, names, x);
  }

  /** From any even capacity the k-th name inserted lands in slot k, across doublings too. */
  lemma {:induction false} NamesInOrder<T>(size: nat, names: seq<T>)
    requires size % 2 == 0 && size > 0
    ensures EvenPacked(Appended(Fresh(size), names), names)
    decreases |names|
  {
    if names != [] {
      var init := names[..|names| - 1];
      NamesInOrder(size, init);
      assert names == init + [names[|names| - 1]];
      AppendedSnoc(Fresh(size), init, names[|names| - 1]);
      EvenInsert(Appended(Fresh(size), init), init, names[|names| - 1]);
    }
  }

  lemma {:induction false} OddFills<T>(size: nat, names: seq<T>)
    requires (size % 2 == 1 || size == 0) && |names| <= size
    ensures Packed(Appended(Fresh(size), names), names) && |Appended(Fresh(size), names).slots| == size
    decreases |names|
  {
    if names != [] {
      var init := names[..|names| - 1];
      OddFills(size, init);
      assert names == init + [names[|names| - 1]];
      AppendedSnoc(Fresh(size), init, names[|names| - 1]);
      PackedInsert(Appended(Fresh(size), init), init, names[|names| - 1]);
    }
  }

  /** From an odd capacity the first name past it is dropped. */
  lemma OddDrops<T>(size: nat, names: seq<T>)
    requires size % 2 == 1 && |names| == size + 1
    ensures var l := Appended(Fresh(size), names);
            |l.slots| == size && l.lastIndex == size + 1 && forall k :: 0 <= k < size ==> l.slots[k] == Some(names[k])
  {
    var init := names[..size];
    OddFills(size, init);
    assert names == init + [names[size]];
    AppendedSnoc(Fresh(size), init, names[size]);
    var l := Appended(Fresh(size), init);
    assert Probe(l.slots, l.lastIndex) == size;
  }

  /** Slot `n` is empty, or not there, and no insertion will start as low as that any more. */
  ghost predicate Gap<T>(l: List<T>, n: nat) {
    l.lastIndex > n && (n < |l.slots| ==> l.slots[n].None?)
  }

  lemma GapStays<T>(l: List<T>, n: nat, x: T)
    requires Gap(l, n)
    ensures Gap(Inserted(l, x, l.lastIndex), n)
  {
  }

  /** And no later name is put where it should have been. */
  lemma {:induction false} OddGap<T>(size: nat, names: seq<T>)
    requires size % 2 == 1 && |names| > size
    ensures Gap(Appended(Fresh(size), names), size)
    decreases |names|
  {
    if |names| == size + 1 {
      OddDrops(size, names);
    } else {
      var init := names[..|names| - 1];
      OddGap(size, init);
      assert names == init + [names[|names| - 1]];
      AppendedSnoc(Fresh(size), init, names[|names| - 1]);
      GapStays(Appended(Fresh(size), init), size, names[|names| - 1]);
    }
  }

  lemma {:induction false} ZeroStays<T>(names: seq<T>)
    ensures Appended(Fresh(0), names).slots == []
    decreases |names|
  {
    if names != [] {
      ZeroStays(names[..|names| - 1]);
    }
  }

  /** Each name is in the slot of its number. */
  ghost predicate AllFound<T>(l: List<T>, names: seq<T>) {
    |names| <= |l.slots| && forall k :: 0 <= k < |names| ==> l.slots[k] == Some(names[k])
  }

  /** For every list of names: each can be found at its own number if and only if they all fit the
      first capacity, or that is even and not 0. */
  lemma NamesFound<T>(size: nat, names: seq<T>)
    ensures AllFound(Appended(Fresh(size), names), names) <==> |names| <= size || (size % 2 == 0 && size > 0)
  {
    if size % 2 == 0 && size > 0 {
      NamesInOrder(size, names);
    } else if |names| <= size {
      OddFills(size, names);
    } else if size % 2 == 1 {
      OddGap(size, names);
    } else {
      ZeroStays(names);
    }
  }
}
