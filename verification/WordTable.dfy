/** The word table: open addressing by hash, forward probing, and the entries it finds. */
module WordTable {
  import opened Tokenizer
  import opened Options
  import opened DynTable

  /** One document of a word: a grown array of line numbers, used up to last_index. */
  datatype Doc = Doc(docId: nat, list: seq<nat>, lastIndex: nat)

  datatype Word = Word(hash: nat, str: Text, docs: seq<Doc>)

  type Table = seq<Option<Word>>

  const LIST_SIZE := 10

  // ----- hashing and comparing ----------------------------------------------

  /** A `char` as an unsigned int: sign-extended from 8 bits. */
  function Widen(b: Byte): nat {
    if b < 128 then b else 0x1_0000_0000 - 256 + b
  }

  /** Hash of the first `n` bytes, modulo 2 to the 32. */
  function Hash(key: Text, n: nat): (h: nat)
    requires n <= |key|
    ensures h < 0x1_0000_0000
  {
    if n == 0 then 0 else (Hash(key, n - 1) * 65599 + Widen(key[n - 1])) % 0x1_0000_0000
  }

  function Power(b: nat, n: nat): nat {
    if n == 0 then 1 else b * Power(b, n - 1)
  }

  lemma {:induction false} SamePrefix(s: Text, t: Text, n: nat)
    requires n <= |s| && n <= |t| && forall i :: 0 <= i < n ==> s[i] == t[i]
    ensures Hash(s, n) == Hash(t, n)
  {
    if n > 0 {
      SamePrefix(s, t, n - 1);
    }
  }

  lemma HashNext(s: Text, b: Byte)
    ensures Hash(s + [b], |s| + 1) == (Hash(s, |s|) * 65599 + Widen(b)) % 0x1_0000_0000
  {
    SamePrefix(s + [b], s, |s|);
  }

  lemma ModTimes(x: int, k: int, y: int)
    ensures (x % 0x1_0000_0000 * k + y) % 0x1_0000_0000 == (x * k + y) % 0x1_0000_0000
  {
    var q := x / 0x1_0000_0000;
    assert x * k + y == 0x1_0000_0000 * (q * k) + (x % 0x1_0000_0000 * k + y) by {
      assert x == 0x1_0000_0000 * q + x % 0x1_0000_0000;
      assert x * k == 0x1_0000_0000 * (q * k) + x % 0x1_0000_0000 * k;
    }
    ModMultiple(q * k, x % 0x1_0000_0000 * k + y);
  }

  lemma ModMultiple(m: int, y: int)
    ensures (0x1_0000_0000 * m + y) % 0x1_0000_0000 == y % 0x1_0000_0000
  {
  }

  /** The hash is the polynomial in 65599 whose coefficients are the bytes, each as a signed char:
      one byte is its own hash, and of two strings the first is shifted by the length of the second. */
  lemma HashByte(b: Byte)
    ensures Hash([b], 1) == (if b < 128 then b else b - 256) % 0x1_0000_0000
  {
  }

  lemma {:induction false} HashConcat(s: Text, t: Text)
    ensures Hash(s + t, |s| + |t|) == Joined(Hash(s, |s|), Power(65599, |t|), Hash(t, |t|))
    decreases |t|
  {
    if t == [] {
      ConcatNone(s, t);
    } else {
      var u, b := t[..|t| - 1], t[|t| - 1];
      assert t == u + [b] && s + t == (s + u) + [b];
      HashConcat(s, u);
      HashNext(u, b);
      HashNext(s + u, b);
      var hs, p, hu := Hash(s, |s|), Power(65599, |u|), Hash(u, |u|);
      HashShift(hs, p, hu, Widen(b));
      PowerNext(|u|);
    }
  }

  lemma PowerNext(n: nat)
    ensures Power(65599, n + 1) == 65599 * Power(65599, n)
  {
  }

  lemma ConcatNone(s: Text, t: Text)
    requires t == []
    ensures Hash(s + t, |s| + |t|) == Joined(Hash(s, |s|), Power(65599, |t|), Hash(t, |t|))
  {
    assert s + t == s;
    assert Power(65599, |t|) == 1 && Hash(t, |t|) == 0;
  }

  function Joined(hs: nat, p: nat, ht: nat): nat {
    (hs * p + ht) % 0x1_0000_0000
  }

  lemma HashShift(hs: nat, p: nat, hu: nat, b: nat)
    ensures (Joined(hs, p, hu) * 65599 + b) % 0x1_0000_0000 == Joined(hs, 65599 * p, (hu * 65599 + b) % 0x1_0000_0000)
  {
    var x := hs * p;
    ModTimes(x + hu, 65599, b);
    Shifted(hs, p);
    ModPlus(65599 * x, hu * 65599 + b);
  }

  lemma Shifted(hs: nat, p: nat)
    ensures hs * (65599 * p) == 65599 * (hs * p)
  {
  }

  lemma ModPlus(x: int, y: int)
    ensures (x + y % 0x1_0000_0000) % 0x1_0000_0000 == (x + y) % 0x1_0000_0000
  {
  }

  /** A NUL-terminated string stands at `start` in the buffer. */
  ghost predicate StringAt(buf: array<Byte>, start: nat, text: Text)
    reads buf
  {
    && IsLine(text) && start + |text| < buf.Length && buf[start + |text|] == 0
    && forall j :: 0 <= j < |text| ==> buf[start + j] == text[j]
  }

  /** hash_function, over a NUL-terminated string. */
  method HashFunction(key: array<Byte>, start: nat, ghost text: Text) returns (h: nat)
    requires StringAt(key, start, text)
    ensures h == Hash(text, |text|)
  {
    h := 0;
    var i := 0;
    while key[start + i] != 0
      invariant 0 <= i <= |text| && h == Hash(text, i)
      invariant i < |text| ==> key[start + i] == text[i] && text[i] in text
      decreases |text| - i
    {
      h := (h * 65599 + Widen(key[start + i])) % 0x1_0000_0000;
      i := i + 1;
    }
  }

  /** StrGetLength: 0 for a string of `maxLen` bytes or more. */
  method StrGetLength(buf: array<Byte>, start: nat, maxLen: nat, ghost text: Text) returns (n: nat)
    requires StringAt(buf, start, text)
    ensures n == if |text| >= maxLen then 0 else |text|
  {
    n := 0;
    while n < maxLen && buf[start + n] != 0
      invariant 0 <= n <= |text| && n <= maxLen
      invariant n < |text| ==> buf[start + n] == text[n] && text[n] in text
      decreases |text| - n
    {
      n := n + 1;
    }
    if n >= maxLen {
      n := 0;
    }
  }

  /** Slot a key is looked for first. */
  function Home(key: Text, n: nat): (h: nat)
    requires n > 0
    ensures h < n
  {
    Hash(key, |key|) % n
  }

  /** StrCompare gives 0 for equal strings, and for strings that agree on the first 10,240 bytes. */
  predicate Same(a: Text, b: Text) {
    a == b || (|a| >= 10240 && |b| >= 10240 && a[..10240] == b[..10240])
  }

  lemma PrefixAgrees(s: Text, t: Text, i: nat)
    requires |s| >= 10240 && |t| >= 10240 && s[..10240] == t[..10240] && i < 10240
    ensures s[i] == t[i]
  {
    assert s[i] == s[..10240][i];
  }

  /** Byte `i` of a NUL-terminated string. */
  function ByteAt(s: Text, i: nat): Byte
    requires i <= |s|
  {
    if i < |s| then s[i] else 0
  }

  lemma CompareEnds(s: Text, t: Text, i: nat)
    requires IsLine(s) && IsLine(t) && i < 10240 && i <= |s| && i <= |t| && s[..i] == t[..i]
    requires ByteAt(s, i) == 0 || ByteAt(s, i) != ByteAt(t, i)
    ensures ByteAt(s, i) == ByteAt(t, i) <==> Same(s, t)
  {
    if ByteAt(s, i) == ByteAt(t, i) {
      assert s == s[..i] && t == t[..i];
    } else if s != t && Same(s, t) {
      PrefixAgrees(s, t, i);
    }
  }

  method StrCompare(a: array<Byte>, b: array<Byte>, ghost s: Text, ghost t: Text) returns (c: int)
    requires StringAt(a, 0, s) && StringAt(b, 0, t)
    ensures c == 0 <==> Same(s, t)
  {
    var i := 0;
    while i < 10240 && a[i] != 0 && a[i] == b[i]
      invariant 0 <= i <= 10240 && i <= |s| && i <= |t| && s[..i] == t[..i]
      decreases 10240 - i
    {
      assert s[..i + 1] == s[..i] + [s[i]] && t[..i + 1] == t[..i] + [t[i]];
      i := i + 1;
    }
    if i >= 10240 {
      return 0;
    }
    CompareEnds(s, t, i);
    var x: int := a[i];
    var y: int := b[i];
    c := x - y;
  }

  // ----- looking a word up --------------------------------------------------

  datatype Found = At(slot: nat) | Missing | PastEnd

  /** lookup from slot `i`: the probe goes on to the first empty slot, and off the end of the
      array when there is none. */
  function Lookup(tab: Table, key: Text, i: nat): Found
    requires i <= |tab|
    decreases |tab| - i
  {
    if i == |tab| then PastEnd
    else match tab[i]
      case None => Missing
      case Some(w) => if Same(w.str, key) then At(i) else Lookup(tab, key, i + 1)
  }

  /** Reading past the array happens exactly when every slot from `i` on holds another word. */
  lemma {:induction false} ReadsPastEnd(tab: Table, key: Text, i: nat)
    requires i <= |tab|
    ensures Lookup(tab, key, i).PastEnd? <==> forall j :: i <= j < |tab| ==> tab[j].Some? && !Same(tab[j].value.str, key)
    decreases |tab| - i
  {
    if i < |tab| {
      ReadsPastEnd(tab, key, i + 1);
    }
  }

  // ----- what a table of inserted words looks like --------------------------

  /** Every entry sits at or after its home, all slots between filled; no word twice. */
  ghost predicate Clustered(tab: Table) {
    && (forall j :: 0 <= j < |tab| && tab[j].Some? ==> Reachable(tab, j))
    && (forall i, j :: 0 <= i < j < |tab| && tab[i].Some? && tab[j].Some? ==> tab[i].value.str != tab[j].value.str)
  }

  ghost predicate Reachable(tab: Table, j: nat)
    requires j < |tab| && tab[j].Some?
  {
    var w := tab[j].value;
    && w.hash == Hash(w.str, |w.str|)
    && Home(w.str, |tab|) <= j
    && (forall i :: Home(w.str, |tab|) <= i < j ==> tab[i].Some?)
  }

  /** All words are shorter than what StrCompare looks at. */
  predicate ShortWords(tab: Table) {
    forall j :: 0 <= j < |tab| && tab[j].Some? ==> |tab[j].value.str| < 2048
  }

  lemma {:induction false} LookupFrom(tab: Table, key: Text, i: nat)
    requires ShortWords(tab) && i < |tab| && tab[|tab| - 1].None?
    ensures match Lookup(tab, key, i)
            case At(j) => i <= j < |tab| && tab[j].Some? && tab[j].value.str == key
            case Missing => exists j :: i <= j < |tab| && tab[j].None? && (forall k :: i <= k < j ==> tab[k].Some? && tab[k].value.str != key)
            case PastEnd => false
    decreases |tab| - i
  {
    if tab[i].Some? && tab[i].value.str != key {
      assert i + 1 < |tab|;
      LookupFrom(tab, key, i + 1);
      if Lookup(tab, key, i + 1).Missing? {
        var j :| i + 1 <= j < |tab| && tab[j].None? && (forall k :: i + 1 <= k < j ==> tab[k].Some? && tab[k].value.str != key);
        assert forall k :: i <= k < j ==> tab[k].Some? && tab[k].value.str != key;
      }
    }
  }

  /** With the last slot empty, lookup finds a word exactly if it is in the table, where it is,
      and never leaves the array. */
  lemma LookupExact(tab: Table, key: Text)
    requires |tab| > 0 && Clustered(tab) && ShortWords(tab) && tab[|tab| - 1].None?
    ensures match Lookup(tab, key, Home(key, |tab|))
            case At(j) => j < |tab| && tab[j].Some? && tab[j].value.str == key
            case Missing => forall j :: 0 <= j < |tab| && tab[j].Some? ==> tab[j].value.str != key
            case PastEnd => false
  {
    var h := Home(key, |tab|);
    LookupFrom(tab, key, h);
    if Lookup(tab, key, h).Missing? {
      var e :| h <= e < |tab| && tab[e].None? && (forall k :: h <= k < e ==> tab[k].Some? && tab[k].value.str != key);
      forall j | 0 <= j < |tab| && tab[j].Some?
        ensures tab[j].value.str != key
      {
        assert Reachable(tab, j);
      }
    }
  }

  // ----- putting a new word in ----------------------------------------------

  /** Probing past filled slots puts the word where lookup will find it, and moves no other. */
  lemma InsertKeeps(l: List<Word>, w: Word)
    requires |l.slots| > 0 && l.lastIndex < |l.slots| && l.slots[|l.slots| - 1].None?
    requires Clustered(l.slots) && ShortWords(l.slots) && |w.str| < 2048 && w.hash == Hash(w.str, |w.str|)
    requires forall j :: 0 <= j < |l.slots| && l.slots[j].Some? ==> l.slots[j].value.str != w.str
    ensures var h := Home(w.str, |l.slots|); var j := Probe(l.slots, h); var r := Inserted(l, w, h);
            && j < |l.slots| && l.slots[j].None? && r.slots == l.slots[j := Some(w)]
            && Clustered(r.slots) && ShortWords(r.slots)
            && (r.slots[|r.slots| - 1].None? ==> r.lastIndex < |r.slots| || r.lastIndex == l.lastIndex)
  {
    var n := |l.slots|;
    var h := Home(w.str, n);
    var j := Probe(l.slots, h);
    assert j <= n - 1;
    var r := Inserted(l, w, h);
    forall k | 0 <= k < n && r.slots[k].Some?
      ensures Reachable(r.slots, k)
    {
      if k != j {
        assert Reachable(l.slots, k);
      }
    }
  }

  /** Replacing an entry by one of the same word disturbs nothing. */
  lemma UpdateKeeps(tab: Table, j: nat, w: Word)
    requires Clustered(tab) && ShortWords(tab) && j < |tab| && tab[j].Some? && tab[j].value.str == w.str && tab[j].value.hash == w.hash
    ensures Clustered(tab[j := Some(w)]) && ShortWords(tab[j := Some(w)])
  {
    var t := tab[j := Some(w)];
    forall k | 0 <= k < |t| && t[k].Some?
      ensures Reachable(t, k)
    {
      assert Reachable(tab, k);
    }
  }
}
