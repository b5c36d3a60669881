/** Building the index: the parser's loop over a line buffer, and the table it fills. */
module Indexer {
  import opened Tokenizer
  import opened Options
  import opened DynTable
  import opened WordTable
  import opened InvertedIndex

  /** lookup; the caller must know that the probe will not run off the array. */
  method LookupSlot(table: DynList<Word>, key: Text, index: nat) returns (r: Found)
    requires index < table.slots.Length && !Lookup(table.slots[..], key, index).PastEnd?
    ensures r == Lookup(table.slots[..], key, index)
  {
    var i := index;
    if table.slots[i].None? {
      return Missing;
    }
    if Same(table.slots[i].value.str, key) {
      return At(i);
    }
    i := i + 1;
    while table.slots[i].Some?
      invariant index < i < table.slots.Length && Lookup(table.slots[..], key, index) == Lookup(table.slots[..], key, i)
      decreases table.slots.Length - i
    {
      if Same(table.slots[i].value.str, key) {
        return At(i);
      }
      i := i + 1;
    }
    r := Missing;
  }

  /** lookup_link, then a line for the document found, or a new document in front. */
  method Post(docs: seq<Doc>, docId: nat, line: nat) returns (r: seq<Doc>)
    requires DocsOk(docs)
    ensures r == AddPosting(docs, docId, line)
  {
    var k := 0;
    while k < |docs| && docs[k].docId != docId
      invariant 0 <= k <= |docs| && forall j :: 0 <= j < k ==> docs[j].docId != docId
    {
      k := k + 1;
    }
    assert k == LookupLink(docs, docId);
    if k < |docs| {
      r := docs[k := AddLine(docs[k], line)];
    } else {
      r := [AddLine(NewDoc(docId), line)] + docs;
    }
  }

  /** What parse does with one token whose hash is `tmp`. */
  method AddWord(table: DynList<Word>, tok: Text, tmp: nat, docId: nat, line: nat)
    requires table.slots.Length > 0 && TableOk(table.slots[..]) && tmp == Hash(tok, |tok|)
    requires AddToken(table.Model(), Occ(tok, docId, line)).Ok?
    modifies table, table.slots
    ensures Ok(table.Model()) == AddToken(old(table.Model()), Occ(tok, docId, line))
    ensures table.slots == old(table.slots) || fresh(table.slots)
  {
    var hash := tmp % table.slots.Length;
    assert hash == Home(tok, table.slots.Length);
    var r := LookupSlot(table, tok, hash);
    if r.At? {
      LookupHit(table.slots[..], tok, hash);
      var w := table.slots[r.slot].value;
      var docs := Post(w.docs, docId, line);
      table.slots[r.slot] := Some(w.(docs := docs));
      assert table.slots[..] == old(table.slots[..])[r.slot := Some(w.(docs := docs))];
    } else {
      var docs := Post([], docId, line);
      var ret := table.Insert(Word(tmp, tok, docs), hash);
    }
  }

  /** A sequence of tokens into a given table. */
  function AddSeq(l: List<Word>, occs: seq<Occ>): (r: Outcome)
    requires |l.slots| > 0 && TableOk(l.slots)
    ensures r.Ok? ==> |r.l.slots| == |l.slots| && TableOk(r.l.slots)
    decreases |occs|
  {
    if occs == [] then Ok(l)
    else
      match AddSeq(l, Front(occs))
      case Ok(m) => AddToken(m, Final(occs))
      case r => r
  }

  lemma {:induction false} AddSeqPrefix(l: List<Word>, a: seq<Occ>, b: seq<Occ>)
    requires |l.slots| > 0 && TableOk(l.slots) && AddSeq(l, a + b).Ok?
    ensures AddSeq(l, a).Ok?
    decreases |b|
  {
    if b == [] {
      assert a + b == a;
    } else {
      assert Front(a + b) == a + Front(b);
      AddSeqPrefix(l, a, Front(b));
    }
  }

  /** Adding document after document is adding all occurrences to a fresh table. */
  lemma {:induction false} AddSeqAll(n: nat, a: seq<Occ>, b: seq<Occ>)
    requires n > 0 && AddAll(n, a).Ok?
    ensures AddSeq(AddAll(n, a).l, b) == AddAll(n, a + b)
    decreases |b|
  {
    if b == [] {
      assert a + b == a;
    } else {
      assert Front(a + b) == a + Front(b) && Final(a + b) == Final(b);
      AddSeqAll(n, a, Front(b));
    }
  }

  lemma LineOccsPrefix(d: nat, j: nat, done: seq<Text>, tok: Text, rest: seq<Text>)
    ensures LineOccs(d, j, done + ([tok] + rest)) == (LineOccs(d, j, done) + [Occ(tok, d, j)]) + LineOccs(d, j, rest)
    ensures LineOccs(d, j, done + [tok]) == LineOccs(d, j, done) + [Occ(tok, d, j)]
  {
  }

  /** One more token of the line is in the table. */
  lemma TokenDone(l: List<Word>, d: nat, j: nat, done: seq<Text>, tok: Text, rest: seq<Text>)
    requires |l.slots| > 0 && TableOk(l.slots) && AddSeq(l, LineOccs(d, j, done + ([tok] + rest))).Ok?
    ensures AddSeq(l, LineOccs(d, j, done)).Ok?
    ensures AddSeq(l, LineOccs(d, j, done + [tok])) == AddToken(AddSeq(l, LineOccs(d, j, done)).l, Occ(tok, d, j))
    ensures AddSeq(l, LineOccs(d, j, done + [tok])).Ok?
  {
    LineOccsPrefix(d, j, done, tok, rest);
    AddSeqPrefix(l, LineOccs(d, j, done) + [Occ(tok, d, j)], LineOccs(d, j, rest));
    Snoc(LineOccs(d, j, done), Occ(tok, d, j));
  }

  // ----- parsing a line -----------------------------------------------------

  /** The token `line[b..e]` as a string in the buffer, once it is ended by a NUL. */
  lemma TokenString(buf: array<Byte>, line: Text, b: nat, e: nat)
    requires IsLine(line) && b <= e <= |line| < buf.Length && buf[e] == 0
    requires forall j :: b <= j < e ==> buf[j] == line[j]
    ensures StringAt(buf, b, line[b..e])
  {
    assert forall x :: x in line[b..e] ==> x in line;
  }

  /** Where the loop of parse goes on after the token `line[b..e]`: at an index, or nowhere. */
  datatype Next = Index(i: nat) | Stop

  function NextOf(line: Text, b: nat, e: nat, max: nat): Next
    requires b <= e <= |line|
  {
    if e == |line| || b + e + 1 > max then Stop else Index(Resume(line, b, e, max))
  }

  /** Cuts one token: from `start` on, ends it with a NUL and skips on. */
  method CutToken(buf: array<Byte>, start: nat, max: nat, ghost line: Text) returns (ptr: nat, index: nat)
    requires IsLine(line) && Holds(buf, line, start) && start < |line| && start <= max
    modifies buf
    ensures var e := TokenEnd(line, start, max);
            && StringAt(buf, start, line[start..e])
            && (NextOf(line, start, e, max).Stop? ==> ptr < buf.Length && buf[ptr] == 0 && index > start)
            && (NextOf(line, start, e, max).Index? ==> ptr == index == NextOf(line, start, e, max).i && index > start && Holds(buf, line, index))
  {
    var len := max - start;
    ptr, index := StrTok(buf, start, len, start, line);
    ghost var e := TokenEnd(line, start, max);
    assert e < |line| ==> line[e] in line;
    if buf[ptr] != 0 {
      ptr, index := StrSplit(buf, ptr, len, index, line);
      assert forall j :: 0 <= j < buf.Length ==> buf[j] == buf[..][j];
    }
    TokenString(buf, line, start, e);
  }

  /** The tokens still to come. */
  function Remaining(line: Text, n: Next, max: nat): seq<Text>
    requires n.Index? ==> n.i <= |line|
  {
    match n
    case Stop => []
    case Index(i) => Tokens(line, i, max)
  }

  lemma TokensUnfold(line: Text, i: nat, max: nat)
    requires i < |line| && i < max
    ensures var b := TokenStart(line, i, max);
            if b == |line| then Tokens(line, i, max) == []
            else var e := TokenEnd(line, b, max);
                 Tokens(line, i, max) == [line[b..e]] + Remaining(line, NextOf(line, b, e, max), max)
  {
  }

  /** Where the loop stands: at an index, with the rest of the line in the buffer, or at a NUL. */
  ghost predicate Stands(buf: array<Byte>, ptr: nat, index: nat, n: Next, line: Text)
    reads buf
  {
    && ptr < buf.Length
    && (n.Stop? ==> buf[ptr] == 0)
    && (n.Index? ==> ptr == index == n.i && Holds(buf, line, index))
  }

  /** One pass up to the token: none is left, or it stands at `start` ended by a NUL. */
  method NextToken(buf: array<Byte>, ptr0: nat, index0: nat, max: nat, ghost line: Text)
    returns (found: bool, start: nat, ptr: nat, index: nat, ghost tok: Text, ghost n: Next)
    requires IsLine(line) && Holds(buf, line, index0) && ptr0 == index0 < max && buf[ptr0] != 0
    modifies buf
    ensures !found ==> Tokens(line, index0, max) == [] && n.Stop? && ptr < buf.Length && buf[ptr] == 0
    ensures found ==> StringAt(buf, start, tok) && Stands(buf, ptr, index, n, line) && index > index0 && (n.Index? ==> n.i <= |line|)
    ensures found ==> Tokens(line, index0, max) == [tok] + Remaining(line, n, max)
  {
    assert index0 < |line|;
    TokensUnfold(line, index0, max);
    start, index := StrStrip(buf, ptr0, max - index0, index0, line);
    assert start == TokenStart(line, index0, max);
    ptr, tok, n := start, [], Stop;
    found := buf[start] != 0;
    if found {
      StripStopAt(line, index0, max - index0);
      ptr, index := CutToken(buf, start, max, line);
      tok, n := line[start..TokenEnd(line, start, max)], NextOf(line, start, TokenEnd(line, start, max), max);
    } else {
      NulAtEnd(line, buf, start);
    }
  }

  lemma NulAtEnd(line: Text, buf: array<Byte>, i: nat)
    requires IsLine(line) && Holds(buf, line, i) && buf[i] == 0
    ensures i == |line|
  {
    if i < |line| {
      NoNulInside(line, i);
    }
  }

  lemma NoNulInside(line: Text, i: nat)
    requires IsLine(line) && i < |line|
    ensures line[i] != 0
  {
    assert line[i] in line;
  }

  lemma TokenOfAll(done: seq<Text>, tok: Text, more: seq<Text>)
    ensures tok in done + ([tok] + more)
    ensures done + [tok] + more == done + ([tok] + more)
  {
  }

  /** Nothing is left once the loop's test fails. */
  lemma EndOfLine(buf: array<Byte>, ptr: nat, index: nat, n: Next, line: Text, max: nat)
    requires IsLine(line) && Stands(buf, ptr, index, n, line) && (n.Index? ==> n.i <= |line|)
    requires index >= max || buf[ptr] == 0
    ensures Remaining(line, n, max) == []
  {
    if n.Index? && buf[ptr] == 0 {
      NulAtEnd(line, buf, index);
    }
  }

  /** The token at `start` goes into the table. */
  method AddCut(table: DynList<Word>, buf: array<Byte>, start: nat, docId: nat, lineNum: nat,
                ghost tok: Text, ghost before: List<Word>, ghost done: seq<Text>, ghost more: seq<Text>, ghost all: seq<Text>)
    requires StringAt(buf, start, tok) && all == done + ([tok] + more) && |tok| < 2048
    requires table.slots.Length > 0 && TableOk(table.slots[..]) && |before.slots| > 0 && TableOk(before.slots)
    requires AddSeq(before, LineOccs(docId, lineNum, all)).Ok?
    requires Ok(table.Model()) == AddSeq(before, LineOccs(docId, lineNum, done))
    modifies table, table.slots
    ensures Ok(table.Model()) == AddSeq(before, LineOccs(docId, lineNum, done + [tok]))
    ensures table.slots == old(table.slots) || fresh(table.slots)
    ensures table.slots.Length > 0 && TableOk(table.slots[..])
  {
    var n := StrGetLength(buf, start, 2048, tok);
    var tmp := HashFunction(buf, start, tok);
    var str := buf[start..start + n];
    assert str == tok;
    TokenDone(before, docId, lineNum, done, tok, more);
    AddWord(table, str, tmp, docId, lineNum);
  }

  /** The state of the loop: `done` has been added to the table, the rest of `all` is to come. */
  ghost predicate Midway(table: DynList<Word>, before: List<Word>, d: nat, j: nat, done: seq<Text>, rest: seq<Text>, all: seq<Text>)
    reads table, table.slots
  {
    && done + rest == all
    && table.slots.Length > 0 && TableOk(table.slots[..])
    && |before.slots| > 0 && TableOk(before.slots) && AddSeq(before, LineOccs(d, j, all)).Ok?
    && Ok(table.Model()) == AddSeq(before, LineOccs(d, j, done))
  }

  lemma StartMidway(table: DynList<Word>, d: nat, j: nat, all: seq<Text>)
    requires table.slots.Length > 0 && TableOk(table.slots[..]) && AddSeq(table.Model(), LineOccs(d, j, all)).Ok?
    ensures Midway(table, table.Model(), d, j, [], all, all)
  {
    assert [] + all == all;
    assert LineOccs(d, j, []) == [];
  }

  /** One pass of the loop. */
  method ParseStep(table: DynList<Word>, buf: array<Byte>, ptr0: nat, index0: nat, max: nat, docId: nat, lineNum: nat,
                   ghost line: Text, ghost before: List<Word>, ghost done0: seq<Text>, ghost all: seq<Text>)
    returns (found: bool, ptr: nat, index: nat, ghost n: Next, ghost done: seq<Text>)
    requires IsLine(line) && Holds(buf, line, index0) && ptr0 == index0 < max && buf[ptr0] != 0
    requires Midway(table, before, docId, lineNum, done0, Tokens(line, index0, max), all)
    requires forall t :: t in all ==> |t| < 2048
    modifies table, table.slots, buf
    ensures table.slots == old(table.slots) || fresh(table.slots)
    ensures Stands(buf, ptr, index, n, line) && (n.Index? ==> n.i <= |line|)
    ensures Midway(table, before, docId, lineNum, done, Remaining(line, n, max), all)
    ensures if found then index > index0 else n.Stop?
  {
    ghost var tok;
    var start;
    found, start, ptr, index, tok, n := NextToken(buf, ptr0, index0, max, line);
    done := done0;
    if found {
      ghost var more := Remaining(line, n, max);
      TokenOfAll(done0, tok, more);
      AddCut(table, buf, start, docId, lineNum, tok, before, done0, more, all);
      done := done0 + [tok];
    }
  }

  /** parse: the tokens of the line in the buffer go into the table, left to right, although the
      buffer is written to on the way. The loop ends for every line: each pass moves on. */
  method Parse(table: DynList<Word>, buf: array<Byte>, max: nat, docId: nat, lineNum: nat, ghost line: Text)
    requires IsLine(line) && Holds(buf, line, 0)
    requires table.slots.Length > 0 && TableOk(table.slots[..])
    requires forall t :: t in Tokens(line, 0, max) ==> |t| < 2048
    requires AddSeq(table.Model(), LineOccs(docId, lineNum, Tokens(line, 0, max))).Ok?
    modifies table, table.slots, buf
    ensures Ok(table.Model()) == AddSeq(old(table.Model()), LineOccs(docId, lineNum, Tokens(line, 0, max)))
    ensures table.slots == old(table.slots) || fresh(table.slots)
  {
    ghost var before := table.Model();
    ghost var all := Tokens(line, 0, max);
    ghost var done: seq<Text> := [];
    ghost var n := Index(0);
    var ptr: nat := 0;
    var index: nat := 0;
    StartMidway(table, docId, lineNum, all);
    while index < max && buf[ptr] != 0
      invariant Stands(buf, ptr, index, n, line) && (n.Index? ==> n.i <= |line|)
      invariant table.slots == old(table.slots) || fresh(table.slots)
      invariant Midway(table, before, docId, lineNum, done, Remaining(line, n, max), all)
      decreases max - index
    {
      var found;
      found, ptr, index, n, done := ParseStep(table, buf, ptr, index, max, docId, lineNum, line, before, done, all);
      if !found {
        break;
      }
    }
    if n.Index? {
      EndOfLine(buf, ptr, index, n, line, max);
    }
    assert done == all;
  }

  // ----- documents and directories ------------------------------------------

  lemma {:induction false} AddSeqConcat(l: List<Word>, a: seq<Occ>, b: seq<Occ>)
    requires |l.slots| > 0 && TableOk(l.slots) && AddSeq(l, a + b).Ok?
    ensures AddSeq(l, a).Ok? && AddSeq(AddSeq(l, a).l, b) == AddSeq(l, a + b)
    decreases |b|
  {
    if b == [] {
      assert a + b == a;
    } else {
      assert Front(a + b) == a + Front(b) && Final(a + b) == Final(b);
      AddSeqConcat(l, a, Front(b));
    }
  }

  /** Reads a line into the buffer, as fgets does: its bytes and a NUL. */
  method ReadLine(buf: array<Byte>, line: Text)
    requires |line| < buf.Length
    modifies buf
    ensures Holds(buf, line, 0)
  {
    var i := 0;
    while i < |line|
      invariant 0 <= i <= |line| && forall j :: 0 <= j < i ==> buf[j] == line[j]
    {
      buf[i] := line[i];
      i := i + 1;
    }
    buf[i] := 0;
  }

  /** Lines that can be read and whose tokens are short enough. */
  predicate Readable(lines: seq<Text>) {
    forall j :: 0 <= j < |lines| ==> IsLine(lines[j]) && |lines[j]| <= DYN_SIZE && ShortAll(Tokens(lines[j], 0, DYN_SIZE))
  }

  predicate ShortAll(toks: seq<Text>) {
    forall t :: t in toks ==> |t| < 2048
  }

  lemma DocOccsStep(d: nat, lines: seq<Text>, j: nat)
    requires j < |lines|
    ensures DocOccs(d, CutLines(lines[..j + 1])) ==
            DocOccs(d, CutLines(lines[..j])) + LineOccs(d, j + 1, Tokens(lines[j], 0, DYN_SIZE))
  {
    var cut := CutLines(lines[..j + 1]);
    assert Front(cut) == CutLines(lines[..j]) && Final(cut) == Tokens(lines[j], 0, DYN_SIZE);
  }

  lemma {:induction false} DocOccsPrefix(d: nat, lines: seq<Text>, j: nat) returns (rest: seq<Occ>)
    requires j <= |lines|
    ensures DocOccs(d, CutLines(lines)) == DocOccs(d, CutLines(lines[..j])) + rest
    decreases |lines| - j
  {
    if j == |lines| {
      assert lines[..j] == lines;
      rest := [];
    } else {
      var more := DocOccsPrefix(d, lines, j + 1);
      DocOccsStep(d, lines, j);
      var line := LineOccs(d, j + 1, Tokens(lines[j], 0, DYN_SIZE));
      rest := line + more;
      assert DocOccs(d, CutLines(lines[..j])) + line + more == DocOccs(d, CutLines(lines[..j])) + rest;
    }
  }

  /** The next line of a document can be added, and what the table is then. */
  lemma LineNext(l: List<Word>, d: nat, lines: seq<Text>, j: nat)
    requires |l.slots| > 0 && TableOk(l.slots) && j < |lines| && AddSeq(l, DocOccs(d, CutLines(lines))).Ok?
    ensures AddSeq(l, DocOccs(d, CutLines(lines[..j]))).Ok?
    ensures AddSeq(AddSeq(l, DocOccs(d, CutLines(lines[..j]))).l, LineOccs(d, j + 1, Tokens(lines[j], 0, DYN_SIZE)))
            == AddSeq(l, DocOccs(d, CutLines(lines[..j + 1])))
    ensures AddSeq(l, DocOccs(d, CutLines(lines[..j + 1]))).Ok?
  {
    var rest := DocOccsPrefix(d, lines, j + 1);
    AddSeqPrefix(l, DocOccs(d, CutLines(lines[..j + 1])), rest);
    DocOccsStep(d, lines, j);
    AddSeqConcat(l, DocOccs(d, CutLines(lines[..j])), LineOccs(d, j + 1, Tokens(lines[j], 0, DYN_SIZE)));
  }

  /** tokenizer: one document, its lines numbered from 1. */
  method IndexDocument(table: DynList<Word>, lines: seq<Text>, docId: nat)
    requires Readable(lines) && table.slots.Length > 0 && TableOk(table.slots[..])
    requires AddSeq(table.Model(), DocOccs(docId, CutLines(lines))).Ok?
    modifies table, table.slots
    ensures Ok(table.Model()) == AddSeq(old(table.Model()), DocOccs(docId, CutLines(lines)))
    ensures table.slots == old(table.slots) || fresh(table.slots)
  {
    var buf := new Byte[DYN_SIZE + 1];
    ghost var before := table.Model();
    var lineNum := 1;
    assert CutLines(lines[..0]) == [];
    while lineNum - 1 < |lines|
      invariant 1 <= lineNum <= |lines| + 1 && table.slots.Length > 0 && TableOk(table.slots[..])
      invariant table.slots == old(table.slots) || fresh(table.slots)
      invariant Ok(table.Model()) == AddSeq(before, DocOccs(docId, CutLines(lines[..lineNum - 1])))
    {
      LineNext(before, docId, lines, lineNum - 1);
      ReadLine(buf, lines[lineNum - 1]);
      Parse(table, buf, DYN_SIZE, docId, lineNum, lines[lineNum - 1]);
      lineNum := lineNum + 1;
    }
    assert lines[..lineNum - 1] == lines;
  }

  lemma {:induction false} AddAllPrefix(n: nat, a: seq<Occ>, b: seq<Occ>)
    requires n > 0 && AddAll(n, a + b).Ok?
    ensures AddAll(n, a).Ok?
    decreases |b|
  {
    if b == [] {
      assert a + b == a;
    } else {
      assert Front(a + b) == a + Front(b);
      AddAllPrefix(n, a, Front(b));
    }
  }

  lemma AllOccsStep(docs: seq<seq<Text>>, d: nat)
    requires d < |docs|
    ensures AllOccs(CutDocs(docs[..d + 1])) == AllOccs(CutDocs(docs[..d])) + DocOccs(d, CutLines(docs[d]))
  {
    var cut := CutDocs(docs[..d + 1]);
    assert Front(cut) == CutDocs(docs[..d]) && Final(cut) == CutLines(docs[d]);
  }

  lemma {:induction false} AllOccsPrefix(docs: seq<seq<Text>>, d: nat) returns (rest: seq<Occ>)
    requires d <= |docs|
    ensures AllOccs(CutDocs(docs)) == AllOccs(CutDocs(docs[..d])) + rest
    decreases |docs| - d
  {
    if d == |docs| {
      assert docs[..d] == docs;
      rest := [];
    } else {
      var more := AllOccsPrefix(docs, d + 1);
      AllOccsStep(docs, d);
      rest := DocOccs(d, CutLines(docs[d])) + more;
    }
  }

  lemma DocNext(docs: seq<seq<Text>>, d: nat)
    requires d < |docs| && AddAll(DYN_SIZE, AllOccs(CutDocs(docs))).Ok?
    ensures AddAll(DYN_SIZE, AllOccs(CutDocs(docs[..d]))).Ok? && AddAll(DYN_SIZE, AllOccs(CutDocs(docs[..d + 1]))).Ok?
    ensures AddSeq(AddAll(DYN_SIZE, AllOccs(CutDocs(docs[..d]))).l, DocOccs(d, CutLines(docs[d])))
            == AddAll(DYN_SIZE, AllOccs(CutDocs(docs[..d + 1])))
  {
    var rest := AllOccsPrefix(docs, d + 1);
    AddAllPrefix(DYN_SIZE, AllOccs(CutDocs(docs[..d + 1])), rest);
    AllOccsStep(docs, d);
    AddAllPrefix(DYN_SIZE, AllOccs(CutDocs(docs[..d])), DocOccs(d, CutLines(docs[d])));
    AddSeqAll(DYN_SIZE, AllOccs(CutDocs(docs[..d])), DocOccs(d, CutLines(docs[d])));
  }

  lemma AppendedNext(l: List<Text>, names: seq<Text>, d: nat)
    requires d < |names|
    ensures Appended(l, names[..d + 1]) == Inserted(Appended(l, names[..d]), names[d], Appended(l, names[..d]).lastIndex)
  {
    var some := names[..d + 1];
    assert some[..|some| - 1] == names[..d];
  }

  /** The table and the file list when the first `d` files are done. */
  function TableAfter(docs: seq<seq<Text>>, d: nat): Outcome
    requires d <= |docs|
  {
    AddAll(DYN_SIZE, AllOccs(CutDocs(docs[..d])))
  }

  function FilesAfter(names: seq<Text>, d: nat): List<Text>
    requires d <= |names|
  {
    Appended(Fresh(10), names[..d])
  }

  /** One file: its name goes to the end of the file list, its words into the table. */
  method ReadFile(table: DynList<Word>, files: DynList<Text>, names: seq<Text>, docs: seq<seq<Text>>, docId: nat)
    requires docId < |names| == |docs| && Readable(docs[docId]) && AddAll(DYN_SIZE, AllOccs(CutDocs(docs))).Ok?
    requires Ok(table.Model()) == TableAfter(docs, docId) && files.Model() == FilesAfter(names, docId)
    modifies table, table.slots, files, files.slots
    ensures Ok(table.Model()) == TableAfter(docs, docId + 1) && files.Model() == FilesAfter(names, docId + 1)
    ensures (table.slots == old(table.slots) || fresh(table.slots)) && (files.slots == old(files.slots) || fresh(files.slots))
  {
    AppendedNext(Fresh(10), names, docId);
    var ret := files.Insert(names[docId], files.lastIndex);
    DocNext(docs, docId);
    IndexDocument(table, docs[docId], docId);
  }

  /** read_dir: every file's name goes to the end of the file list and its words into the table,
      under the file's number. */
  method ReadDir(names: seq<Text>, docs: seq<seq<Text>>) returns (table: DynList<Word>, files: DynList<Text>)
    requires |names| == |docs| && forall d :: 0 <= d < |docs| ==> Readable(docs[d])
    requires AddAll(DYN_SIZE, AllOccs(CutDocs(docs))).Ok?
    ensures Ok(table.Model()) == AddAll(DYN_SIZE, AllOccs(CutDocs(docs)))
    ensures files.Model() == Appended(Fresh(10), names)
  {
    table := new DynList<Word>(DYN_SIZE);
    files := new DynList<Text>(10);
    var docId := 0;
    assert CutDocs(docs[..0]) == [] && names[..0] == [];
    while docId < |docs|
      invariant 0 <= docId <= |docs| && fresh(table) && fresh(table.slots) && fresh(files) && fresh(files.slots)
      invariant Ok(table.Model()) == TableAfter(docs, docId) && files.Model() == FilesAfter(names, docId)
    {
      ReadFile(table, files, names, docs, docId);
      docId := docId + 1;
    }
    assert docs[..docId] == docs && names[..docId] == names;
  }
}
