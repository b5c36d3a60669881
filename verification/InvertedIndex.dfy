/** The inverted index: what the parser does with each token, and that the result agrees with
    scanning the documents. */
module InvertedIndex {
  import opened Tokenizer
  import opened Options
  import opened DynTable
  import opened WordTable

  /** One occurrence of a token: which document, which line. */
  datatype Occ = Occ(word: Text, docId: nat, line: nat)

  function Front<T>(s: seq<T>): seq<T>
    requires s != []
  {
    s[..|s| - 1]
  }

  function Final<T>(s: seq<T>): T
    requires s != []
  {
    s[|s| - 1]
  }

  lemma FrontFinal<T>(s: seq<T>)
    requires s != []
    ensures s == Front(s) + [Final(s)]
  {
  }

  lemma Snoc<T>(s: seq<T>, x: T)
    ensures Front(s + [x]) == s && Final(s + [x]) == x
  {
  }

  // ----- postings of one word -----------------------------------------------

  function Zeros(n: nat): seq<nat> {
    seq(n, _ => 0)
  }

  function NewDoc(docId: nat): Doc {
    Doc(docId, Zeros(LIST_SIZE), 0)
  }

  predicate DocOk(d: Doc) {
    d.lastIndex <= |d.list|
  }

  function Lines(d: Doc): seq<nat>
    requires DocOk(d)
  {
    d.list[..d.lastIndex]
  }

  /** insert into a LINKLIST: the array grows by 10 when it is full. */
  function AddLine(d: Doc, line: nat): (r: Doc)
    requires DocOk(d)
    ensures DocOk(r) && r.docId == d.docId && Lines(r) == Lines(d) + [line]
  {
    var list := if d.lastIndex >= |d.list| then d.list + Zeros(LIST_SIZE) else d.list;
    d.(list := list[d.lastIndex := line], lastIndex := d.lastIndex + 1)
  }

  predicate DocsOk(docs: seq<Doc>) {
    forall d :: d in docs ==> DocOk(d)
  }

  /** Position of the first document `docId`, or the length. */
  function LookupLink(docs: seq<Doc>, docId: nat): (k: nat)
    ensures k <= |docs|
    ensures k < |docs| ==> docs[k].docId == docId
    ensures forall j :: 0 <= j < k ==> docs[j].docId != docId
  {
    if docs == [] || docs[0].docId == docId then 0
    else
      var k := LookupLink(docs[1..], docId);
      assert forall j :: 1 <= j < k + 1 ==> docs[j] == docs[1..][j - 1];
      k + 1
  }

  /** A further occurrence: one more line for its document, which goes in front if it is new. */
  function AddPosting(docs: seq<Doc>, docId: nat, line: nat): (r: seq<Doc>)
    requires DocsOk(docs)
    ensures DocsOk(r)
  {
    var k := LookupLink(docs, docId);
    if k < |docs| then docs[k := AddLine(docs[k], line)]
    else [AddLine(NewDoc(docId), line)] + docs
  }

  // ----- one token ----------------------------------------------------------

  /** Adding a token either works, or reads past the table, or doubles it. */
  datatype Outcome = Ok(l: List<Word>) | ReadsPast | Doubles

  predicate TableOk(tab: Table) {
    forall j :: 0 <= j < |tab| && tab[j].Some? ==> DocsOk(tab[j].value.docs)
  }

  /** The body of parse's loop, for one token. */
  function AddToken(l: List<Word>, o: Occ): (r: Outcome)
    requires |l.slots| > 0 && TableOk(l.slots)
    ensures r.Ok? ==> |r.l.slots| == |l.slots| && TableOk(r.l.slots)
    ensures r.Ok? ==> forall k :: 0 <= k < |l.slots| && l.slots[k].Some? ==> r.l.slots[k].Some?
  {
    var h := Home(o.word, |l.slots|);
    match Lookup(l.slots, o.word, h)
    case PastEnd => ReadsPast
    case At(j) =>
      LookupHit(l.slots, o.word, h);
      var w := l.slots[j].value;
      Ok(l.(slots := l.slots[j := Some(w.(docs := AddPosting(w.docs, o.docId, o.line)))]))
    case Missing =>
      if l.lastIndex >= |l.slots| then Doubles
      else Ok(Inserted(l, Word(Hash(o.word, |o.word|), o.word, AddPosting([], o.docId, o.line)), h))
  }

  lemma {:induction false} LookupHit(tab: Table, key: Text, i: nat)
    requires i <= |tab|
    ensures match Lookup(tab, key, i) case At(j) => i <= j < |tab| && tab[j].Some? && Same(tab[j].value.str, key) case _ => true
    decreases |tab| - i
  {
    if i < |tab| && tab[i].Some? {
      LookupHit(tab, key, i + 1);
    }
  }

  /** A whole sequence of tokens into a fresh table of `n` slots. */
  function AddAll(n: nat, occs: seq<Occ>): (r: Outcome)
    requires n > 0
    ensures r.Ok? ==> |r.l.slots| == n && TableOk(r.l.slots)
    decreases |occs|
  {
    if occs == [] then Ok(Fresh(n))
    else
      match AddAll(n, Front(occs))
      case Ok(l) => AddToken(l, Final(occs))
      case r => r
  }

  /** The documents of one word, from its occurrences alone. */
  function PostingsOf(occs: seq<Occ>, key: Text): (r: seq<Doc>)
    ensures DocsOk(r)
    decreases |occs|
  {
    if occs == [] then []
    else
      var p := PostingsOf(Front(occs), key);
      var o := Final(occs);
      if o.word == key then AddPosting(p, o.docId, o.line) else p
  }

  predicate Occurs(occs: seq<Occ>, key: Text) {
    exists k :: 0 <= k < |occs| && occs[k].word == key
  }

  predicate ShortTokens(occs: seq<Occ>) {
    forall k :: 0 <= k < |occs| ==> |occs[k].word| < 2048
  }

  /** The table holds exactly the words that occurred, each once, with exactly its documents. */
  ghost predicate Indexes(l: List<Word>, occs: seq<Occ>) {
    && |l.slots| > 0 && TableOk(l.slots) && Clustered(l.slots) && ShortWords(l.slots)
    && (l.slots[|l.slots| - 1].None? ==> l.lastIndex < |l.slots|)
    && (forall j :: 0 <= j < |l.slots| && l.slots[j].Some? ==> EntryOk(l.slots[j].value, occs))
    && (forall k :: 0 <= k < |occs| ==> Has(l.slots, occs[k].word))
  }

  ghost predicate EntryOk(w: Word, occs: seq<Occ>) {
    w.docs == PostingsOf(occs, w.str) && Occurs(occs, w.str)
  }

  ghost predicate Has(tab: Table, key: Text) {
    exists j :: 0 <= j < |tab| && tab[j].Some? && tab[j].value.str == key
  }

  lemma OccursMore(occs: seq<Occ>, o: Occ, key: Text)
    ensures Occurs(occs + [o], key) <==> Occurs(occs, key) || o.word == key
    ensures PostingsOf(occs + [o], key) == if o.word == key then AddPosting(PostingsOf(occs, key), o.docId, o.line) else PostingsOf(occs, key)
  {
    var all := occs + [o];
    Snoc(occs, o);
    if Occurs(occs, key) {
      var k :| 0 <= k < |occs| && occs[k].word == key;
      assert all[k].word == key;
    }
    if o.word == key {
      assert all[|occs|].word == key;
    }
  }

  lemma {:induction false} NeverPosted(occs: seq<Occ>, key: Text)
    requires !Occurs(occs, key)
    ensures PostingsOf(occs, key) == []
    decreases |occs|
  {
    if occs != [] {
      var init := Front(occs);
      FrontFinal(occs);
      OccursMore(init, Final(occs), key);
      NeverPosted(init, key);
    }
  }

  // ----- the table agrees with the occurrences ------------------------------

  /** The word is there already: its entry gets the posting. */
  lemma HitKeeps(l: List<Word>, occs: seq<Occ>, o: Occ, j: nat)
    requires Indexes(l, occs) && j < |l.slots| && l.slots[j].Some? && l.slots[j].value.str == o.word
    ensures var w := l.slots[j].value;
            Indexes(l.(slots := l.slots[j := Some(w.(docs := AddPosting(w.docs, o.docId, o.line)))]), occs + [o])
  {
    var w := l.slots[j].value;
    var w' := w.(docs := AddPosting(w.docs, o.docId, o.line));
    var l' := l.(slots := l.slots[j := Some(w')]);
    UpdateKeeps(l.slots, j, w');
    forall i | 0 <= i < |l'.slots| && l'.slots[i].Some?
      ensures EntryOk(l'.slots[i].value, occs + [o])
    {
      EntryMore(l.slots[i].value, occs, o);
      assert i != j ==> l.slots[i].value.str != o.word;
    }
    HasMore(l.slots, l'.slots, occs, o, j);
  }

  lemma EntryMore(w: Word, occs: seq<Occ>, o: Occ)
    requires EntryOk(w, occs)
    ensures EntryOk(if w.str == o.word then w.(docs := AddPosting(w.docs, o.docId, o.line)) else w, occs + [o])
  {
    OccursMore(occs, o, w.str);
  }

  lemma HasMore(tab: Table, tab': Table, occs: seq<Occ>, o: Occ, j: nat)
    requires |tab'| == |tab| && j < |tab'| && tab'[j].Some? && tab'[j].value.str == o.word
    requires forall i :: 0 <= i < |tab| && tab[i].Some? ==> tab'[i].Some? && tab'[i].value.str == tab[i].value.str
    requires forall k :: 0 <= k < |occs| ==> Has(tab, occs[k].word)
    ensures forall k :: 0 <= k <= |occs| ==> Has(tab', (occs + [o])[k].word)
  {
    forall k | 0 <= k <= |occs|
      ensures Has(tab', (occs + [o])[k].word)
    {
      if k < |occs| {
        assert Has(tab, occs[k].word);
        var i :| 0 <= i < |tab| && tab[i].Some? && tab[i].value.str == occs[k].word;
        assert tab'[i].Some? && tab'[i].value.str == (occs + [o])[k].word;
      }
    }
  }

  /** The word is new: it is inserted with its first posting. */
  lemma MissKeeps(l: List<Word>, occs: seq<Occ>, o: Occ)
    requires Indexes(l, occs) && l.slots[|l.slots| - 1].None? && |o.word| < 2048
    requires forall j :: 0 <= j < |l.slots| && l.slots[j].Some? ==> l.slots[j].value.str != o.word
    ensures var w := Word(Hash(o.word, |o.word|), o.word, AddPosting([], o.docId, o.line));
            Indexes(Inserted(l, w, Home(o.word, |l.slots|)), occs + [o])
  {
    var w := Word(Hash(o.word, |o.word|), o.word, AddPosting([], o.docId, o.line));
    var h := Home(o.word, |l.slots|);
    InsertKeeps(l, w);
    var l' := Inserted(l, w, h);
    var j := Probe(l.slots, h);
    assert !Occurs(occs, o.word) by {
      forall k | 0 <= k < |occs|
        ensures occs[k].word != o.word
      {
        assert Has(l.slots, occs[k].word);
      }
    }
    NeverPosted(occs, o.word);
    forall i | 0 <= i < |l'.slots| && l'.slots[i].Some?
      ensures EntryOk(l'.slots[i].value, occs + [o])
    {
      OccursMore(occs, o, l'.slots[i].value.str);
      assert i != j ==> EntryOk(l.slots[i].value, occs);
    }
    HasMore(l.slots, l'.slots, occs, o, j);
  }

  /** While the last slot is empty, adding a token reads no slot past the end, doubles nothing,
      drops nothing, and leaves the table right for the occurrences so far. */
  lemma TokenAdded(l: List<Word>, occs: seq<Occ>, o: Occ)
    requires Indexes(l, occs) && l.slots[|l.slots| - 1].None? && |o.word| < 2048
    ensures AddToken(l, o).Ok? && Indexes(AddToken(l, o).l, occs + [o])
  {
    LookupExact(l.slots, o.word);
    match Lookup(l.slots, o.word, Home(o.word, |l.slots|))
    case At(j) => HitKeeps(l, occs, o, j);
    case Missing => MissKeeps(l, occs, o);
  }

  lemma FreshIndexes(n: nat)
    requires n > 0
    ensures Indexes(Fresh(n), [])
  {
  }

  /** All went well and the last of the `n` slots is empty. */
  predicate GoodRun(n: nat, occs: seq<Occ>)
    requires n > 0
  {
    AddAll(n, occs).Ok? && AddAll(n, occs).l.slots[n - 1].None?
  }

  lemma GoodBefore(n: nat, occs: seq<Occ>)
    requires n > 0 && occs != [] && GoodRun(n, occs)
    ensures GoodRun(n, Front(occs)) && AddAll(n, occs) == AddToken(AddAll(n, Front(occs)).l, Final(occs))
  {
  }

  /** A run of insertions that leaves the last slot empty has indexed exactly what occurred. */
  lemma {:induction false} IndexExact(n: nat, occs: seq<Occ>)
    requires n > 0 && ShortTokens(occs) && GoodRun(n, occs)
    ensures Indexes(AddAll(n, occs).l, occs)
    decreases |occs|
  {
    if occs == [] {
      FreshIndexes(n);
    } else {
      GoodBefore(n, occs);
      IndexExact(n, Front(occs));
      FrontFinal(occs);
      StepIndexed(AddAll(n, Front(occs)).l, occs);
    }
  }

  lemma StepIndexed(l: List<Word>, occs: seq<Occ>)
    requires occs != [] && Indexes(l, Front(occs)) && l.slots[|l.slots| - 1].None? && ShortTokens(occs)
    ensures AddToken(l, Final(occs)).Ok? && Indexes(AddToken(l, Final(occs)).l, occs)
  {
    FrontFinal(occs);
    TokenAdded(l, Front(occs), Final(occs));
  }

  /** And such a run goes on: as long as the last slot is empty the next token works too. */
  lemma RunGoesOn(n: nat, occs: seq<Occ>)
    requires n > 0 && occs != [] && ShortTokens(occs) && GoodRun(n, Front(occs))
    ensures AddAll(n, occs).Ok?
  {
    IndexExact(n, Front(occs));
    StepIndexed(AddAll(n, Front(occs)).l, occs);
  }

  /** What a query finds: the word's documents, or nothing. */
  function Query(l: List<Word>, key: Text): Option<seq<Doc>>
    requires |l.slots| > 0
  {
    match Lookup(l.slots, key, Home(key, |l.slots|))
    case At(j) => LookupHit(l.slots, key, Home(key, |l.slots|)); Some(l.slots[j].value.docs)
    case _ => None
  }

  /** A query answers with the postings of the word exactly if it occurred. */
  lemma QueryExact(l: List<Word>, occs: seq<Occ>, key: Text)
    requires Indexes(l, occs) && l.slots[|l.slots| - 1].None?
    ensures Query(l, key) == if Occurs(occs, key) then Some(PostingsOf(occs, key)) else None
  {
    LookupExact(l.slots, key);
    match Lookup(l.slots, key, Home(key, |l.slots|))
    case At(j) => assert EntryOk(l.slots[j].value, occs);
    case Missing =>
      forall k | 0 <= k < |occs|
        ensures occs[k].word != key
      {
        assert Has(l.slots, occs[k].word);
      }
  }

  // ----- documents and the naive scan ---------------------------------------

  /** The occurrences on one line, numbered `j`, and in one document, lines counted from 1. */
  function LineOccs(d: nat, j: nat, words: seq<Text>): seq<Occ> {
    seq(|words|, i requires 0 <= i < |words| => Occ(words[i], d, j))
  }

  function DocOccs(d: nat, lines: seq<seq<Text>>): seq<Occ> {
    if lines == [] then []
    else DocOccs(d, Front(lines)) + LineOccs(d, |lines|, Final(lines))
  }

  /** The occurrences in a collection, documents counted from 0. */
  function AllOccs(docs: seq<seq<seq<Text>>>): seq<Occ> {
    if docs == [] then [] else AllOccs(Front(docs)) + DocOccs(|docs| - 1, Final(docs))
  }

  function Count(words: seq<Text>, key: Text): nat {
    if words == [] then 0 else Count(Front(words), key) + if Final(words) == key then 1 else 0
  }

  /** The lines of a document a word is on, in order, once for each time it is on them. */
  function LineHits(lines: seq<seq<Text>>, key: Text): seq<nat> {
    if lines == [] then []
    else LineHits(Front(lines), key) + seq(Count(Final(lines), key), _ => |lines|)
  }

  /** Scanning every document: those the word is in, from the last to the first. */
  function NaiveScan(docs: seq<seq<seq<Text>>>, key: Text): seq<(nat, seq<nat>)> {
    if docs == [] then []
    else
      var rest := NaiveScan(Front(docs), key);
      var hits := LineHits(Final(docs), key);
      if hits == [] then rest else [(|docs| - 1, hits)] + rest
  }

  /** What an answer says: document numbers and line numbers. */
  function View(docs: seq<Doc>): seq<(nat, seq<nat>)>
    requires DocsOk(docs)
  {
    if docs == [] then [] else [(docs[0].docId, Lines(docs[0]))] + View(docs[1..])
  }

  /** Line numbers of the occurrences of one word. */
  function HitsOf(occs: seq<Occ>, key: Text): seq<nat> {
    if occs == [] then []
    else HitsOf(Front(occs), key) + if Final(occs).word == key then [Final(occs).line] else []
  }

  lemma {:induction false} HitsConcat(a: seq<Occ>, b: seq<Occ>, key: Text)
    ensures HitsOf(a + b, key) == HitsOf(a, key) + HitsOf(b, key)
    decreases |b|
  {
    if b == [] {
      assert a + b == a;
    } else {
      var init := Front(b);
      assert Front(a + b) == a + init && Final(a + b) == Final(b);
      HitsConcat(a, init, key);
    }
  }

  lemma {:induction false} LineHitsOf(d: nat, j: nat, words: seq<Text>, key: Text)
    ensures HitsOf(LineOccs(d, j, words), key) == seq(Count(words, key), _ => j)
    decreases |words|
  {
    if words != [] {
      var init := Front(words);
      var o := LineOccs(d, j, words);
      assert Front(o) == LineOccs(d, j, init) && Final(o).word == Final(words);
      LineHitsOf(d, j, init, key);
    }
  }

  lemma {:induction false} DocHitsOf(d: nat, lines: seq<seq<Text>>, key: Text)
    ensures HitsOf(DocOccs(d, lines), key) == LineHits(lines, key)
    decreases |lines|
  {
    if lines != [] {
      var init := Front(lines);
      DocHitsOf(d, init, key);
      LineHitsOf(d, |lines|, Final(lines), key);
      HitsConcat(DocOccs(d, init), LineOccs(d, |lines|, Final(lines)), key);
    }
  }

  /** The occurrences of one document add one entry in front, with its lines, or none. */
  lemma {:induction false} DocPosted(a: seq<Occ>, b: seq<Occ>, d: nat, key: Text)
    requires forall x :: x in PostingsOf(a, key) ==> x.docId != d
    requires forall o :: o in b ==> o.docId == d
    ensures var p := PostingsOf(a, key); var r := PostingsOf(a + b, key);
            if HitsOf(b, key) == [] then r == p
            else |r| == |p| + 1 && r[1..] == p && r[0].docId == d && Lines(r[0]) == HitsOf(b, key)
    decreases |b|
  {
    if b == [] {
      assert a + b == a;
    } else {
      var init := Front(b);
      var o := Final(b);
      FrontFinal(b);
      assert a + b == (a + init) + [o];
      DocPosted(a, init, d, key);
      OccursMore(a + init, o, key);
      PostFront(PostingsOf(a + init, key), o.docId, o.line);
      PostFront(PostingsOf(a, key), o.docId, o.line);
    }
  }

  lemma PostFront(p: seq<Doc>, d: nat, line: nat)
    requires DocsOk(p)
    ensures p != [] && p[0].docId == d ==>
              AddPosting(p, d, line)[0] == AddLine(p[0], line) && AddPosting(p, d, line)[1..] == p[1..] && |AddPosting(p, d, line)| == |p|
    ensures (forall x :: x in p ==> x.docId != d) ==>
              && |AddPosting(p, d, line)| == |p| + 1 && AddPosting(p, d, line)[1..] == p
              && AddPosting(p, d, line)[0].docId == d && Lines(AddPosting(p, d, line)[0]) == [line]
  {
  }

  lemma {:induction false} DocOccsIds(d: nat, lines: seq<seq<Text>>)
    ensures forall o :: o in DocOccs(d, lines) ==> o.docId == d
    decreases |lines|
  {
    if lines != [] {
      DocOccsIds(d, Front(lines));
    }
  }

  /** The postings of a collection say what the scan says. */
  lemma {:induction false} ScanAgrees(docs: seq<seq<seq<Text>>>, key: Text)
    ensures View(PostingsOf(AllOccs(docs), key)) == NaiveScan(docs, key)
    ensures forall x :: x in PostingsOf(AllOccs(docs), key) ==> x.docId < |docs|
    decreases |docs|
  {
    if docs != [] {
      var init := Front(docs);
      var d := |docs| - 1;
      ScanAgrees(init, key);
      DocOccsIds(d, Final(docs));
      DocPosted(AllOccs(init), DocOccs(d, Final(docs)), d, key);
      DocHitsOf(d, Final(docs), key);
    }
  }

  /** A word occurs exactly if it has postings, so exactly if the scan finds it. */
  lemma {:induction false} OccursIffPosted(occs: seq<Occ>, key: Text)
    ensures Occurs(occs, key) <==> PostingsOf(occs, key) != []
    decreases |occs|
  {
    if occs != [] {
      FrontFinal(occs);
      OccursMore(Front(occs), Final(occs), key);
      OccursIffPosted(Front(occs), key);
    }
  }

  /** Line numbers of a hit list never go down, and each is the number of a line. */
  lemma {:induction false} HitsInOrder(lines: seq<seq<Text>>, key: Text)
    ensures forall i, j :: 0 <= i <= j < |LineHits(lines, key)| ==> 1 <= LineHits(lines, key)[i] <= LineHits(lines, key)[j] <= |lines|
    decreases |lines|
  {
    if lines != [] {
      HitsInOrder(Front(lines), key);
    }
  }

  lemma {:induction false} CountExact(words: seq<Text>, key: Text)
    ensures Count(words, key) == multiset(words)[key]
    decreases |words|
  {
    if words != [] {
      CountExact(Front(words), key);
      FrontFinal(words);
    }
  }

  /** Line number `j`, from 1 on, is in the hit list as often as the word is on that line. */
  lemma {:induction false} HitsCounted(lines: seq<seq<Text>>, key: Text, j: nat)
    requires 1 <= j <= |lines|
    ensures multiset(LineHits(lines, key))[j] == multiset(lines[j - 1])[key]
    decreases |lines|
  {
    CountExact(Final(lines), key);
    var init := LineHits(Front(lines), key);
    var last: seq<nat> := seq(Count(Final(lines), key), _ => |lines|);
    Repeated(|lines|, Count(Final(lines), key), j);
    Summed(init, last, j);
    if j < |lines| {
      HitsCounted(Front(lines), key, j);
    } else {
      HitsInOrder(Front(lines), key);
      assert j !in init;
    }
  }

  lemma Summed(a: seq<nat>, b: seq<nat>, x: nat)
    ensures multiset(a + b)[x] == multiset(a)[x] + multiset(b)[x]
  {
  }

  lemma {:induction false} Repeated(x: nat, n: nat, y: nat)
    ensures multiset(seq(n, _ => x))[y] == if x == y then n else 0
  {
    if n > 0 {
      Repeated(x, n - 1, y);
      assert seq(n, _ => x) == seq(n - 1, _ => x) + [x];
    }
  }

  /** Every entry is a document with its hits, and later documents come first. */
  ghost predicate HitList(docs: seq<seq<seq<Text>>>, key: Text, s: seq<(nat, seq<nat>)>) {
    && (forall i :: 0 <= i < |s| ==> s[i].0 < |docs| && s[i].1 == LineHits(docs[s[i].0], key) != [])
    && (forall i, j :: 0 <= i < j < |s| ==> s[i].0 > s[j].0)
  }

  lemma HitListGrows(docs: seq<seq<seq<Text>>>, key: Text, rest: seq<(nat, seq<nat>)>)
    requires docs != [] && HitList(Front(docs), key, rest)
    ensures HitList(docs, key, rest)
    ensures var hits := LineHits(Final(docs), key); hits != [] ==> HitList(docs, key, [(|docs| - 1, hits)] + rest)
  {
    var s := [(|docs| - 1, LineHits(Final(docs), key))] + rest;
    assert forall i :: 1 <= i < |s| ==> s[i] == rest[i - 1];
    assert forall i :: 0 <= i < |rest| ==> rest[i].0 < |docs| - 1 && Front(docs)[rest[i].0] == docs[rest[i].0];
  }

  lemma {:induction false} ScanSound(docs: seq<seq<seq<Text>>>, key: Text)
    ensures HitList(docs, key, NaiveScan(docs, key))
    decreases |docs|
  {
    if docs != [] {
      ScanSound(Front(docs), key);
      HitListGrows(docs, key, NaiveScan(Front(docs), key));
    }
  }

  lemma {:induction false} ScanFinds(docs: seq<seq<seq<Text>>>, key: Text, d: nat)
    requires d < |docs| && LineHits(docs[d], key) != []
    ensures (d, LineHits(docs[d], key)) in NaiveScan(docs, key)
    decreases |docs|
  {
    if d < |docs| - 1 {
      assert Front(docs)[d] == docs[d];
      ScanFinds(Front(docs), key, d);
    } else {
      assert NaiveScan(docs, key)[0] == (d, LineHits(docs[d], key));
    }
  }

  /** The scan lists each document the word is in, once, with its hits, later documents first. */
  lemma ScanEntries(docs: seq<seq<seq<Text>>>, key: Text)
    ensures var s := NaiveScan(docs, key);
      && HitList(docs, key, s)
      && (forall d :: 0 <= d < |docs| && LineHits(docs[d], key) != [] ==> (d, LineHits(docs[d], key)) in s)
  {
    ScanSound(docs, key);
    forall d | 0 <= d < |docs| && LineHits(docs[d], key) != []
      ensures (d, LineHits(docs[d], key)) in NaiveScan(docs, key)
    {
      ScanFinds(docs, key, d);
    }
  }

  // ----- a collection of texts ----------------------------------------------

  const DYN_SIZE := 10240

  /** The documents as the parser cuts them, and as their words. */
  function CutLines(lines: seq<Text>): seq<seq<Text>> {
    seq(|lines|, i requires 0 <= i < |lines| => Tokens(lines[i], 0, DYN_SIZE))
  }

  function CutDocs(docs: seq<seq<Text>>): seq<seq<seq<Text>>> {
    seq(|docs|, i requires 0 <= i < |docs| => CutLines(docs[i]))
  }

  function WordLines(lines: seq<Text>): seq<seq<Text>> {
    seq(|lines|, i requires 0 <= i < |lines| => Words(lines[i], 0))
  }

  function WordDocs(docs: seq<seq<Text>>): seq<seq<seq<Text>>> {
    seq(|docs|, i requires 0 <= i < |docs| => WordLines(docs[i]))
  }

  /** Every line is one the parser cuts exactly. */
  predicate LinesFit(docs: seq<seq<Text>>) {
    forall d, j :: 0 <= d < |docs| && 0 <= j < |docs[d]| ==> |docs[d][j]| <= DYN_SIZE && LineFits(docs[d][j], DYN_SIZE)
  }

  lemma CutDocsExact(docs: seq<seq<Text>>)
    requires LinesFit(docs)
    ensures CutDocs(docs) == WordDocs(docs)
  {
    forall d | 0 <= d < |docs|
      ensures CutLines(docs[d]) == WordLines(docs[d])
    {
      forall j | 0 <= j < |docs[d]|
        ensures Tokens(docs[d][j], 0, DYN_SIZE) == Words(docs[d][j], 0)
      {
        CutExactly(docs[d][j], DYN_SIZE);
      }
    }
  }

  /** For every collection whose lines are cut exactly and whose index leaves the table's last
      slot empty, a query is answered with what scanning the collection for the word finds, and
      refused exactly if the word is nowhere. */
  lemma AnswersAgree(docs: seq<seq<Text>>, key: Text)
    requires LinesFit(docs)
    requires var occs := AllOccs(CutDocs(docs));
             ShortTokens(occs) && GoodRun(DYN_SIZE, occs)
    ensures var q := Query(AddAll(DYN_SIZE, AllOccs(CutDocs(docs))).l, key); var scan := NaiveScan(WordDocs(docs), key);
            if scan == [] then q == None else q.Some? && DocsOk(q.value) && View(q.value) == scan
  {
    var occs := AllOccs(CutDocs(docs));
    CutDocsExact(docs);
    IndexExact(DYN_SIZE, occs);
    QueryExact(AddAll(DYN_SIZE, occs).l, occs, key);
    ScanAgrees(WordDocs(docs), key);
    OccursIffPosted(occs, key);
  }
}
