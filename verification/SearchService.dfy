/** A worker's job: reads a request off the connection, looks the word up and answers with a line
    for every occurrence, or with an error if there is none. */
module SearchService {
  import opened Tokenizer
  import opened Options
  import opened DynTable
  import opened WordTable
  import opened InvertedIndex
  import opened Indexer
  import opened Framing

  // ----- the text of an answer ----------------------------------------------

  function Digit(d: nat): Byte
    requires d < 10
  {
    48 + d
  }

  /** A number as printf writes it. */
  function Decimal(n: nat): Text {
    if n < 10 then [Digit(n)] else Decimal(n / 10) + [Digit(n % 10)]
  }

  function ValueOf(t: Text): int {
    if t == [] then 0 else 10 * ValueOf(Front(t)) + Final(t) - 48
  }

  /** Only digits, no leading zero but for zero itself, and read back they are the number. */
  lemma {:induction false} DecimalExact(n: nat)
    ensures ValueOf(Decimal(n)) == n
    ensures Decimal(n) != [] && (forall b :: b in Decimal(n) ==> 48 <= b <= 57)
    ensures n > 0 ==> Decimal(n)[0] != 48
  {
    if n < 10 {
      assert Front([Digit(n)]) == [];
    } else {
      DecimalExact(n / 10);
      Snoc(Decimal(n / 10), Digit(n % 10));
    }
  }

  const LINE_TEXT: Text := [58, 32, 108, 105, 110, 101, 32, 35]  // ": line #"
  const NEWLINE: Byte := 10

  function Entry(name: Text, line: nat): Text {
    name + LINE_TEXT + Decimal(line) + [NEWLINE]
  }

  function Entries(name: Text, lines: seq<nat>): Text {
    if lines == [] then [] else Entry(name, lines[0]) + Entries(name, lines[1..])
  }

  /** The answer for a list of documents and line numbers. */
  function Listing(hits: seq<(nat, seq<nat>)>, names: seq<Text>): Text
    requires forall h :: h in hits ==> h.0 < |names|
  {
    if hits == [] then [] else Entries(names[hits[0].0], hits[0].1) + Listing(hits[1..], names)
  }

  predicate Named(docs: seq<Doc>, files: List<Text>) {
    forall d :: d in docs ==> DocOk(d) && d.docId < |files.slots| && files.slots[d.docId].Some?
  }

  /** The same from the documents of a word and the file list. */
  function Printed(docs: seq<Doc>, files: List<Text>): Text
    requires Named(docs, files)
  {
    if docs == [] then []
    else Entries(files.slots[docs[0].docId].value, Lines(docs[0])) + Printed(docs[1..], files)
  }

  lemma {:induction false} ViewIds(docs: seq<Doc>, n: nat)
    requires DocsOk(docs) && forall d :: d in docs ==> d.docId < n
    ensures forall h :: h in View(docs) ==> h.0 < n
  {
    if docs != [] { ViewIds(docs[1..], n); }
  }

  lemma {:induction false} PrintedIsListing(docs: seq<Doc>, files: List<Text>, names: seq<Text>)
    requires DocsOk(docs) && Packed(files, names) && forall d :: d in docs ==> d.docId < |names|
    ensures Named(docs, files) && (forall h :: h in View(docs) ==> h.0 < |names|)
    ensures Printed(docs, files) == Listing(View(docs), names)
  {
    ViewIds(docs, |names|);
    if docs != [] {
      PrintedIsListing(docs[1..], files, names);
      assert View(docs)[1..] == View(docs[1..]);
    }
  }

  // ----- reading an answer --------------------------------------------------

  /** A reply as a client would read it, from the bytes alone: cut at the newlines; in each piece
      the last ": line #" has the file name before it and the line number after it. */
  function FirstNewline(t: Text): (k: nat)
    ensures k <= |t| && 10 !in t[..k] && (k < |t| ==> t[k] == 10)
  {
    if t == [] || t[0] == 10 then 0 else 1 + FirstNewline(t[1..])
  }

  function Pieces(t: Text): seq<Text>
    decreases |t|
  {
    var k := FirstNewline(t);
    if t == [] then [] else if k == |t| then [t] else [t[..k]] + Pieces(t[k + 1..])
  }

  predicate MarkAt(t: Text, i: nat) {
    i + 8 <= |t| && t[i..i + 8] == [58, 32, 108, 105, 110, 101, 32, 35]
  }

  /** The last mark at or before `i`, or -1. */
  function LastMark(t: Text, i: nat): int {
    if MarkAt(t, i) then i else if i == 0 then -1 else LastMark(t, i - 1)
  }

  function ReadPiece(t: Text): (Text, int) {
    var k := LastMark(t, |t|);
    if k < 0 || k + 8 > |t| then (t, -1) else (t[..k], ValueOf(t[k + 8..]))
  }

  function ReadReply(t: Text): seq<(Text, int)> {
    ReadAll(Pieces(t))
  }

  function ReadAll(pieces: seq<Text>): seq<(Text, int)> {
    if pieces == [] then [] else [ReadPiece(pieces[0])] + ReadAll(pieces[1..])
  }

  lemma {:induction false} LastMarkUnique(t: Text, m: nat, i: nat)
    requires m <= i && MarkAt(t, m) && forall j :: m < j <= i ==> !MarkAt(t, j)
    ensures LastMark(t, i) == m
  {
    if m < i { LastMarkUnique(t, m, i - 1); }
  }

  lemma {:induction false} NewlineFound(a: Text, b: Text)
    requires 10 !in a
    ensures FirstNewline(a + [10] + b) == |a|
    decreases |a|
  {
    var t := a + [10] + b;
    if a != [] {
      assert t[1..] == a[1..] + [10] + b;
      NewlineFound(a[1..], b);
    }
  }

  lemma {:induction false} ReadEntry(name: Text, line: nat)
    requires 10 !in name
    ensures var t := name + LINE_TEXT + Decimal(line); 10 !in t && ReadPiece(t) == (name, line)
  {
    var t := name + LINE_TEXT + Decimal(line);
    DecimalExact(line);
    assert t[|name| + 8..] == Decimal(line) && t[..|name|] == name;
    assert t[|name|..|name| + 8] == LINE_TEXT;
    forall j | |name| < j <= |t|
      ensures !MarkAt(t, j)
    {
      if j + 8 <= |t| {
        assert t[j..j + 8][7] == t[j + 7] == Decimal(line)[j + 7 - |name| - 8];
        assert t[j + 7] in Decimal(line);
      }
    }
    LastMarkUnique(t, |name|, |t|);
  }

  lemma ReadNext(name: Text, line: nat, rest: Text)
    requires 10 !in name
    ensures ReadReply(Entry(name, line) + rest) == [(name, line as int)] + ReadReply(rest)
  {
    var t := name + LINE_TEXT + Decimal(line);
    ReadEntry(name, line);
    NewlineFound(t, rest);
    var all := t + [10] + rest;
    assert Entry(name, line) + rest == all;
    assert all[..|t|] == t && all[|t| + 1..] == rest;
    assert Pieces(all)[1..] == Pieces(rest);
  }

  /** The lines found, each with its file's name, in the order of the scan. */
  function Pairs(name: Text, lines: seq<nat>): seq<(Text, int)> {
    seq(|lines|, i requires 0 <= i < |lines| => (name, lines[i]))
  }

  function Places(hits: seq<(nat, seq<nat>)>, names: seq<Text>): seq<(Text, int)>
    requires forall h :: h in hits ==> h.0 < |names|
  {
    if hits == [] then [] else Pairs(names[hits[0].0], hits[0].1) + Places(hits[1..], names)
  }

  lemma {:induction false} ReadEntries(name: Text, lines: seq<nat>, rest: Text)
    requires 10 !in name
    ensures ReadReply(Entries(name, lines) + rest) == Pairs(name, lines) + ReadReply(rest)
    decreases |lines|
  {
    if lines == [] {
      assert Entries(name, lines) + rest == rest;
    } else {
      var more := Entries(name, lines[1..]) + rest;
      assert Entries(name, lines) + rest == Entry(name, lines[0]) + more;
      ReadNext(name, lines[0], more);
      ReadEntries(name, lines[1..], rest);
      assert Pairs(name, lines) == [(name, lines[0] as int)] + Pairs(name, lines[1..]);
    }
  }

  /** No name of a file with a hit holds a newline. */
  predicate PlainNames(hits: seq<(nat, seq<nat>)>, names: seq<Text>)
    requires forall h :: h in hits ==> h.0 < |names|
  {
    forall h :: h in hits ==> 10 !in names[h.0]
  }

  lemma {:induction false} PlainRead(hits: seq<(nat, seq<nat>)>, names: seq<Text>)
    requires (forall h :: h in hits ==> h.0 < |names|) && PlainNames(hits, names)
    ensures ReadReply(Listing(hits, names)) == Places(hits, names)
    decreases |hits|
  {
    if hits != [] {
      ReadEntries(names[hits[0].0], hits[0].1, Listing(hits[1..], names));
      PlainRead(hits[1..], names);
    }
  }

  /** Every newline ends a piece, so a name with a newline gives more pieces than places. */
  lemma {:induction false} PiecesCount(t: Text)
    ensures |ReadReply(t)| == |Pieces(t)| >= multiset(t)[10]
    decreases |t|
  {
    ReadAllLength(Pieces(t));
    var k := FirstNewline(t);
    if k < |t| {
      PiecesCount(t[k + 1..]);
      assert t == t[..k] + [10] + t[k + 1..];
      assert multiset(t[..k])[10] == 0;
    } else {
      assert t == t[..k];
    }
  }

  lemma {:induction false} ReadAllLength(pieces: seq<Text>)
    ensures |ReadAll(pieces)| == |pieces|
  {
    if pieces != [] { ReadAllLength(pieces[1..]); }
  }

  lemma {:induction false} EntriesCount(name: Text, lines: seq<nat>)
    ensures multiset(Entries(name, lines))[10] >= |lines|
    ensures lines != [] && 10 in name ==> multiset(Entries(name, lines))[10] > |lines|
    decreases |lines|
  {
    if lines != [] { EntriesCount(name, lines[1..]); }
  }

  lemma PlainNext(hits: seq<(nat, seq<nat>)>, names: seq<Text>)
    requires hits != [] && forall h :: h in hits ==> h.0 < |names|
    ensures PlainNames(hits, names) <==> 10 !in names[hits[0].0] && PlainNames(hits[1..], names)
  {
    assert hits == [hits[0]] + hits[1..];
  }

  lemma Newlines(a: Text, b: Text)
    ensures multiset(a + b)[10] == multiset(a)[10] + multiset(b)[10]
  {
  }

  lemma {:induction false} ListingCount(hits: seq<(nat, seq<nat>)>, names: seq<Text>)
    requires forall h :: h in hits ==> h.0 < |names| && h.1 != []
    ensures multiset(Listing(hits, names))[10] >= |Places(hits, names)|
    ensures !PlainNames(hits, names) ==> multiset(Listing(hits, names))[10] > |Places(hits, names)|
    decreases |hits|
  {
    if hits != [] {
      EntriesCount(names[hits[0].0], hits[0].1);
      ListingCount(hits[1..], names);
      PlainNext(hits, names);
      Newlines(Entries(names[hits[0].0], hits[0].1), Listing(hits[1..], names));
    }
  }

  /** An answer is read as exactly the places found, in order, if and only if no file name in it
      has a newline. */
  lemma ListingRead(hits: seq<(nat, seq<nat>)>, names: seq<Text>)
    requires forall h :: h in hits ==> h.0 < |names| && h.1 != []
    ensures ReadReply(Listing(hits, names)) == Places(hits, names) <==> PlainNames(hits, names)
  {
    if PlainNames(hits, names) {
      PlainRead(hits, names);
    } else {
      ListingCount(hits, names);
      PiecesCount(Listing(hits, names));
    }
  }

  /** "a.txt: line #1" and a newline. */
  lemma EntrySample()
    ensures Entry([97, 46, 116, 120, 116], 1) == [97, 46, 116, 120, 116, 58, 32, 108, 105, 110, 101, 32, 35, 49, 10]
  {
  }

  // ----- what the job answers -----------------------------------------------

  /** A byte string up to its first NUL. */
  function CString(t: Text): (r: Text)
    ensures IsLine(r) && |r| <= |t| && r == t[..|r|] && (|r| < |t| ==> t[|r|] == 0)
  {
    if t == [] || t[0] == 0 then [] else [t[0]] + CString(t[1..])
  }

  lemma {:induction false} WholeString(t: Text)
    requires IsLine(t)
    ensures CString(t) == t
  {
    if t != [] { WholeString(t[1..]); }
  }

  /** Type and payload of the reply for a word. */
  function Reply(l: List<Word>, files: List<Text>, key: Text): (Word32, Text)
    requires |l.slots| > 0
    requires Query(l, key).Some? ==> Named(Query(l, key).value, files)
  {
    match Query(l, key)
    case Some(docs) => (RESPONSE, Printed(docs, files))
    case None => (ERROR, [])
  }

  function Respond(l: List<Word>, files: List<Text>, key: Text): Text
    requires |l.slots| > 0
    requires Query(l, key).Some? ==> Named(Query(l, key).value, files)
  {
    Frame(Reply(l, files, key).0, Reply(l, files, key).1)
  }

  /** The header the job sees: a stream that ends early leaves what was in the packet before. */
  function HeaderSeen(stream: Text, stale: Text): Hdr
    requires |stale| >= HDR_LEN
  {
    var k := Least(HDR_LEN, |stream|);
    Decode(stream[..k] + stale[k..HDR_LEN])
  }

  function Body(stream: Text): Text {
    stream[Least(HDR_LEN, |stream|)..]
  }

  /** The payload read for the header `h`. */
  function Payload(h: Hdr, body: Text): Text {
    body[..Least(Wanted(h), |body|)]
  }

  /** The word asked for. */
  function Key(stream: Text, stale: Text): Text
    requires |stale| >= HDR_LEN
  {
    CString(Payload(HeaderSeen(stream, stale), Body(stream)))
  }

  /** What the source takes for granted: the payload and the answer fit the packet, the probe stays
      in the table, and every document has a name. */
  ghost predicate Answerable(l: List<Word>, files: List<Text>, h: Hdr, body: Text) {
    && |l.slots| > 0 && |Payload(h, body)| <= DYN_SIZE && Wanted(h) < READ_LIMIT
    && (var key := CString(Payload(h, body));
        && !Lookup(l.slots, key, Home(key, |l.slots|)).PastEnd?
        && (Query(l, key).Some? ==>
              Named(Query(l, key).value, files) && |Printed(Query(l, key).value, files)| <= DYN_SIZE))
  }

  // ----- writing the answer -------------------------------------------------

  lemma Assoc(a: Text, b: Text, c: Text)
    ensures (a + b) + c == a + (b + c)
  {
  }

  lemma EntriesNext(name: Text, lines: seq<nat>, i: nat)
    requires i < |lines|
    ensures Entries(name, lines[i..]) == Entry(name, lines[i]) + Entries(name, lines[i + 1..])
  {
    assert lines[i..][1..] == lines[i + 1..];
  }

  lemma PrintedNext(docs: seq<Doc>, files: List<Text>, k: nat)
    requires Named(docs, files) && k < |docs|
    ensures Printed(docs[k..], files) == Entries(files.slots[docs[k].docId].value, Lines(docs[k])) + Printed(docs[k + 1..], files)
  {
    assert docs[k..][1..] == docs[k + 1..];
  }

  /** sprintf of one entry at `at`, with the NUL that ends it. */
  method Sprintf(packet: array<Byte>, at: nat, name: Text, line: nat) returns (n: nat)
    requires at + |Entry(name, line)| < packet.Length
    modifies packet
    ensures n == |Entry(name, line)|
    ensures packet[..at + n] == old(packet[..at]) + Entry(name, line)
  {
    var text := Entry(name, line);
    n := |text|;
    forall j | 0 <= j < n { packet[at + j] := text[j]; }
    packet[at + n] := 0;
  }

  /** The entries of one document. */
  method PrintDoc(packet: array<Byte>, at: nat, name: Text, d: Doc) returns (end: nat)
    requires DocOk(d) && at + |Entries(name, Lines(d))| < packet.Length
    modifies packet
    ensures end == at + |Entries(name, Lines(d))|
    ensures packet[..end] == old(packet[..at]) + Entries(name, Lines(d))
  {
    end := at;
    var i := 0;
    ghost var lines := Lines(d);
    assert lines[0..] == lines;
    while i < d.lastIndex
      invariant 0 <= i <= d.lastIndex && at <= end && end + |Entries(name, lines[i..])| < packet.Length
      invariant packet[..end] + Entries(name, lines[i..]) == old(packet[..at]) + Entries(name, lines)
    {
      EntriesNext(name, lines, i);
      Assoc(packet[..end], Entry(name, lines[i]), Entries(name, lines[i + 1..]));
      var n := Sprintf(packet, end, name, d.list[i]);
      end := end + n;
      i := i + 1;
    }
    assert lines[i..] == [];
  }

  /** The two nested loops over the documents of a word. */
  method PrintAll(packet: array<Byte>, docs: seq<Doc>, files: DynList<Text>) returns (totLen: nat)
    requires Named(docs, files.Model()) && |Printed(docs, files.Model())| < packet.Length
    modifies packet
    ensures totLen == |Printed(docs, files.Model())| && packet[..totLen] == Printed(docs, files.Model())
  {
    totLen := 0;
    var k := 0;
    ghost var f := files.Model();
    assert docs[0..] == docs;
    while k < |docs|
      invariant 0 <= k <= |docs| && totLen + |Printed(docs[k..], f)| < packet.Length
      invariant packet[..totLen] + Printed(docs[k..], f) == Printed(docs, f)
      invariant files.Model() == f
    {
      var d := docs[k];
      PrintedNext(docs, f, k);
      var name := files.slots[d.docId].value;
      assert f.slots[d.docId].value == name;
      Assoc(packet[..totLen], Entries(name, Lines(d)), Printed(docs[k + 1..], f));
      totLen := PrintDoc(packet, totLen, name, d);
      k := k + 1;
    }
    assert docs[k..] == [];
  }

  // ----- the job ------------------------------------------------------------

  /** What goes back for the bytes of a connection; `stale` is what the packet held before. */
  function Answer(l: List<Word>, files: List<Text>, stream: Text, stale: Text): Text
    requires |stale| >= HDR_LEN
    requires HeaderSeen(stream, stale).msgType == REQUEST ==> Answerable(l, files, HeaderSeen(stream, stale), Body(stream))
  {
    if HeaderSeen(stream, stale).msgType != REQUEST then [] else Respond(l, files, Key(stream, stale))
  }

  /** Receives the header into the packet. */
  method RecvHeader(sock: Socket, packet: array<Byte>) returns (h: Hdr)
    requires sock.soundReads && packet.Length >= HDR_LEN
    modifies sock`incoming, packet
    ensures h == HeaderSeen(old(sock.incoming), old(packet[..])) && sock.incoming == Body(old(sock.incoming))
  {
    ghost var stream, stale := sock.incoming, packet[..];
    var r := sock.RecvFromHost(packet, HDR_LEN);
    assert packet[..HDR_LEN] == stream[..r] + stale[r..HDR_LEN];
    h := Decode(packet[..HDR_LEN]);
  }

  /** Receives the payload over the header, ends it with a NUL and hashes it. */
  method RecvKey(sock: Socket, packet: array<Byte>, h: Hdr) returns (hash: nat, key: Text)
    requires sock.soundReads && |Payload(h, sock.incoming)| < packet.Length && Wanted(h) < READ_LIMIT
    modifies sock`incoming, packet
    ensures key == CString(Payload(h, old(sock.incoming))) && hash == Hash(key, |key|)
    ensures sock.incoming == old(sock.incoming)[|Payload(h, old(sock.incoming))|..]
  {
    ghost var payload := Payload(h, sock.incoming);
    var tmp := sock.RecvFromHost(packet, Wanted(h));
    assert packet[..tmp] == payload;
    packet[tmp] := 0;
    assert forall j :: 0 <= j < tmp ==> packet[j] == packet[..tmp][j];
    key := CString(packet[..tmp]);
    hash := HashFunction(packet, 0, key);
  }

  ghost predicate SentPartly(before: Text, reply: (Word32, Text), out: Text) {
    Partly(before, Encode(CreatePckt(|reply.1|, reply.0)), reply.1, out)
  }

  /** thread_job, up to the close. What goes out is the answer, or parts of it if a write fails. */
  method ThreadJob(sock: Socket, table: DynList<Word>, files: DynList<Text>, packet: array<Byte>)
    requires sock.soundReads && packet.Length == DYN_SIZE + 1
    requires HeaderSeen(sock.incoming, packet[..]).msgType == REQUEST ==>
      Answerable(table.Model(), files.Model(), HeaderSeen(sock.incoming, packet[..]), Body(sock.incoming))
    modifies sock, packet
    ensures sock.soundWrites ==>
      sock.outgoing == old(sock.outgoing) + Answer(table.Model(), files.Model(), old(sock.incoming), old(packet[..]))
    ensures if HeaderSeen(old(sock.incoming), old(packet[..])).msgType != REQUEST then sock.outgoing == old(sock.outgoing)
      else SentPartly(old(sock.outgoing), Reply(table.Model(), files.Model(), Key(old(sock.incoming), old(packet[..]))), sock.outgoing)
  {
    ghost var l, f := table.Model(), files.Model();
    var h := RecvHeader(sock, packet);
    if h.msgType == REQUEST {
      assert table.Model() == l && files.Model() == f;
      var hash, key := RecvKey(sock, packet, h);
      assert table.Model() == l && files.Model() == f;
      var i := hash % table.slots.Length;
      var r := LookupSlot(table, key, i);
      LookupHit(l.slots, key, i);
      if r.At? {
        var totLen := PrintAll(packet, table.slots[r.slot].value.docs, files);
        sock.SendMessage(RESPONSE, packet, totLen);
      } else {
        sock.SendMessage(ERROR, packet, 0);
      }
    }
  }

  // ----- the whole exchange -------------------------------------------------

  lemma HeaderUnderstood(hdr: Hdr, rest: Text, stale: Text)
    requires |stale| >= HDR_LEN
    ensures HeaderSeen(Encode(hdr) + rest, stale) == hdr && Body(Encode(hdr) + rest) == rest
  {
    var stream := Encode(hdr) + rest;
    HeaderRoundTrip(hdr, Encode(hdr));
    assert stream[..HDR_LEN] + stale[HDR_LEN..HDR_LEN] == Encode(hdr);
  }

  lemma PayloadExact(key: Text, rest: Text)
    requires |key| <= DYN_SIZE
    ensures Payload(CreatePckt(|key|, REQUEST), key + rest) == key && Wanted(CreatePckt(|key|, REQUEST)) < READ_LIMIT
  {
    WantedExact(|key|, REQUEST);
  }

  /** A framed request is understood: the word is the one sent, and the stream is at `rest`. */
  lemma RequestUnderstood(key: Text, rest: Text, stale: Text)
    requires IsLine(key) && |key| <= DYN_SIZE && |stale| >= HDR_LEN
    ensures HeaderSeen(Frame(REQUEST, key) + rest, stale) == CreatePckt(|key|, REQUEST)
    ensures Body(Frame(REQUEST, key) + rest) == key + rest
    ensures Payload(CreatePckt(|key|, REQUEST), key + rest) == key && Wanted(CreatePckt(|key|, REQUEST)) < READ_LIMIT
    ensures CString(key) == key
  {
    var hdr := CreatePckt(|key|, REQUEST);
    Assoc(Encode(hdr), key, rest);
    HeaderUnderstood(hdr, key + rest, stale);
    PayloadExact(key, rest);
    WholeString(key);
  }

  /** A collection whose lines are cut exactly and whose index leaves the last slot empty. */
  predicate WithinBounds(docs: seq<seq<Text>>) {
    && LinesFit(docs) && ShortTokens(AllOccs(CutDocs(docs)))
    && GoodRun(DYN_SIZE, AllOccs(CutDocs(docs)))
  }

  /** The index of a collection, and its file list. */
  function IndexOf(docs: seq<seq<Text>>): List<Word>
    requires WithinBounds(docs)
  {
    AddAll(DYN_SIZE, AllOccs(CutDocs(docs))).l
  }

  function FilesOf(names: seq<Text>): List<Text> {
    Appended(Fresh(10), names)
  }

  function Scan(docs: seq<seq<Text>>, key: Text): seq<(nat, seq<nat>)> {
    NaiveScan(WordDocs(docs), key)
  }

  function Posted(docs: seq<seq<Text>>, key: Text): seq<Doc> {
    PostingsOf(AllOccs(WordDocs(docs)), key)
  }

  lemma PostedScan(docs: seq<seq<Text>>, key: Text)
    ensures View(Posted(docs, key)) == Scan(docs, key)
    ensures forall d :: d in Posted(docs, key) ==> d.docId < |docs|
  {
    ScanAgrees(WordDocs(docs), key);
  }

  lemma QueryPosted(docs: seq<seq<Text>>, key: Text)
    requires WithinBounds(docs)
    ensures |IndexOf(docs).slots| == DYN_SIZE && !Lookup(IndexOf(docs).slots, key, Home(key, DYN_SIZE)).PastEnd?
    ensures Query(IndexOf(docs), key) == if Scan(docs, key) == [] then None else Some(Posted(docs, key))
  {
    var occs := AllOccs(CutDocs(docs));
    CutDocsExact(docs);
    IndexExact(DYN_SIZE, occs);
    QueryExact(IndexOf(docs), occs, key);
    LookupExact(IndexOf(docs).slots, key);
    PostedScan(docs, key);
    OccursIffPosted(occs, key);
  }

  lemma PostedPrinted(names: seq<Text>, docs: seq<seq<Text>>, key: Text)
    requires |names| == |docs|
    ensures Named(Posted(docs, key), FilesOf(names))
    ensures forall h :: h in Scan(docs, key) ==> h.0 < |names|
    ensures Printed(Posted(docs, key), FilesOf(names)) == Listing(Scan(docs, key), names)
  {
    NamesInOrder(10, names);
    PostedScan(docs, key);
    PrintedIsListing(Posted(docs, key), FilesOf(names), names);
  }

  /** What the reply should be, from the documents and their names alone. */
  function Expected(names: seq<Text>, docs: seq<seq<Text>>, key: Text): (r: Received)
    requires |names| == |docs|
    ensures r.Message? && (r.msgType == ERROR <==> Scan(docs, key) == [])
  {
    PostedPrinted(names, docs, key);
    if Scan(docs, key) == [] then Message(ERROR, [], []) else Message(RESPONSE, Listing(Scan(docs, key), names), [])
  }

  lemma ReplyReceived(msgType: Word32, payload: Text)
    requires |payload| <= DYN_SIZE
    ensures Receive(Frame(msgType, payload)) == Message(msgType, payload, [])
  {
    FrameRoundTrip(msgType, payload, []);
    assert Frame(msgType, payload) + [] == Frame(msgType, payload);
  }

  /** The reply the server computes for a word is what a scan of its documents asks for. */
  lemma RepliesAgree(names: seq<Text>, docs: seq<seq<Text>>, key: Text)
    requires |names| == |docs| && WithinBounds(docs)
    requires |Expected(names, docs, key).payload| <= DYN_SIZE
    ensures Query(IndexOf(docs), key).Some? ==> Named(Query(IndexOf(docs), key).value, FilesOf(names))
    ensures Receive(Respond(IndexOf(docs), FilesOf(names), key)) == Expected(names, docs, key)
    ensures (forall h :: h in Scan(docs, key) ==> h.0 < |names|)
    ensures Tells(Receive(Respond(IndexOf(docs), FilesOf(names), key)), names, docs, key) <==> PlainNames(Scan(docs, key), names)
  {
    QueryPosted(docs, key);
    PostedPrinted(names, docs, key);
    ReplyReceived(RESPONSE, Printed(Posted(docs, key), FilesOf(names)));
    ReplyReceived(ERROR, []);
    ExpectedTells(names, docs, key);
  }

  lemma ExpectedTells(names: seq<Text>, docs: seq<seq<Text>>, key: Text)
    requires |names| == |docs|
    ensures forall h :: h in Scan(docs, key) ==> h.0 < |names|
    ensures Tells(Expected(names, docs, key), names, docs, key) <==> PlainNames(Scan(docs, key), names)
  {
    ExpectedRead(names, docs, key);
  }

  lemma ScanIds(docs: seq<seq<Text>>, key: Text)
    ensures forall h :: h in Scan(docs, key) ==> h.0 < |docs| && h.1 != []
  {
    ScanEntries(WordDocs(docs), key);
  }

  /** The expected reply, read from its bytes, lists the places the scan finds. */
  lemma ExpectedRead(names: seq<Text>, docs: seq<seq<Text>>, key: Text)
    requires |names| == |docs|
    ensures forall h :: h in Scan(docs, key) ==> h.0 < |names|
    ensures ReadReply(Expected(names, docs, key).payload) == Places(Scan(docs, key), names) <==> PlainNames(Scan(docs, key), names)
  {
    ScanIds(docs, key);
    ListingRead(Scan(docs, key), names);
  }

  /** `r` is a reply that says exactly where a scan finds the word: an error if nowhere, otherwise
      text from which a client reads the places, in order. */
  ghost predicate Tells(r: Received, names: seq<Text>, docs: seq<seq<Text>>, key: Text)
    requires forall h :: h in Scan(docs, key) ==> h.0 < |names|
  {
    && r.Message? && r.rest == []
    && (if Scan(docs, key) == [] then r.msgType == 0x20 && r.payload == []
        else r.msgType == 0x11 && ReadReply(r.payload) == Places(Scan(docs, key), names))
  }

  /** Request to reply: for every collection within bounds and every word sent in a request whose
      listing fits the packet, the job may run, and the peer receives the listing of a scan for
      that word, or an error exactly if the scan finds nothing. The reply tells the peer the places
      if and only if none of the files it names has a newline in its name. */
  lemma SearchServed(names: seq<Text>, docs: seq<seq<Text>>, key: Text, rest: Text, stale: Text)
    requires |names| == |docs| && WithinBounds(docs)
    requires IsLine(key) && |key| <= DYN_SIZE && |stale| >= HDR_LEN
    requires |Expected(names, docs, key).payload| <= DYN_SIZE
    ensures forall h :: h in Scan(docs, key) ==> h.0 < |names|
    ensures var stream := Frame(REQUEST, key) + rest; var h := HeaderSeen(stream, stale);
      && h.msgType == REQUEST && Answerable(IndexOf(docs), FilesOf(names), h, Body(stream))
      && var reply := Receive(Answer(IndexOf(docs), FilesOf(names), stream, stale));
         && reply == Expected(names, docs, key)
         && (Tells(reply, names, docs, key) <==> PlainNames(Scan(docs, key), names))
  {
    RequestUnderstood(key, rest, stale);
    QueryPosted(docs, key);
    RepliesAgree(names, docs, key);
  }
}
