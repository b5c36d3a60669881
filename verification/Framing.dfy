/** The wire format: an 8-byte header, length and type in network order, then the payload; and
    the two loops that move bytes over a stream which splits reads and writes as it likes. */
module Framing {
  import opened Tokenizer

  const HDR_LEN := 8
  const REQUEST := 0x10
  const RESPONSE := 0x11
  const ERROR := 0x20
  const TWO32 := 0x1_0000_0000
  const TWO64 := 0x1_0000_0000_0000_0000

  // ----- the header ---------------------------------------------------------

  type Word32 = x: int | 0 <= x < 0x1_0000_0000

  datatype Hdr = Hdr(totLen: Word32, msgType: Word32)

  /** htonl, as the bytes it leaves in memory; and back. */
  function ToNetwork(x: Word32): (r: Text)
    ensures |r| == 4
  {
    var three := x / 0x100;
    var two := three / 0x100;
    [two / 0x100, two % 0x100, three % 0x100, x % 0x100]
  }

  function FromNetwork(b: Text): Word32
    requires |b| == 4
  {
    Horner(Horner(Horner(b[0], b[1]), b[2]), b[3])
  }

  function Horner(high: nat, low: Byte): nat {
    high * 0x100 + low
  }

  lemma HornerSplits(high: nat, low: Byte)
    ensures Horner(high, low) / 0x100 == high && Horner(high, low) % 0x100 == low
  {
  }

  lemma NetworkRoundTrip(x: Word32)
    ensures FromNetwork(ToNetwork(x)) == x
  {
    var three := x / 0x100;
    var two := three / 0x100;
    assert Horner(two / 0x100, two % 0x100) == two;
    assert Horner(two, three % 0x100) == three;
    assert Horner(three, x % 0x100) == x;
  }

  lemma NetworkExact(b: Text)
    requires |b| == 4
    ensures ToNetwork(FromNetwork(b)) == b
  {
    var two: nat := Horner(b[0], b[1]);
    var three: nat := Horner(two, b[2]);
    HornerSplits(b[0], b[1]);
    HornerSplits(two, b[2]);
    HornerSplits(three, b[3]);
  }

  function Encode(h: Hdr): (r: Text)
    ensures |r| == HDR_LEN
  {
    ToNetwork(h.totLen) + ToNetwork(h.msgType)
  }

  function Decode(b: Text): Hdr
    requires |b| == HDR_LEN
  {
    Hdr(FromNetwork(b[..4]), FromNetwork(b[4..]))
  }

  /** A header survives the wire, and every 8 bytes are a header. */
  lemma HeaderRoundTrip(h: Hdr, b: Text)
    requires |b| == HDR_LEN
    ensures Decode(Encode(h)) == h && Encode(Decode(b)) == b
  {
    assert Encode(h)[..4] == ToNetwork(h.totLen) && Encode(h)[4..] == ToNetwork(h.msgType);
    NetworkRoundTrip(h.totLen);
    NetworkRoundTrip(h.msgType);
    NetworkExact(b[..4]);
    NetworkExact(b[4..]);
    assert b == b[..4] + b[4..];
  }

  /** create_pckt; the total length is cut to 32 bits. */
  function CreatePckt(len: nat, msgType: Word32): Hdr {
    Hdr((len + HDR_LEN) % TWO32, msgType)
  }

  /** A 32-bit unsigned value as an int, and an int as a size_t. */
  function AsInt(x: Word32): int {
    if x < 0x8000_0000 then x else x - TWO32
  }

  function AsSize(x: int): nat
    requires -TWO32 <= x
  {
    if x >= 0 then x else TWO64 + x
  }

  /** How many bytes the receiver asks for after the header `h`: the difference is taken modulo
      2 to the 32, kept in an int, and passed on as a size_t. */
  function Wanted(h: Hdr): nat {
    AsSize(AsInt((h.totLen - HDR_LEN) % TWO32))
  }

  // ----- messages -----------------------------------------------------------

  function Frame(msgType: Word32, payload: Text): Text {
    Encode(CreatePckt(|payload|, msgType)) + payload
  }

  /** The number that four bytes of a stream stand for, most significant byte first. */
  function BigEndian(a: nat, b: nat, c: nat, d: nat): nat {
    0x100_0000 * a + 0x1_0000 * b + 0x100 * c + d
  }

  lemma NetworkBytes(x: Word32)
    ensures var b := ToNetwork(x); BigEndian(b[0], b[1], b[2], b[3]) == x
  {
  }

  /** The bytes of a message on the wire: its whole length, the header included, most significant
      byte first; its type in the same way; and the payload. */
  lemma FrameBytes(msgType: Word32, payload: Text)
    requires |payload| + 8 < 0x1_0000_0000
    ensures var f := Frame(msgType, payload);
      && |f| == |payload| + 8 && f[8..] == payload
      && BigEndian(f[0], f[1], f[2], f[3]) == |f|
      && BigEndian(f[4], f[5], f[6], f[7]) == msgType
  {
    var hdr := CreatePckt(|payload|, msgType);
    NetworkBytes(hdr.totLen);
    NetworkBytes(hdr.msgType);
    assert hdr.totLen == |payload| + 8;
  }

  /** A request for a word of 3 bytes, a reply of 15 and an error, byte by byte. */
  lemma FrameSamples(key: Text, payload: Text)
    requires |key| == 3 && |payload| == 15
    ensures Frame(REQUEST, key) == [0, 0, 0, 11, 0, 0, 0, 16] + key
    ensures Frame(RESPONSE, payload) == [0, 0, 0, 23, 0, 0, 0, 17] + payload
    ensures Frame(ERROR, []) == [0, 0, 0, 8, 0, 0, 0, 32]
  {
  }

  /** A read of this many bytes or more fails at once: the count does not fit the result. */
  const READ_LIMIT := 0x8000_0000_0000_0000

  /** What receiving a message off a stream that ends after `stream` gives: type, payload, and
      what is left of the stream; or an error when the payload is asked for. */
  datatype Received = Cut | Failed | Message(msgType: Word32, payload: Text, rest: Text)

  function Least(a: nat, b: nat): nat {
    if a < b then a else b
  }

  function Receive(stream: Text): Received {
    if |stream| < HDR_LEN then Cut
    else
      var h := Decode(stream[..HDR_LEN]);
      var n := Least(Wanted(h), |stream| - HDR_LEN);
      if Wanted(h) >= READ_LIMIT then Failed
      else Message(h.msgType, stream[HDR_LEN..HDR_LEN + n], stream[HDR_LEN + n..])
  }

  lemma WantedExact(len: nat, msgType: Word32)
    requires len + HDR_LEN < TWO32
    ensures Wanted(CreatePckt(len, msgType)) == if len < 0x8000_0000 then len else TWO64 - TWO32 + len
  {
    assert (len + HDR_LEN) % TWO32 == len + HDR_LEN;
  }

  lemma Splits(a: Text, b: Text, c: Text, k: nat)
    requires |a| <= k <= |a| + |b| + |c|
    ensures (a + b + c)[..|a|] == a
    ensures (a + b + c)[|a|..k] == (b + c)[..k - |a|] && (a + b + c)[k..] == (b + c)[k - |a|..]
  {
    assert a + b + c == a + (b + c);
  }

  /** A framed message is received byte for byte, with the stream at the byte after it, exactly
      if its length fits an int: a longer one turns negative in the receiver, which then asks for
      more than can be read and gets nothing. */
  lemma FrameRoundTrip(msgType: Word32, payload: Text, rest: Text)
    requires |payload| + HDR_LEN < TWO32
    ensures Receive(Frame(msgType, payload) + rest) == if |payload| < 0x8000_0000 then Message(msgType, payload, rest) else Failed
  {
    var hdr := CreatePckt(|payload|, msgType);
    var head := Encode(hdr);
    HeaderRoundTrip(hdr, head);
    WantedExact(|payload|, msgType);
    var n := Least(Wanted(hdr), |payload| + |rest|);
    Splits(head, payload, rest, HDR_LEN + n);
    if |payload| < 0x8000_0000 {
      assert (payload + rest)[..n] == payload && (payload + rest)[n..] == rest;
    }
  }

  /** Two gigabytes of zeros, with nothing after them, are framed but not received. */
  lemma LongPayloadFails()
    ensures var payload: Text := seq(0x8000_0000, _ => 0);
      |payload| + HDR_LEN < TWO32 && Receive(Frame(RESPONSE, payload) + []) == Failed
  {
    FrameRoundTrip(RESPONSE, seq(0x8000_0000, _ => 0), []);
  }

  /** Messages sent one after the other are received one after the other. */
  function Frames(msgs: seq<(Word32, Text)>): Text {
    if msgs == [] then [] else Frame(msgs[0].0, msgs[0].1) + Frames(msgs[1..])
  }

  function ReceiveAll(stream: Text): seq<(Word32, Text)>
    decreases |stream|
  {
    match Receive(stream)
    case Message(t, p, rest) => [(t, p)] + ReceiveAll(rest)
    case _ => []
  }

  lemma {:induction false} ConversationKept(msgs: seq<(Word32, Text)>)
    requires forall k :: 0 <= k < |msgs| ==> |msgs[k].1| < 0x8000_0000
    ensures ReceiveAll(Frames(msgs)) == msgs
    decreases |msgs|
  {
    if msgs != [] {
      var rest := msgs[1..];
      assert |msgs[0].1| < 0x8000_0000;
      FrameRoundTrip(msgs[0].0, msgs[0].1, Frames(rest));
      ConversationKept(rest);
      assert msgs == [msgs[0]] + rest;
    }
  }

  // ----- the loops ----------------------------------------------------------

  /** What the system may answer to a read or a write of `n` bytes. */
  predicate MayRead(k: int, n: nat, stream: Text) {
    -1 <= k <= n && k <= |stream| && (k == 0 ==> stream == []) && (n >= READ_LIMIT ==> k == -1)
  }

  predicate MayWrite(k: int, n: nat) {
    k == -1 || 1 <= k <= n
  }

  /** One end of a connection. `incoming` is all the peer still has for this side before it stops
      sending; `outgoing` is what this side has written. */
  class Socket {
    const soundReads: bool    // whether reads that can be made never fail
    const soundWrites: bool   // whether writes never fail
    var incoming: Text
    var outgoing: Text

    constructor (stream: Text, soundReads: bool, soundWrites: bool)
      ensures this.soundReads == soundReads && this.soundWrites == soundWrites && incoming == stream && outgoing == []
    {
      this.soundReads, this.soundWrites := soundReads, soundWrites;
      incoming := stream;
      outgoing := [];
    }

    /** read: an error, the end of the stream, or any positive number of the bytes asked for. */
    method Read(buf: array<Byte>, from: nat, n: nat) returns (k: int)
      requires n > 0 && from + Least(n, |incoming|) <= buf.Length
      modifies this`incoming, buf
      ensures MayRead(k, n, old(incoming)) && (soundReads && n < READ_LIMIT ==> k >= 0)
      ensures incoming == if k < 0 then old(incoming) else old(incoming)[k..]
      ensures forall j :: 0 <= j < buf.Length ==>
        buf[j] == if from <= j < from + k then old(incoming)[j - from] else old(buf[j])
    {
      k := *;
      if !MayRead(k, n, incoming) || (soundReads && k < 0) {
        k := if soundReads && n < READ_LIMIT then Least(n, |incoming|) else -1;
      }
      if k >= 0 {
        forall j | 0 <= j < k { buf[from + j] := incoming[j]; }
        incoming := incoming[k..];
      }
    }

    /** write: an error, or any positive number of the bytes offered. */
    method Write(buf: array<Byte>, from: nat, n: nat) returns (k: int)
      requires n > 0 && from + n <= buf.Length
      modifies this`outgoing
      ensures MayWrite(k, n) && (soundWrites ==> k >= 0)
      ensures outgoing == old(outgoing) + if k < 0 then [] else buf[from..from + k]
    {
      k := *;
      if !MayWrite(k, n) || (soundWrites && k < 0) {
        k := if soundWrites then n else -1;
      }
      if k >= 0 {
        outgoing := outgoing + buf[from..from + k];
      }
    }

    /** recv_from_host. A result that is not negative is the number of bytes received: as many as
        asked for, or all there are. In every case the buffer holds, in order, exactly the bytes
        that left the stream. */
    method RecvFromHost(buf: array<Byte>, len: nat) returns (r: int)
      requires Least(len, |incoming|) <= buf.Length
      modifies this`incoming, buf
      ensures (r < 0 && (!soundReads || len >= READ_LIMIT)) || r == Least(len, old(|incoming|))
      ensures len >= READ_LIMIT ==> r < 0 && incoming == old(incoming)
      ensures |incoming| <= old(|incoming|) && |incoming| + Least(len, old(|incoming|)) >= old(|incoming|)
      ensures var got := old(|incoming|) - |incoming|;
        && (r >= 0 ==> got == r)
        && buf[..got] == old(incoming)[..got] && incoming == old(incoming)[got..]
        && buf[got..] == old(buf[got..])
    {
      var rd := 0;
      var rem: nat := len;
      while rem > 0
        invariant 0 <= rd <= old(|incoming|) && rd + rem == len && (len >= READ_LIMIT ==> rd == 0)
        invariant incoming == old(incoming)[rd..]
        invariant forall j :: 0 <= j < buf.Length ==> buf[j] == if j < rd then old(incoming)[j] else old(buf[j])
      {
        var tmp := Read(buf, rd, rem);
        if tmp < 0 {
          return tmp;
        }
        rem := rem - tmp;
        rd := rd + tmp;
        if tmp == 0 {
          return rd;
        }
      }
      r := rd;
    }

    /** send_to_host: all of the bytes, or an error after some of them. */
    method SendToHost(buf: array<Byte>, len: nat) returns (r: int)
      requires len <= buf.Length
      modifies this`outgoing
      ensures (r == -1 && !soundWrites) || r == len
      ensures r >= 0 ==> outgoing == old(outgoing) + buf[..len]
      ensures old(|outgoing|) <= |outgoing| <= old(|outgoing|) + len
      ensures outgoing == old(outgoing) + buf[..|outgoing| - old(|outgoing|)]
    {
      var sent := 0;
      var rem: nat := len;
      assert outgoing == outgoing + buf[..0];
      while rem > 0
        invariant 0 <= sent && sent + rem == len
        invariant outgoing == old(outgoing) + buf[..sent]
      {
        var tmp := Write(buf, sent, rem);
        if tmp < 0 {
          return tmp;
        }
        assert buf[..sent] + buf[sent..sent + tmp] == buf[..sent + tmp];
        rem := rem - tmp;
        sent := sent + tmp;
      }
      r := sent;
    }

    /** A header made by create_pckt, then the payload. Whether the first send failed is not looked
        at before the second. */
    method SendMessage(msgType: Word32, payload: array<Byte>, len: nat)
      requires len <= payload.Length
      modifies this`outgoing
      ensures Partly(old(outgoing), Encode(CreatePckt(len, msgType)), payload[..len], outgoing)
      ensures soundWrites ==> outgoing == old(outgoing) + Frame(msgType, payload[..len])
    {
      ghost var before := outgoing;
      var hdr := Encode(CreatePckt(len, msgType));
      var header := new Byte[HDR_LEN](i requires 0 <= i < HDR_LEN => hdr[i]);
      assert header[..HDR_LEN] == hdr;
      var r := SendToHost(header, HDR_LEN);
      ghost var j := |outgoing| - |before|;
      assert header[..j] == hdr[..j];
      ghost var between := outgoing;
      r := SendToHost(payload, len);
      ghost var k := |outgoing| - |between|;
      assert payload[..k] == payload[..len][..k];
      assert outgoing == before + hdr[..j] + payload[..len][..k];
    }
  }

  /** What is on the wire after `before` is a part of the header, from its start, and then a part of
      the payload, from its start. */
  ghost predicate Partly(before: Text, header: Text, payload: Text, out: Text) {
    exists j, k :: 0 <= j <= |header| && 0 <= k <= |payload| && out == before + header[..j] + payload[..k]
  }
}
