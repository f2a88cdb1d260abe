/** The incremental parser of the session: a stream of packets, each an 8-byte header and a payload, arriving in chunks
    cut anywhere. */
module PacketParser {
  import opened Numbers
  import opened LittleEndian

  const HEADER: nat := 8        // sizeof(PacketHeader)
  const RECV_BUFFER: nat := 4096
  const PACKET_BUFFER: nat := 1024

  datatype Packet = Packet(command: u16, data: Bytes)

  function Size(header: Bytes): nat {
    if |header| < 4 then 0 else Dec(header[..4])
  }

  function Command(header: Bytes): u16 {
    if |header| < 6 then 0 else Word(header[4..6])
  }

  function Word(b: Bytes): u16
    requires |b| == 2
  {
    b[0] as int + 256 * b[1] as int
  }

  predicate ValidHeader(header: Bytes) {
    Size(header) < 0x1_0000 && Command(header) < 1024
  }

  /** What the session keeps between chunks: the bytes of the header so far, those of the payload so far and the size
      of the payload buffer, and the packets handed over. */
  datatype Parser = Parser(header: Bytes, payload: Bytes, size: nat, delivered: seq<Packet>)

  predicate Fits(p: Parser) {
    |p.header| <= HEADER && |p.payload| <= p.size
  }

  /** `stopped`: a malformed header was met and the rest of the chunk dropped. */
  datatype Fed = Fed(p: Parser, stopped: bool)

  function Deliver(p: Parser): Parser {
    p.(header := [], delivered := p.delivered + [Packet(Command(p.header), p.payload)])
  }

  /** One chunk. */
  function Feed(p: Parser, b: Bytes): (r: Fed)
    requires Fits(p)
    ensures Fits(r.p)
    decreases |b|, if |p.header| == HEADER then 1 else 0, 1
  {
    if b == [] then Fed(p, false)
    else if |p.header| < HEADER then
      var n := Min(|b|, HEADER - |p.header|);
      var h := p.header + b[..n];
      if |h| < HEADER then Fed(p.(header := h), false)
      else if !ValidHeader(h) then Fed(p.(header := h), true)
      else FeedPayload(p.(header := h, payload := [], size := Size(h)), b[n..])
    else FeedPayload(p, b)
  }

  function FeedPayload(p: Parser, b: Bytes): (r: Fed)
    requires Fits(p) && |p.header| == HEADER
    ensures Fits(r.p)
    decreases |b|, 1, 0
  {
    var n := Min(|b|, p.size - |p.payload|);
    var q := p.(payload := p.payload + b[..n]);
    if |q.payload| < p.size then Fed(q, false) else Feed(Deliver(q), b[n..])
  }

  // ---------- chunks ----------

  /** The same bytes in one chunk or in two make no difference, unless the first one is cut off by a malformed
      header: then the one chunk loses the second half. */
  lemma {:induction false} FeedSplit(p: Parser, a: Bytes, b: Bytes)
    requires Fits(p)
    ensures Feed(p, a + b) == if Feed(p, a).stopped then Feed(p, a) else Feed(Feed(p, a).p, b)
    decreases |a|, if |p.header| == HEADER then 1 else 0, 1
  {
    if a == [] {
      assert a + b == b;
    } else if |p.header| < HEADER {
      var k := HEADER - |p.header|;
      if |a| < k {
        FeedHeaderPart(p, a, b);
      } else {
        var h := p.header + a[..k];
        assert (a + b)[..k] == a[..k] && (a + b)[k..] == a[k..] + b;
        if ValidHeader(h) {
          FeedPayloadSplit(p.(header := h, payload := [], size := Size(h)), a[k..], b);
        }
      }
    } else {
      FeedPayloadSplit(p, a, b);
    }
  }

  lemma FeedHeaderPart(p: Parser, a: Bytes, b: Bytes)
    requires Fits(p) && a != [] && |p.header| + |a| < HEADER
    ensures Feed(p, a) == Fed(p.(header := p.header + a), false)
    ensures Feed(p, a + b) == Feed(p.(header := p.header + a), b)
  {
    hide FeedPayload, ValidHeader, Size;
    assert a[..|a|] == a;
    var r := p.(header := p.header + a);
    if b == [] {
      assert a + b == a;
    } else {
      var m := Min(|b|, HEADER - |r.header|);
      assert (a + b)[..|a| + m] == a + b[..m] && (a + b)[|a| + m..] == b[m..];
      assert p.header + (a + b[..m]) == r.header + b[..m];
    }
  }

  lemma {:induction false} FeedPayloadSplit(p: Parser, a: Bytes, b: Bytes)
    requires Fits(p) && |p.header| == HEADER
    ensures FeedPayload(p, a + b)
         == if FeedPayload(p, a).stopped then FeedPayload(p, a) else Feed(FeedPayload(p, a).p, b)
    decreases |a|, 1, 0
  {
    var k := p.size - |p.payload|;
    if |a| < k {
      FeedPayloadPart(p, a, b);
    } else {
      assert (a + b)[..k] == a[..k] && (a + b)[k..] == a[k..] + b;
      FeedSplit(Deliver(p.(payload := p.payload + a[..k])), a[k..], b);
    }
  }

  lemma FeedPayloadPart(p: Parser, a: Bytes, b: Bytes)
    requires Fits(p) && |p.header| == HEADER && |p.payload| + |a| < p.size
    ensures FeedPayload(p, a) == Fed(p.(payload := p.payload + a), false)
    ensures FeedPayload(p, a + b) == Feed(p.(payload := p.payload + a), b)
  {
    hide Deliver;
    assert a[..|a|] == a;
    var r := p.(payload := p.payload + a);
    if b == [] {
      assert a + b == a;
    } else {
      var m := Min(|b|, r.size - |r.payload|);
      assert (a + b)[..|a| + m] == a + b[..m] && (a + b)[|a| + m..] == b[m..];
      assert p.payload + (a + b[..m]) == r.payload + b[..m];
    }
  }

  lemma {:induction false} DeliveredGrows(p: Parser, b: Bytes)
    requires Fits(p)
    ensures p.delivered <= Feed(p, b).p.delivered
    decreases |b|, if |p.header| == HEADER then 1 else 0, 1
  {
    if b != [] {
      if |p.header| < HEADER {
        var n := Min(|b|, HEADER - |p.header|);
        var h := p.header + b[..n];
        if |h| == HEADER && ValidHeader(h) {
          DeliveredGrowsPayload(p.(header := h, payload := [], size := Size(h)), b[n..]);
        }
      } else {
        DeliveredGrowsPayload(p, b);
      }
    }
  }

  lemma {:induction false} DeliveredGrowsPayload(p: Parser, b: Bytes)
    requires Fits(p) && |p.header| == HEADER
    ensures p.delivered <= FeedPayload(p, b).p.delivered
    ensures |p.payload| == p.size ==> p.delivered < FeedPayload(p, b).p.delivered
    decreases |b|, 1, 0
  {
    var n := Min(|b|, p.size - |p.payload|);
    if |p.payload| + n == p.size {
      DeliveredGrows(Deliver(p.(payload := p.payload + b[..n])), b[n..]);
    }
  }

  lemma {:induction false} StoppedIsFull(p: Parser, b: Bytes)
    requires Fits(p) && Feed(p, b).stopped
    ensures |Feed(p, b).p.header| == HEADER
    decreases |b|, if |p.header| == HEADER then 1 else 0
  {
    var n := if |p.header| < HEADER then Min(|b|, HEADER - |p.header|) else 0;
    var q := if |p.header| < HEADER then p.(header := p.header + b[..n], payload := [], size := Size(p.header + b[..n])) else p;
    if |q.header| == HEADER && (|p.header| == HEADER || ValidHeader(q.header)) {
      var m := Min(|b| - n, q.size - |q.payload|);
      var r := q.(payload := q.payload + b[n..][..m]);
      if |r.payload| == r.size {
        StoppedIsFull(Deliver(r), b[n..][m..]);
      }
    }
  }

  /** A parser with a full header never stands still. */
  lemma FullMoves(p: Parser, b: Bytes)
    requires Fits(p) && |p.header| == HEADER && b != []
    ensures Feed(p, b).p != p
  {
    if |p.payload| + |b| < p.size {
      assert b[..|b|] == b;
    } else {
      var n := p.size - |p.payload|;
      DeliveredGrows(Deliver(p.(payload := p.payload + b[..n])), b[n..]);
    }
  }

  /** Exactly when two chunks may be joined. */
  lemma ChunksJoin(p: Parser, a: Bytes, b: Bytes)
    requires Fits(p)
    ensures Feed(p, a + b).p == Feed(Feed(p, a).p, b).p <==> !Feed(p, a).stopped || b == []
  {
    FeedSplit(p, a, b);
    if Feed(p, a).stopped && b != [] {
      StoppedIsFull(p, a);
      FullMoves(Feed(p, a).p, b);
    }
  }

  /** Eight bytes of a header whose size is out of range, and one byte more: in one chunk the byte is lost, in a chunk
      of its own it is read as payload. */
  lemma BadHeaderSplits(p: Parser)
    requires Fits(p) && p.header == []
    ensures var bad: Bytes := [0, 0, 1, 0, 0, 0, 0, 0];
      Feed(p, bad).stopped && Feed(p, bad + [0]).p != Feed(Feed(p, bad).p, [0]).p
  {
    var bad: Bytes := [0, 0, 1, 0, 0, 0, 0, 0];
    assert bad[..4] == [0, 0, 1, 0];
    assert Size(bad) == 0x1_0000 by {
      assert [0 as u8, 0, 1, 0][1..] == [0, 1, 0] && [0 as u8, 1, 0][1..] == [1, 0] && [1 as u8, 0][1..] == [0];
      assert Dec([0]) == 0 && Dec([1, 0]) == 1 && Dec([0, 1, 0]) == 256;
    }
    assert bad[..HEADER] == bad && [] + bad == bad;
    assert Feed(p, bad).stopped by { hide Size, Command, FeedPayload; }
    ChunksJoin(p, bad, [0]);
  }

  /** A complete header is accepted exactly when its first four bytes stand for less than 65536 and the next two for less
      than 1024; otherwise nothing more of the chunk is read, nothing is delivered, and the header stays. */
  lemma HeaderRefused(p: Parser, h: Bytes, b: Bytes)
    requires Fits(p) && p.header == [] && |h| == HEADER
    ensures var size, command := Four(h, 0), Two(h, 4);
      if size >= 0x1_0000 || command >= 1024 then Feed(p, h + b) == Fed(p.(header := h), true)
      else Feed(p, h + b) == FeedPayload(p.(header := h, payload := [], size := size), b)
  {
    DecFour(h, 0);
    assert h[..4] == h[0..4] && h[4..6][0] == h[4] && h[4..6][1] == h[5];
    hide FeedPayload, Size;
    assert (h + b)[..HEADER] == h && (h + b)[HEADER..] == b && p.header + h == h;
  }

  /** A series of chunks. */
  function FeedAll(p: Parser, chunks: seq<Bytes>): (r: Parser)
    requires Fits(p)
    ensures Fits(r)
    decreases |chunks|
  {
    if chunks == [] then p else FeedAll(Feed(p, chunks[0]).p, chunks[1..])
  }

  function Flatten(chunks: seq<Bytes>): Bytes {
    if chunks == [] then [] else chunks[0] + Flatten(chunks[1..])
  }

  lemma {:induction false} FeedAllIsFeed(p: Parser, chunks: seq<Bytes>)
    requires Fits(p) && !Feed(p, Flatten(chunks)).stopped
    ensures FeedAll(p, chunks) == Feed(p, Flatten(chunks)).p
    decreases |chunks|
  {
    assert Feed(p, []) == Fed(p, false);
    hide Feed;
    if chunks != [] {
      FeedSplit(p, chunks[0], Flatten(chunks[1..]));
      FeedAllIsFeed(Feed(p, chunks[0]).p, chunks[1..]);
    }
  }

  // ---------- streams of valid packets ----------

  /** A packet as its sender lays it out; the two bytes of padding in the header may be anything. */
  datatype Framed = Framed(packet: Packet, pad: Bytes)

  predicate ValidPacket(f: Framed) {
    f.packet.command < 1024 && |f.packet.data| < 0x1_0000 && |f.pad| == 2
  }

  function EncodeHeader(f: Framed): Bytes {
    Enc(|f.packet.data|, 4) + Enc(f.packet.command, 2) + f.pad
  }

  function Stream(fs: seq<Framed>): Bytes {
    if fs == [] then [] else EncodeHeader(fs[0]) + fs[0].packet.data + Stream(fs[1..])
  }

  function Packets(fs: seq<Framed>): seq<Packet> {
    seq(|fs|, i requires 0 <= i < |fs| => fs[i].packet)
  }

  lemma HeaderReads(f: Framed)
    requires ValidPacket(f)
    ensures var h := EncodeHeader(f);
      |h| == HEADER && ValidHeader(h) && Size(h) == |f.packet.data| && Command(h) == f.packet.command
  {
    var h := EncodeHeader(f);
    DecEnc32(|f.packet.data|);
    assert h[..4] == Enc(|f.packet.data|, 4);
    assert h[4..6] == Enc(f.packet.command, 2);
    WordEnc(f.packet.command);
  }

  lemma WordEnc(x: u16)
    ensures Word(Enc(x, 2)) == x
  {
    assert Enc(x, 2) == [x % 256] + Enc(x / 256, 1);
    assert Enc(x / 256, 1) == [x / 256 % 256] + Enc(x / 256 / 256, 0);
  }

  lemma FeedHeader(p: Parser, h: Bytes, b: Bytes)
    requires Fits(p) && p.header == [] && |h| == HEADER && ValidHeader(h)
    ensures Feed(p, h + b) == FeedPayload(p.(header := h, payload := [], size := Size(h)), b)
  {
    hide FeedPayload, ValidHeader, Size;
    assert (h + b)[..HEADER] == h && (h + b)[HEADER..] == b && p.header + h == h;
  }

  lemma FeedData(p: Parser, d: Bytes, b: Bytes)
    requires Fits(p) && |p.header| == HEADER && p.payload == [] && p.size == |d|
    ensures FeedPayload(p, d + b) == Feed(Deliver(p.(payload := d)), b)
  {
    hide Feed;
    assert (d + b)[..|d|] == d && (d + b)[|d|..] == b && p.payload + d == d;
  }

  lemma FeedPacket(p: Parser, f: Framed, rest: Bytes)
    requires Fits(p) && p.header == [] && ValidPacket(f)
    ensures var q := Parser([], f.packet.data, |f.packet.data|, p.delivered + [f.packet]);
      Feed(p, EncodeHeader(f) + f.packet.data + rest) == Feed(q, rest)
  {
    HeaderReads(f);
    hide Feed, FeedPayload, EncodeHeader, Size, Command, ValidHeader;
    var h, d := EncodeHeader(f), f.packet.data;
    assert h + d + rest == h + (d + rest);
    FeedHeader(p, h, d + rest);
    FeedData(p.(header := h, payload := [], size := |d|), d, rest);
  }

  lemma PacketsFirst(fs: seq<Framed>)
    requires fs != []
    ensures Packets(fs) == [fs[0].packet] + Packets(fs[1..])
  {
  }

  /** The parser is the inverse of the layout. */
  lemma {:induction false} StreamParses(p: Parser, fs: seq<Framed>)
    requires Fits(p) && p.header == [] && forall f <- fs :: ValidPacket(f)
    ensures !Feed(p, Stream(fs)).stopped && Feed(p, Stream(fs)).p.header == []
    ensures Feed(p, Stream(fs)).p.delivered == p.delivered + Packets(fs)
    decreases |fs|
  {
    if fs != [] {
      var f := fs[0];
      FeedPacket(p, f, Stream(fs[1..]));
      hide Feed, FeedPayload, EncodeHeader, ValidPacket;
      PacketsFirst(fs);
      hide Packets;
      StreamParses(Parser([], f.packet.data, |f.packet.data|, p.delivered + [f.packet]), fs[1..]);
    }
  }

  /** A stream of valid packets is delivered packet for packet, however it is cut into chunks. */
  lemma ChunksParse(p: Parser, fs: seq<Framed>, chunks: seq<Bytes>)
    requires Fits(p) && p.header == [] && (forall f <- fs :: ValidPacket(f)) && Flatten(chunks) == Stream(fs)
    ensures FeedAll(p, chunks).delivered == p.delivered + Packets(fs) && FeedAll(p, chunks).header == []
  {
    StreamParses(p, fs);
    FeedAllIsFeed(p, chunks);
  }

  /** And at any moment, what was delivered is the beginning of what was sent. */
  lemma PrefixParses(p: Parser, fs: seq<Framed>, chunks: seq<Bytes>)
    requires Fits(p) && p.header == [] && (forall f <- fs :: ValidPacket(f)) && Flatten(chunks) <= Stream(fs)
    ensures FeedAll(p, chunks).delivered <= p.delivered + Packets(fs)
  {
    StreamParses(p, fs);
    var a, b := Flatten(chunks), Stream(fs)[|Flatten(chunks)|..];
    assert a + b == Stream(fs);
    FeedSplit(p, a, b);
    FeedAllIsFeed(p, chunks);
    DeliveredGrows(Feed(p, a).p, b);
  }

  // ---------- the buffers ----------

  class MessageBuffer {
    var storage: Bytes
    var wpos: nat
    var rpos: nat

    ghost predicate Valid()
      reads this
    {
      rpos <= wpos <= |storage|
    }

    /** The bytes written and not yet read. */
    function Active(): Bytes
      requires Valid()
      reads this
    {
      storage[rpos..wpos]
    }

    function ActiveSize(): nat
      requires Valid()
      reads this
    {
      wpos - rpos
    }

    function RemainingSpace(): nat
      requires Valid()
      reads this
    {
      |storage| - wpos
    }

    constructor (initialSize: nat)
      ensures Valid() && wpos == rpos == 0 && |storage| == initialSize
    {
      storage := seq(initialSize, _ => 0);
      wpos, rpos := 0, 0;
    }

    method Reset()
      modifies this`wpos, this`rpos
      ensures Valid() && wpos == rpos == 0
    {
      wpos, rpos := 0, 0;
    }

    /** vector::resize, whatever the cursors: what is left of the storage keeps its contents, and the buffer stays
        valid exactly when the write cursor still lies within it. */
    method Resize(bytes: nat)
      requires Valid()
      modifies this`storage
      ensures |storage| == bytes && storage[..Min(bytes, |old(storage)|)] == old(storage)[..Min(bytes, |old(storage)|)]
      ensures Valid() <==> wpos <= bytes
      ensures wpos <= bytes ==> Active() == old(Active())
    {
      storage := if bytes <= |storage| then storage[..bytes] else storage + seq(bytes - |storage|, _ => 0);
    }

    method ReadCompleted(bytes: nat)
      requires Valid() && bytes <= ActiveSize()
      modifies this`rpos
      ensures Valid() && Active() == old(Active())[bytes..]
    {
      rpos := rpos + bytes;
    }

    /** The copy stays inside the storage: that is the precondition, met at every call. */
    method Write(data: Bytes)
      requires Valid() && |data| <= RemainingSpace()
      modifies this`storage, this`wpos
      ensures Valid() && Active() == old(Active()) + data && |storage| == old(|storage|)
    {
      if |data| != 0 {
        storage := storage[..wpos] + data + storage[wpos + |data|..];
        wpos := wpos + |data|;
      }
    }
  }

  // ---------- the session ----------

  class Session {
    const headerBuffer: MessageBuffer
    const packetBuffer: MessageBuffer
    const readBuffer: MessageBuffer
    var delivered: seq<Packet>  // what the packet handler, which accepts everything, was called with

    ghost predicate Valid()
      reads this, headerBuffer, packetBuffer, readBuffer
    {
      && headerBuffer != packetBuffer && headerBuffer != readBuffer && packetBuffer != readBuffer
      && headerBuffer.Valid() && packetBuffer.Valid() && readBuffer.Valid()
      && headerBuffer.rpos == 0 && |headerBuffer.storage| == HEADER
      && packetBuffer.rpos == 0
      && |readBuffer.storage| == RECV_BUFFER
    }

    ghost function Value(): (p: Parser)
      requires Valid()
      reads this, headerBuffer, packetBuffer, readBuffer
      ensures Fits(p)
    {
      Parser(headerBuffer.Active(), packetBuffer.Active(), |packetBuffer.storage|, delivered)
    }

    constructor ()
      ensures Valid() && Value() == Parser([], [], PACKET_BUFFER, []) && readBuffer.wpos == 0
      ensures fresh(headerBuffer) && fresh(packetBuffer) && fresh(readBuffer)
    {
      headerBuffer := new MessageBuffer(HEADER);
      packetBuffer := new MessageBuffer(PACKET_BUFFER);
      readBuffer := new MessageBuffer(RECV_BUFFER);
      delivered := [];
    }

    method ReadHeaderHandler() returns (ok: bool)
      requires Valid() && headerBuffer.RemainingSpace() == 0
      modifies packetBuffer
      ensures Valid()
      ensures ok == ValidHeader(headerBuffer.Active())
      ensures Value() == if ok then old(Value()).(payload := [], size := Size(headerBuffer.Active())) else old(Value())
    {
      ok := ValidHeader(headerBuffer.Active());
      if ok {
        packetBuffer.Reset();
        packetBuffer.Resize(Size(headerBuffer.Active()));
      }
    }

    method ReadDataHandler()
      requires Valid()
      modifies this
      ensures Valid()
      ensures Value() == old(Value()).(delivered :=
        old(delivered) + [Packet(Command(headerBuffer.Active()), packetBuffer.Active())])
    {
      delivered := delivered + [Packet(Command(headerBuffer.Active()), packetBuffer.Active())];
    }

    /** Moves at most as many bytes as fit. */
    method Move(to: MessageBuffer)
      requires Valid() && (to == headerBuffer || to == packetBuffer)
      modifies to, readBuffer
      ensures Valid() && |to.storage| == old(|to.storage|)
      ensures var n := Min(old(|readBuffer.Active()|), old(to.RemainingSpace()));
        && to.Active() == old(to.Active()) + old(readBuffer.Active())[..n]
        && readBuffer.Active() == old(readBuffer.Active())[n..]
    {
      var n := Min(readBuffer.ActiveSize(), to.RemainingSpace());
      to.Write(readBuffer.Active()[..n]);
      readBuffer.ReadCompleted(n);
    }

    /** The header's share of a turn; `more` unless the bytes ran out or the header is malformed. */
    method ReadHeader() returns (more: bool)
      requires Valid() && readBuffer.ActiveSize() > 0
      modifies headerBuffer, packetBuffer, readBuffer
      ensures Valid() && headerBuffer.ActiveSize() >= old(headerBuffer.ActiveSize())
      ensures readBuffer.ActiveSize() <= old(readBuffer.ActiveSize())
      ensures old(headerBuffer.ActiveSize()) < HEADER ==> readBuffer.ActiveSize() < old(readBuffer.ActiveSize())
      ensures if more then headerBuffer.ActiveSize() == HEADER
                           && FeedPayload(Value(), readBuffer.Active()) == Feed(old(Value()), old(readBuffer.Active()))
              else Value() == Feed(old(Value()), old(readBuffer.Active())).p
    {
      hide FeedPayload, ValidHeader, Size;
      more := true;
      if headerBuffer.RemainingSpace() > 0 {
        Move(headerBuffer);
        if headerBuffer.RemainingSpace() > 0 {
          return false;
        }
        more := ReadHeaderHandler();
      }
    }

    /** The payload's share. */
    method ReadPayload() returns (more: bool)
      requires Valid() && headerBuffer.ActiveSize() == HEADER
      modifies this, headerBuffer, packetBuffer, readBuffer
      ensures Valid() && readBuffer.ActiveSize() <= old(readBuffer.ActiveSize())
      ensures if more then headerBuffer.ActiveSize() == 0
                           && Feed(Value(), readBuffer.Active()) == FeedPayload(old(Value()), old(readBuffer.Active()))
              else Value() == FeedPayload(old(Value()), old(readBuffer.Active())).p
    {
      hide Feed;
      ghost var p, b := Value(), readBuffer.Active();
      assert p.payload + b[..0] == p.payload && b[0..] == b;
      if packetBuffer.RemainingSpace() > 0 {
        Move(packetBuffer);
        if packetBuffer.RemainingSpace() > 0 {
          return false;
        }
      }
      ReadDataHandler();
      headerBuffer.Reset();
      more := true;
    }

    /** Consumes the read buffer as the chunk it is. */
    method ReadHandler()
      requires Valid()
      modifies this, headerBuffer, packetBuffer, readBuffer
      ensures Valid()
      ensures Value() == Feed(old(Value()), old(readBuffer.Active())).p
    {
      assert readBuffer.Active() == [] ==> Feed(Value(), readBuffer.Active()) == Fed(Value(), false);
      while readBuffer.ActiveSize() > 0
        invariant Valid()
        invariant Feed(Value(), readBuffer.Active()) == Feed(old(Value()), old(readBuffer.Active()))
        decreases readBuffer.ActiveSize(), headerBuffer.ActiveSize()
      {
        hide Feed, FeedPayload;
        var more := ReadHeader();
        if !more {
          return;
        }
        more := ReadPayload();
        if !more {
          return;
        }
      }
    }

    /** What is received goes through the read buffer, which is empty before and after. */
    method OnReceive(chunk: Bytes)
      requires Valid() && readBuffer.wpos == 0 && |chunk| <= readBuffer.RemainingSpace()
      modifies this, headerBuffer, packetBuffer, readBuffer
      ensures Valid() && readBuffer.wpos == 0
      ensures Value() == Feed(old(Value()), chunk).p
    {
      if |chunk| > 0 {
        readBuffer.Write(chunk);
        assert readBuffer.Active() == chunk;
        assert Value() == old(Value());
        ReadHandler();
        readBuffer.Reset();
      }
    }
  }
}
