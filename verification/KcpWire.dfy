/** The segment format of the wire, the loop that takes a datagram apart, and the packing of segments
    into datagrams of at most mtu bytes. */
module KcpWire {
  import opened Numbers
  import opened LittleEndian

  const CMD_PUSH: u8 := 81
  const CMD_ACK: u8 := 82
  const CMD_WASK: u8 := 83
  const CMD_WINS: u8 := 84
  const OVERHEAD: nat := 24

  /** A segment as it travels; the conversation number is the same for all segments of a control block. */
  datatype Wire = Wire(cmd: u8, frg: u8, wnd: u16, ts: u32, sn: u32, una: u32, data: Bytes)

  predicate KnownCmd(cmd: u8) {
    cmd == CMD_PUSH || cmd == CMD_ACK || cmd == CMD_WASK || cmd == CMD_WINS
  }

  /** Segments the decoder can accept: a known command and a length that is not negative as a C int. */
  predicate Sendable(w: Wire) {
    KnownCmd(w.cmd) && |w.data| < 0x8000_0000
  }

  // ---------- one segment ----------

  function EncodeHeader(conv: u32, w: Wire): (b: Bytes)
    ensures |b| == OVERHEAD
  {
    Enc(conv, 4) + [w.cmd, w.frg] + Enc(w.wnd, 2) + Enc(w.ts, 4) + Enc(w.sn, 4) + Enc(w.una, 4) + Enc(Wrap(|w.data|), 4)
  }

  function Encode(conv: u32, w: Wire): (b: Bytes)
    ensures |b| == OVERHEAD + |w.data|
  {
    EncodeHeader(conv, w) + w.data
  }

  /** The fields ikcp_input reads from the first 24 bytes. */
  datatype Header = Header(conv: u32, cmd: u8, frg: u8, wnd: u16, ts: u32, sn: u32, una: u32, len: u32)

  function DecodeHeader(b: Bytes): Header
    requires |b| >= OVERHEAD
  {
    Header(Wrap(Dec(b[0..4])), b[4], b[5], Dec(b[6..8]) % 0x1_0000, Wrap(Dec(b[8..12])), Wrap(Dec(b[12..16])),
           Wrap(Dec(b[16..20])), Wrap(Dec(b[20..24])))
  }

  lemma DecodeHeaderEncode(conv: u32, w: Wire, rest: Bytes)
    requires Sendable(w)
    ensures DecodeHeader(EncodeHeader(conv, w) + rest) == Header(conv, w.cmd, w.frg, w.wnd, w.ts, w.sn, w.una, |w.data|)
  {
    hide Dec, Enc;
    DecEnc32(conv);
    DecEnc16(w.wnd);
    DecEnc32(w.ts);
    DecEnc32(w.sn);
    DecEnc32(w.una);
    DecEnc32(|w.data|);
    var b := EncodeHeader(conv, w) + rest;
    assert b[0..4] == Enc(conv, 4);
    assert b[6..8] == Enc(w.wnd, 2);
    assert b[8..12] == Enc(w.ts, 4);
    assert b[12..16] == Enc(w.sn, 4);
    assert b[16..20] == Enc(w.una, 4);
    assert b[20..24] == Enc(|w.data|, 4);
  }

  lemma DecodeEncode(conv: u32, w: Wire, rest: Bytes)
    requires Sendable(w)
    ensures DecodeHeader(Encode(conv, w) + rest) == Header(conv, w.cmd, w.frg, w.wnd, w.ts, w.sn, w.una, |w.data|)
    ensures (Encode(conv, w) + rest)[OVERHEAD..OVERHEAD + |w.data|] == w.data
    ensures (Encode(conv, w) + rest)[OVERHEAD + |w.data|..] == rest
  {
    hide DecodeHeader, EncodeHeader;
    var h := EncodeHeader(conv, w);
    assert Encode(conv, w) + rest == h + (w.data + rest);
    DecodeHeaderEncode(conv, w, w.data + rest);
  }

  // ---------- a datagram ----------

  /** The segments read before the loop stops and the value it stops with. */
  datatype Parsed = Parsed(ws: seq<Wire>, code: int)

  function Parse(conv: u32, b: Bytes): Parsed {
    if |b| < OVERHEAD then Parsed([], 0)
    else
      var h := DecodeHeader(b);
      if h.conv != conv then Parsed([], -1)
      else if h.len > |b| - OVERHEAD || h.len >= 0x8000_0000 then Parsed([], -2)
      else if !KnownCmd(h.cmd) then Parsed([], -3)
      else
        var rest := Parse(conv, b[OVERHEAD + h.len..]);
        Parsed([HeadWire(b)] + rest.ws, rest.code)
  }

  function HeadWire(b: Bytes): Wire
    requires |b| >= OVERHEAD && DecodeHeader(b).len <= |b| - OVERHEAD
  {
    var h := DecodeHeader(b);
    Wire(h.cmd, h.frg, h.wnd, h.ts, h.sn, h.una, b[OVERHEAD..OVERHEAD + h.len])
  }

  function EncodeAll(conv: u32, ws: seq<Wire>): Bytes {
    if ws == [] then [] else Encode(conv, ws[0]) + EncodeAll(conv, ws[1..])
  }

  lemma {:induction false} EncodeAllSnoc(conv: u32, ws: seq<Wire>, w: Wire)
    ensures EncodeAll(conv, ws + [w]) == EncodeAll(conv, ws) + Encode(conv, w)
  {
    hide Encode;
    if ws == [] {
      assert [w][1..] == [];
    } else {
      EncodeAllSnoc(conv, ws[1..], w);
      assert (ws + [w])[1..] == ws[1..] + [w];
    }
  }

  /** Whole segments come back out of a datagram as they went in. */
  lemma {:induction false} ParseEncodeAll(conv: u32, ws: seq<Wire>)
    requires forall w <- ws :: Sendable(w)
    ensures Parse(conv, EncodeAll(conv, ws)) == Parsed(ws, 0)
  {
    if ws != [] {
      var b := EncodeAll(conv, ws);
      DecodeEncode(conv, ws[0], EncodeAll(conv, ws[1..]));
      ParseEncodeAll(conv, ws[1..]);
      assert [ws[0]] + ws[1..] == ws;
    }
  }

  /** The fields of a header by their places, each least significant byte first. */
  lemma DecodeIs(b: Bytes)
    requires |b| >= OVERHEAD
    ensures Four(b, 0) < 0x1_0000_0000 && Two(b, 6) < 0x1_0000 && Four(b, 8) < 0x1_0000_0000 && Four(b, 12) < 0x1_0000_0000
    ensures Four(b, 16) < 0x1_0000_0000 && Four(b, 20) < 0x1_0000_0000
    ensures DecodeHeader(b) ==
      Header(Four(b, 0), b[4], b[5], Two(b, 6), Four(b, 8), Four(b, 12), Four(b, 16), Four(b, 20))
  {
    WordAt(b, 0);
    WordAt(b, 8);
    WordAt(b, 12);
    WordAt(b, 16);
    WordAt(b, 20);
    DecTwo(b, 6);
    hide Dec, Four, Two, Wrap;
  }

  lemma WordAt(b: Bytes, i: nat)
    requires i + 4 <= |b|
    ensures Wrap(Dec(b[i..i + 4])) == Four(b, i) < 0x1_0000_0000
  {
    DecFour(b, i);
    WrapSmall(Four(b, i));
    hide Dec, Four, Wrap;
  }

  /** The layout of a header: conversation, command, fragment, window, time stamp, number, una and length. */
  lemma HeaderLayout(conv: u32, w: Wire)
    requires Sendable(w)
    ensures var b := EncodeHeader(conv, w);
      && Four(b, 0) == conv && b[4] == w.cmd && b[5] == w.frg && Two(b, 6) == w.wnd && Four(b, 8) == w.ts
      && Four(b, 12) == w.sn && Four(b, 16) == w.una && Four(b, 20) == |w.data| && 81 <= b[4] <= 84
  {
    DecodeHeaderEncode(conv, w, []);
    hide EncodeHeader, DecodeHeader, Four, Two;
    assert EncodeHeader(conv, w) + [] == EncodeHeader(conv, w);
    DecodeIs(EncodeHeader(conv, w));
  }

  /** Where the loop stops: at fewer than 24 bytes without an error, and at a segment of another conversation, one that is
      longer than what is left or too long for an int, or one with an unknown command, tested in this order. */
  lemma ParseStops(conv: u32, b: Bytes)
    ensures |b| < 24 ==> Parse(conv, b) == Parsed([], 0)
    ensures |b| >= 24 ==>
      var len := Four(b, 20);
      if Four(b, 0) != conv as int then Parse(conv, b) == Parsed([], -1)
      else if len > |b| - 24 || len >= 0x8000_0000 then Parse(conv, b) == Parsed([], -2)
      else if b[4] < 81 || b[4] > 84 then Parse(conv, b) == Parsed([], -3)
      else
        var rest := Parse(conv, b[24 + len..]);
        Parse(conv, b) == Parsed([Wire(b[4], b[5], Two(b, 6), Four(b, 8), Four(b, 12), Four(b, 16), b[24..24 + len])] + rest.ws,
                                 rest.code)
  {
    if |b| >= 24 {
      DecodeIs(b);
      hide DecodeHeader, Four, Two;
      var len := Four(b, 20);
      if len <= |b| - 24 {
        assert HeadWire(b) == Wire(b[4], b[5], Two(b, 6), Four(b, 8), Four(b, 12), Four(b, 16), b[24..24 + len]);
      }
      hide HeadWire;
    }
  }

  lemma ParseOne(conv: u32, w: Wire, rest: Bytes)
    requires Sendable(w)
    ensures Parse(conv, Encode(conv, w) + rest) == Parsed([w] + Parse(conv, rest).ws, Parse(conv, rest).code)
  {
    DecodeEncode(conv, w, rest);
    hide Encode, DecodeHeader;
    assert HeadWire(Encode(conv, w) + rest) == w;
  }

  /** Whole segments before such a place are read all the same. */
  lemma {:induction false} ParsePrefix(conv: u32, ws: seq<Wire>, tail: Bytes)
    requires forall w <- ws :: Sendable(w)
    ensures Parse(conv, EncodeAll(conv, ws) + tail) == Parsed(ws + Parse(conv, tail).ws, Parse(conv, tail).code)
  {
    hide Parse, Encode;
    if ws == [] {
      assert [] + tail == tail;
    } else {
      var rest := EncodeAll(conv, ws[1..]) + tail;
      assert EncodeAll(conv, ws) + tail == Encode(conv, ws[0]) + rest;
      ParseOne(conv, ws[0], rest);
      ParsePrefix(conv, ws[1..], tail);
      hide EncodeAll;
      assert [ws[0]] + (ws[1..] + Parse(conv, tail).ws) == ws + Parse(conv, tail).ws;
    }
  }

  // ---------- packing ----------

  /** Datagrams already handed to the output callback, and the bytes standing in the buffer. */
  datatype Packing = Packing(out: seq<Bytes>, cur: Bytes)

  /** Hand the buffer over when the next `need` bytes would pass the mtu; an empty buffer is never sent. */
  function Room(mtu: int, p: Packing, need: nat): Packing {
    if |p.cur| + need > mtu then Finish(p) else p
  }

  function Finish(p: Packing): Packing {
    Packing(if |p.cur| > 0 then p.out + [p.cur] else p.out, [])
  }

  function Put(conv: u32, mtu: int, p: Packing, w: Wire): Packing {
    var q := Room(mtu, p, OVERHEAD + |w.data|);
    Packing(q.out, q.cur + Encode(conv, w))
  }

  function PutAll(conv: u32, mtu: int, p: Packing, ws: seq<Wire>): Packing
    decreases |ws|
  {
    if ws == [] then p else PutAll(conv, mtu, Put(conv, mtu, p, ws[0]), ws[1..])
  }

  function Pack(conv: u32, mtu: int, ws: seq<Wire>): seq<Bytes> {
    Finish(PutAll(conv, mtu, Packing([], []), ws)).out
  }

  lemma {:induction false} PutAllAppend(conv: u32, mtu: int, p: Packing, xs: seq<Wire>, ys: seq<Wire>)
    ensures PutAll(conv, mtu, p, xs + ys) == PutAll(conv, mtu, PutAll(conv, mtu, p, xs), ys)
    decreases |xs|
  {
    hide Put;
    if xs == [] {
      assert xs + ys == ys;
    } else {
      PutAllAppend(conv, mtu, Put(conv, mtu, p, xs[0]), xs[1..], ys);
      assert (xs + ys)[1..] == xs[1..] + ys;
    }
  }

  /** What a receiver reads from a list of datagrams taken in order. */
  function ParseAll(conv: u32, ds: seq<Bytes>): seq<Wire> {
    if ds == [] then [] else Parse(conv, ds[0]).ws + ParseAll(conv, ds[1..])
  }

  lemma {:induction false} ParseAllSnoc(conv: u32, ds: seq<Bytes>, d: Bytes)
    ensures ParseAll(conv, ds + [d]) == ParseAll(conv, ds) + Parse(conv, d).ws
  {
    hide Parse;
    if ds == [] {
      assert [d][1..] == [];
    } else {
      ParseAllSnoc(conv, ds[1..], d);
      assert (ds + [d])[1..] == ds[1..] + [d];
    }
  }

  /** A datagram made of whole segments and nothing else. */
  ghost predicate Whole(conv: u32, d: Bytes) {
    d != [] && Parse(conv, d).code == 0 && EncodeAll(conv, Parse(conv, d).ws) == d
  }

  /** State of a packing that has taken the segments `done`, of which `open` still stand in the buffer. */
  ghost predicate Packed(conv: u32, p: Packing, done: seq<Wire>, open: seq<Wire>) {
    && (forall w <- open :: Sendable(w))
    && p.cur == EncodeAll(conv, open)
    && (forall d <- p.out :: Whole(conv, d))
    && ParseAll(conv, p.out) + open == done
  }

  lemma FinishPacked(conv: u32, p: Packing, done: seq<Wire>, open: seq<Wire>)
    requires Packed(conv, p, done, open)
    ensures Packed(conv, Finish(p), done, [])
  {
    ParseEncodeAll(conv, open);
    hide Encode, Parse;
    if |p.cur| > 0 {
      ParseAllSnoc(conv, p.out, p.cur);
      assert Whole(conv, p.cur);
      assert ParseAll(conv, p.out + [p.cur]) == done;
    } else {
      assert open == [];
    }
  }

  /** One more segment: nothing that was packed is lost or reordered. */
  lemma PutPacked(conv: u32, mtu: int, p: Packing, w: Wire, done: seq<Wire>, open: seq<Wire>) returns (open': seq<Wire>)
    requires Packed(conv, p, done, open)
    requires Sendable(w)
    ensures Packed(conv, Put(conv, mtu, p, w), done + [w], open')
  {
    hide Encode;
    var o := open;
    if |p.cur| + OVERHEAD + |w.data| > mtu {
      FinishPacked(conv, p, done, open);
      o := [];
    }
    EncodeAllSnoc(conv, o, w);
    open' := o + [w];
  }

  lemma {:induction false} PutAllPacked(conv: u32, mtu: int, p: Packing, ws: seq<Wire>, done: seq<Wire>, open: seq<Wire>)
    returns (open': seq<Wire>)
    requires Packed(conv, p, done, open)
    requires forall w <- ws :: Sendable(w)
    ensures Packed(conv, PutAll(conv, mtu, p, ws), done + ws, open')
    decreases |ws|
  {
    hide Put, Packed;
    if ws == [] {
      assert done + ws == done;
      open' := open;
    } else {
      var o := PutPacked(conv, mtu, p, ws[0], done, open);
      open' := PutAllPacked(conv, mtu, Put(conv, mtu, p, ws[0]), ws[1..], done + [ws[0]], o);
      assert done + [ws[0]] + ws[1..] == done + ws;
    }
  }

  /** Packing and parsing undo each other: every datagram holds whole segments, and reading the datagrams in
      order gives back exactly the segments that were packed. */
  lemma PackParse(conv: u32, mtu: int, ws: seq<Wire>)
    requires forall w <- ws :: Sendable(w)
    ensures forall d <- Pack(conv, mtu, ws) :: Whole(conv, d)
    ensures ParseAll(conv, Pack(conv, mtu, ws)) == ws
  {
    hide Parse, Encode;
    assert Packed(conv, Packing([], []), [], []);
    var open := PutAllPacked(conv, mtu, Packing([], []), ws, [], []);
    FinishPacked(conv, PutAll(conv, mtu, Packing([], []), ws), [] + ws, open);
    var out := Pack(conv, mtu, ws);
    assert ParseAll(conv, out) == ParseAll(conv, out) + [] == [] + ws == ws;
  }

  /** When the mtu and each segment are at most `top`, the write position never passes it and no datagram is longer. */
  lemma {:induction false} PutAllFits(conv: u32, mtu: int, top: int, p: Packing, ws: seq<Wire>)
    requires mtu <= top && |p.cur| <= top && forall d <- p.out :: |d| <= top
    requires forall w <- ws :: OVERHEAD + |w.data| <= top
    ensures var q := PutAll(conv, mtu, p, ws); |q.cur| <= top && forall d <- q.out :: |d| <= top
    decreases |ws|
  {
    hide Encode;
    if ws != [] {
      assert ws[0] in ws;
      PutAllFits(conv, mtu, top, Put(conv, mtu, p, ws[0]), ws[1..]);
    }
  }

  lemma PackFits(conv: u32, mtu: int, top: int, ws: seq<Wire>)
    requires mtu <= top && 0 <= top && forall w <- ws :: OVERHEAD + |w.data| <= top
    ensures forall d <- Pack(conv, mtu, ws) :: |d| <= top
  {
    PutAllFits(conv, mtu, top, Packing([], []), ws);
  }

  // ---------- how full the datagrams are ----------

  /** What the first segment of a datagram takes up. */
  function FirstSize(conv: u32, d: Bytes): nat {
    var ws := Parse(conv, d).ws;
    if ws == [] then 0 else OVERHEAD + |ws[0].data|
  }

  /** No datagram had room for the first segment of the next one. */
  ghost predicate Tight(conv: u32, mtu: int, ds: seq<Bytes>) {
    forall i | 0 <= i < |ds| - 1 :: |ds[i]| + FirstSize(conv, ds[i + 1]) > mtu
  }

  /** The datagrams handed over and the one being filled. */
  function Filling(p: Packing): seq<Bytes> {
    if p.cur == [] then p.out else p.out + [p.cur]
  }

  lemma TightAppend(conv: u32, mtu: int, ds: seq<Bytes>, d: Bytes)
    requires Tight(conv, mtu, ds) && (ds != [] ==> |ds[|ds| - 1]| + FirstSize(conv, d) > mtu)
    ensures Tight(conv, mtu, ds + [d])
  {
    hide FirstSize;
  }

  lemma TightReplace(conv: u32, mtu: int, ds: seq<Bytes>, d: Bytes, d': Bytes)
    requires Tight(conv, mtu, ds + [d]) && FirstSize(conv, d') == FirstSize(conv, d)
    ensures Tight(conv, mtu, ds + [d'])
  {
    hide FirstSize;
    var a, b := ds + [d], ds + [d'];
    assert forall i | 0 <= i < |a| - 1 :: b[i] == a[i];
    assert forall i | 0 <= i < |a| :: FirstSize(conv, b[i]) == FirstSize(conv, a[i]);
  }

  /** One segment more joins the last datagram, or begins a new one because that had no room. */
  lemma PutTight(conv: u32, mtu: int, p: Packing, w: Wire, open: seq<Wire>) returns (open': seq<Wire>)
    requires Tight(conv, mtu, Filling(p)) && Sendable(w) && p.cur == EncodeAll(conv, open)
    requires forall v <- open :: Sendable(v)
    requires p.cur == [] ==> p.out == []
    ensures var q := Put(conv, mtu, p, w);
      Tight(conv, mtu, Filling(q)) && q.cur != [] && q.cur == EncodeAll(conv, open') && forall v <- open' :: Sendable(v)
  {
    var joins := |p.cur| + OVERHEAD + |w.data| <= mtu;
    open' := (if joins then open else []) + [w];
    PutEncodes(conv, mtu, p, w, open);
    FirstIs(conv, open, w);
    FirstAlone(conv, w);
    hide EncodeAll, Encode, FirstSize, Sendable, Tight, Put;
    PutFills(conv, mtu, p, Put(conv, mtu, p, w), w, joins);
  }

  lemma PutFills(conv: u32, mtu: int, p: Packing, q: Packing, w: Wire, joins: bool)
    requires Tight(conv, mtu, Filling(p)) && (p.cur == [] ==> p.out == []) && q.cur != []
    requires q.out == if joins || p.cur == [] then p.out else p.out + [p.cur]
    requires if joins && p.cur != [] then FirstSize(conv, q.cur) == FirstSize(conv, p.cur)
             else FirstSize(conv, q.cur) == OVERHEAD + |w.data|
    requires joins <==> |p.cur| + OVERHEAD + |w.data| <= mtu
    ensures Tight(conv, mtu, Filling(q))
  {
    hide FirstSize, Tight;
    if p.cur == [] {
      assert [] + [q.cur] == [q.cur];
      assert Tight(conv, mtu, []) by { NoneTight(conv, mtu); }
      TightAppend(conv, mtu, [], q.cur);
    } else if joins {
      TightReplace(conv, mtu, p.out, p.cur, q.cur);
    } else {
      TightAppend(conv, mtu, p.out + [p.cur], q.cur);
    }
  }

  lemma NoneTight(conv: u32, mtu: int)
    ensures Tight(conv, mtu, [])
  {
  }

  lemma PutEncodes(conv: u32, mtu: int, p: Packing, w: Wire, open: seq<Wire>)
    requires p.cur == EncodeAll(conv, open)
    ensures var q, joins := Put(conv, mtu, p, w), |p.cur| + OVERHEAD + |w.data| <= mtu;
      && q.cur == EncodeAll(conv, (if joins then open else []) + [w]) && q.cur != []
      && q.out == if joins || p.cur == [] then p.out else p.out + [p.cur]
  {
    EncodeAllSnoc(conv, open, w);
    EncodeAllSnoc(conv, [], w);
    hide Encode;
  }

  /** The first segment of a datagram stays the first when another one joins it. */
  lemma FirstIs(conv: u32, open: seq<Wire>, w: Wire)
    requires Sendable(w) && forall v <- open :: Sendable(v)
    ensures open == [] <==> EncodeAll(conv, open) == []
    ensures open != [] ==> FirstSize(conv, EncodeAll(conv, open + [w])) == FirstSize(conv, EncodeAll(conv, open))
  {
    ParseEncodeAll(conv, open);
    ParseEncodeAll(conv, open + [w]);
    hide Parse, Encode;
    if open != [] {
      assert EncodeAll(conv, open) == Encode(conv, open[0]) + EncodeAll(conv, open[1..]);
    }
    hide EncodeAll;
  }

  lemma FirstAlone(conv: u32, w: Wire)
    requires Sendable(w)
    ensures [] + [w] == [w] && FirstSize(conv, EncodeAll(conv, [w])) == OVERHEAD + |w.data|
  {
    ParseEncodeAll(conv, [w]);
    hide Parse, EncodeAll;
  }

  lemma {:induction false} PutAllTight(conv: u32, mtu: int, p: Packing, ws: seq<Wire>, open: seq<Wire>)
    requires Tight(conv, mtu, Filling(p)) && p.cur == EncodeAll(conv, open) && (forall v <- open :: Sendable(v))
    requires (p.cur == [] ==> p.out == []) && forall w <- ws :: Sendable(w)
    ensures Tight(conv, mtu, Filling(PutAll(conv, mtu, p, ws)))
    decreases |ws|
  {
    hide Put, Tight, Filling, EncodeAll;
    if ws != [] {
      var q := Put(conv, mtu, p, ws[0]);
      var o := PutTight(conv, mtu, p, ws[0], open);
      PutAllTight(conv, mtu, q, ws[1..], o);
    }
  }

  /** Datagrams are as few as the order of the segments allows: none had room for the first segment of the next. */
  lemma PackTight(conv: u32, mtu: int, ws: seq<Wire>)
    requires forall w <- ws :: Sendable(w)
    ensures Tight(conv, mtu, Pack(conv, mtu, ws))
  {
    assert EncodeAll(conv, []) == [];
    hide PutAll, FirstSize;
    PutAllTight(conv, mtu, Packing([], []), ws, []);
  }

  // ---------- how far the buffer is written ----------

  /** The write position after one more segment. */
  function After(mtu: int, n: nat, w: Wire): nat {
    (if n + OVERHEAD + |w.data| > mtu then 0 else n) + OVERHEAD + |w.data|
  }

  /** The greatest write position while segments are packed, from position n on. */
  function Peak(mtu: int, n: nat, ws: seq<Wire>): nat
    decreases |ws|
  {
    if ws == [] then n else Max(n, Peak(mtu, After(mtu, n, ws[0]), ws[1..]))
  }

  /** It is the greatest length the buffer has during the packing. */
  lemma {:induction false} PeakIs(conv: u32, mtu: int, p: Packing, ws: seq<Wire>)
    ensures forall i | 0 <= i <= |ws| :: |PutAll(conv, mtu, p, ws[..i]).cur| <= Peak(mtu, |p.cur|, ws)
    ensures exists i :: 0 <= i <= |ws| && |PutAll(conv, mtu, p, ws[..i]).cur| == Peak(mtu, |p.cur|, ws)
    decreases |ws|
  {
    assert PutAll(conv, mtu, p, ws[..0]) == p;
    if ws != [] {
      var q := Put(conv, mtu, p, ws[0]);
      PeakIs(conv, mtu, q, ws[1..]);
      hide Put, Encode;
      assert |q.cur| == After(mtu, |p.cur|, ws[0]) by { PutLength(conv, mtu, p, ws[0]); }
      forall i | 1 <= i <= |ws|
        ensures PutAll(conv, mtu, p, ws[..i]) == PutAll(conv, mtu, q, ws[1..][..i - 1])
      {
        assert ws[..i][0] == ws[0] && ws[..i][1..] == ws[1..][..i - 1];
      }
      if Peak(mtu, |p.cur|, ws) != |p.cur| {
        var j :| 0 <= j <= |ws[1..]| && |PutAll(conv, mtu, q, ws[1..][..j]).cur| == Peak(mtu, |q.cur|, ws[1..]);
        assert PutAll(conv, mtu, p, ws[..j + 1]) == PutAll(conv, mtu, q, ws[1..][..j]);
      }
    }
  }

  lemma PutLength(conv: u32, mtu: int, p: Packing, w: Wire)
    ensures |Put(conv, mtu, p, w).cur| == After(mtu, |p.cur|, w)
  {
    hide Encode;
  }

  lemma {:induction false} PeakAppend(conv: u32, mtu: int, p: Packing, xs: seq<Wire>, ys: seq<Wire>)
    ensures Peak(mtu, |p.cur|, xs + ys) == Max(Peak(mtu, |p.cur|, xs), Peak(mtu, |PutAll(conv, mtu, p, xs).cur|, ys))
    decreases |xs|
  {
    if xs == [] {
      assert xs + ys == ys;
    } else {
      PutLength(conv, mtu, p, xs[0]);
      PeakAppend(conv, mtu, Put(conv, mtu, p, xs[0]), xs[1..], ys);
      hide Put, After;
      assert (xs + ys)[0] == xs[0] && (xs + ys)[1..] == xs[1..] + ys;
    }
  }

  /** A buffer that holds the mtu is never overrun exactly when each single segment written fits it. */
  lemma {:induction false} PeakFits(mtu: int, n: nat, ws: seq<Wire>, room: nat)
    requires mtu <= room && n <= room
    ensures Peak(mtu, n, ws) <= room <==> forall w <- ws :: OVERHEAD + |w.data| <= room
    decreases |ws|
  {
    if ws != [] {
      var m := After(mtu, n, ws[0]);
      assert ws == [ws[0]] + ws[1..];
      if OVERHEAD + |ws[0].data| <= room {
        PeakFits(mtu, m, ws[1..], room);
      } else {
        PeakStarts(mtu, m, ws[1..]);
        assert ws[0] in ws;
      }
    }
  }

  lemma PeakStarts(mtu: int, n: nat, ws: seq<Wire>)
    ensures Peak(mtu, n, ws) >= n
  {
  }

  /** A segment read from any of the datagrams is one of those packed. */
  lemma {:induction false} ParseAllContains(conv: u32, ds: seq<Bytes>, d: Bytes, w: Wire)
    requires d in ds && w in Parse(conv, d).ws
    ensures w in ParseAll(conv, ds)
  {
    hide Parse;
    if d != ds[0] {
      assert d in ds[1..];
      ParseAllContains(conv, ds[1..], d, w);
    }
  }
}
