/** How old a datagram may be: what the engine makes of numbers that lag so far behind that they read as numbers
    ahead. Counters without bound stand beside the 32-bit numbers they wrap to. */
module KcpStale {
  import opened Numbers
  import opened LittleEndian
  import opened KcpWire
  import opened KcpSender
  import opened KcpReceiver
  import opened KcpControl
  import opened KcpEngine
  import F = KcpFragments
  import KcpFailures
  import opened KcpRuns

  // ---------- data ----------

  /** A segment of true number `i` passes both guards of a receiver at true number `n` exactly when the two numbers
      differ by a window, modulo 2^32. */
  lemma GuardsAccept(r: Receiver, sn: u32, n: nat, i: nat)
    requires 0 < r.wnd < 0x8000_0000 && r.nxt == Wrap(n) && sn == Wrap(i)
    ensures !BeyondWindow(r, sn) && Diff(sn, r.nxt) >= 0 <==> (i - n) % 0x1_0000_0000 < r.wnd
  {
    AcceptsWindow(r, sn);
    WrapSub(i, n);
  }

  lemma InsertConserves(r: Receiver, w: Wire)
    requires Buffered(r) && Dist(r.nxt, w.sn) < r.wnd
    ensures Insert(r, w).queue == r.queue
    ensures multiset(Insert(r, w).buf) == multiset(r.buf) + if Holds(r.buf, w.sn) then multiset{} else multiset{w}
  {
    InsertIsSetInsert(r, w);
    hide Holds, Buffered;
  }

  /** What a kept datagram does: the segment enters the buffer or the queue exactly when its true number lies within
      the window modulo 2^32 and no copy is held, and in all other cases nothing happens. */
  lemma StaleDatagram(r: Receiver, w: Wire, n: nat, i: nat)
    requires ReceiverOk(r) && r.nxt == Wrap(n) && w.sn == Wrap(i) && w.cmd == CMD_PUSH
    ensures var r' := ReceiverOn(r, w);
      multiset(r'.queue + r'.buf) == multiset(r.queue + r.buf)
        + if (i - n) % 0x1_0000_0000 < r.wnd && !Holds(r.buf, w.sn) then multiset{w} else multiset{}
    ensures (i - n) % 0x1_0000_0000 >= r.wnd ==> ReceiverOn(r, w) == r
  {
    WndRange(r);
    GuardsAccept(r, w.sn, n, i);
    AcceptsWindow(r, w.sn);
    var q := Insert(r, w);
    if (i - n) % 0x1_0000_0000 < r.wnd {
      InsertConserves(r, w);
      PullConserves(q);
      hide ReceiverOk, Holds, Insert, Pull, Diff, BeyondWindow, Dist;
      assert multiset(q.queue + q.buf) == multiset(q.queue) + multiset(q.buf);
      assert multiset(r.queue + r.buf) == multiset(r.queue) + multiset(r.buf);
    }
  }

  /** A datagram that lags by up to 2^32 minus the window changes nothing. One that lags by more, up to a whole turn of
      the 32-bit numbers, is stored unless a copy of its number is held. */
  lemma StaleLag(r: Receiver, w: Wire, n: nat, i: nat)
    requires ReceiverOk(r) && r.nxt == Wrap(n) && w.sn == Wrap(i) && w.cmd == CMD_PUSH && i < n
    ensures n - i <= 0x1_0000_0000 - r.wnd ==> ReceiverOn(r, w) == r
    ensures 0x1_0000_0000 - r.wnd < n - i <= 0x1_0000_0000 && !Holds(r.buf, w.sn) ==>
      var r' := ReceiverOn(r, w); multiset(r'.queue + r'.buf) == multiset(r.queue + r.buf) + multiset{w}
  {
    WndRange(r);
    LagWindow(n, i, r.wnd);
    hide ReceiverOn, ReceiverOk, Holds, Wrap;
    StaleDatagram(r, w, n, i);
  }

  lemma LagWindow(n: nat, i: nat, wnd: u32)
    requires i < n && 0 < wnd < 0x8000_0000
    ensures n - i <= 0x1_0000_0000 - wnd ==> (i - n) % 0x1_0000_0000 >= wnd
    ensures 0x1_0000_0000 - wnd < n - i <= 0x1_0000_0000 ==> (i - n) % 0x1_0000_0000 < wnd
  {
    if n - i <= 0x1_0000_0000 {
      assert (i - n) % 0x1_0000_0000 == (0x1_0000_0000 + i - n) % 0x1_0000_0000;
    }
  }

  // ---------- a conversation in which old data are taken ----------

  /** Empty message number i of a series, as its sender first sends it. */
  function DataWire(i: nat): Wire {
    Wire(CMD_PUSH, 0, 128, 0, Wrap(i), 0, [])
  }

  function DataDatagram(i: nat): Bytes {
    EncodeAll(7, [DataWire(i)])
  }

  /** The first n messages arrive one by one, and each is taken out before the next. */
  function Takes(n: nat): seq<Op> {
    if n == 0 then [] else Takes(n - 1) + [OpInput(DataDatagram(n - 1)), OpRecv(0)]
  }

  /** Everything that arrived has been taken out. */
  ghost predicate Emptied(k: State, n: nat) {
    k.cfg.conv == 7 && k.cfg.mss > 0 && k.rcv == Receiver(Wrap(n), 128, [], [])
  }

  lemma Reads(k: State, i: nat)
    requires k.cfg.conv == 7 && k.cfg.mss > 0
    ensures var j := Run(k, [OpInput(DataDatagram(i))]);
      j.cfg == k.cfg && j.rcv == ReceiverOn(k.rcv, DataWire(i))
  {
    var w := DataWire(i);
    KcpFailures.RunReads(k, [w]);
    RunOne(k, OpInput(DataDatagram(i)));
    InputConfig(k, DataDatagram(i));
    assert [w][1..] == [];
    assert OnWires(k, [w]) == OnWire(k, w);
    hide Run, Input, EncodeAll, ReceiverOn, SenderOn, AcksOn, RttOn;
  }

  lemma TakesEmpty(k: State, w: Wire)
    requires k.rcv.wnd == 128 && k.rcv.buf == [] && k.rcv.queue == [w] && w.frg == 0 && w.data == []
    ensures RecvFrom(k, 0).rcv == k.rcv.(queue := []) && RecvFrom(k, 0).cfg == k.cfg
  {
    assert Join([w][..1]) == [w][..1][0].data + Join([w][..1][1..]);
    assert [w][..1][1..] == [] && [w][1..] == [];
  }

  lemma ReadsNext(k: State, n: nat)
    requires Emptied(k, n)
    ensures var j := Run(k, [OpInput(DataDatagram(n))]);
      j.cfg == k.cfg && j.rcv == Receiver(Wrap(n + 1), 128, [], [DataWire(n)])
  {
    Reads(k, n);
    KcpFailures.OneArrives(k.rcv, DataWire(n));
    assert [] + [DataWire(n)] == [DataWire(n)];
    WrapAdd(n, 1);
    hide Run, DataDatagram, ReceiverOn, Wrap;
  }

  lemma TakeOne(k: State, n: nat)
    requires Emptied(k, n)
    ensures Emptied(Run(k, [OpInput(DataDatagram(n)), OpRecv(0)]), n + 1)
  {
    var arrives, takes := [OpInput(DataDatagram(n))], [OpRecv(0)];
    ReadsNext(k, n);
    hide Run, DataDatagram, RecvFrom, Wrap;
    var k1 := Run(k, arrives);
    TakesEmpty(k1, DataWire(n));
    RunOne(k1, OpRecv(0));
    RunAppend(k, arrives, takes);
    assert arrives + takes == [OpInput(DataDatagram(n)), OpRecv(0)];
  }

  lemma {:induction false} TakesAll(n: nat)
    ensures Emptied(Run(Create(7), Takes(n)), n)
  {
    if n > 0 {
      TakesAll(n - 1);
      assert Create(7).cfg.mss > 0;
      hide Run, Create;
      TakeOne(Run(Create(7), Takes(n - 1)), n - 1);
      RunAppend(Create(7), Takes(n - 1), [OpInput(DataDatagram(n - 1)), OpRecv(0)]);
    }
  }

  lemma NoneLeft(s: seq<Wire>)
    ensures multiset(s) == multiset{} <==> s == []
  {
    if s != [] {
      assert s[0] in multiset(s);
    }
  }

  /** After n messages that arrived in order and were taken out, the network delivers the datagram of message a once
      again. It is taken for a new message exactly when it lies within the window, modulo 2^32: after a whole turn of
      the numbers, and shortly before. */
  lemma OldDataTaken(n: nat, a: nat)
    requires a < n
    ensures var k := Run(Create(7), Takes(n) + [OpInput(DataDatagram(a))]);
      k.rcv.queue + k.rcv.buf != [] <==> (a - n) % 0x1_0000_0000 < 128
  {
    TakesAll(n);
    var k := Run(Create(7), Takes(n));
    Reads(k, a);
    RunAppend(Create(7), Takes(n), [OpInput(DataDatagram(a))]);
    assert ReceiverOk(k.rcv);
    StaleDatagram(k.rcv, DataWire(a), n, a);
    var r := ReceiverOn(k.rcv, DataWire(a));
    hide Run, ReceiverOn, ReceiverOk, Takes, Wrap;
    NoneLeft(r.queue + r.buf);
    assert k.rcv.queue + k.rcv.buf == [];
  }

  // ---------- acknowledgements ----------

  /** A cumulative acknowledgement of `una` wrongly drops the segment with the later number `sn` exactly when the two
      are more than 2^31 apart, modulo 2^32. */
  lemma StaleUnaDrops(o: OutSeg, sn: nat, una: nat)
    requires una <= sn && o.sn == Wrap(sn)
    ensures ParseUna([o], Wrap(una)) == [] <==> (sn - una) % 0x1_0000_0000 > 0x8000_0000
  {
    var d := Wrap(sn - una);
    assert Wrap(una - sn) == if d == 0 then 0 else 0x1_0000_0000 - d by {
      WrapSub(0, sn - una);
    }
    WrapSub(una, sn);
    assert [o][1..] == [];
  }

  // ---------- a conversation in which it happens ----------

  /** The datagram with which the peer acknowledges message i of a series of empty messages. */
  function AckDatagram(i: nat): Bytes {
    EncodeAll(7, [Wire(CMD_ACK, 0, 128, 0, Wrap(i), Wrap(i + 1), [])])
  }

  /** One message more, and the delivery of the datagram that acknowledges message a. */
  function Exchange(a: nat): seq<Op> {
    [OpSend([]), OpFlush, OpInput(AckDatagram(a))]
  }

  /** After the settings, i messages are sent one by one, each acknowledged before the next. */
  function Rounds(i: nat): seq<Op> {
    if i == 0 then [OpNoDelay(-1, -1, -1, 1), OpUpdate(0)]
    else Rounds(i - 1) + Exchange(i - 1)
  }

  /** Everything sent has been acknowledged, and the next flush may send. */
  ghost predicate Rested(k: State, i: nat) {
    && k.cfg.conv == 7 && k.cfg.mss > 0 && !k.cfg.stream && k.cfg.nocwnd && k.cfg.sndWnd == 32
    && k.updated && 1 <= k.rmtWnd
    && k.snd == Sender(Wrap(i), Wrap(i), [], [])
  }

  /** One message is under way. */
  ghost predicate Sent(k: State, i: nat) {
    && k.cfg.conv == 7 && k.cfg.mss > 0 && !k.cfg.stream && k.cfg.nocwnd && k.cfg.sndWnd == 32
    && k.updated
    && |k.snd.buf| == 1 && k.snd.buf[0].sn == Wrap(i)
    && k.snd == Sender(Wrap(i), Wrap(i + 1), k.snd.buf, [])
  }

  lemma SendEmpty(k: State, i: nat)
    requires Rested(k, i)
    ensures SendTo(k, []).state == k.(snd := k.snd.(queue := [Chunk(0, [])]))
  {
    assert F.Fragments([], k.cfg.mss, 1, false) == [Chunk(0, [])] + F.Fragments([], k.cfg.mss, 0, false);
  }

  lemma AdmitsIt(s: Sender, cwnd: u32, t: Stamp)
    requires s.una == s.nxt && s.buf == [] && s.queue == [Chunk(0, [])] && 1 <= cwnd <= 0xFFFF
    ensures Admit(s, cwnd, t) == Sender(s.una, Wrap(s.nxt + 1), [Fresh(Chunk(0, []), s.nxt, t)], [])
  {
    WrapSmall(s.nxt);
    DiffExact(s.nxt, s.nxt + cwnd);
    assert s.queue[1..] == [] && s.buf + [Fresh(s.queue[0], s.nxt, t)] == [Fresh(Chunk(0, []), s.nxt, t)];
  }

  lemma FlushSends(k: State, i: nat)
    requires Rested(k.(snd := k.snd.(queue := [])), i) && k.snd.queue == [Chunk(0, [])]
    ensures Sent(Flush(k).state, i)
  {
    AdmitsIt(k.snd, WindowSize(k), Stamp(k.current, Unused(k.rcv), k.rcv.nxt, k.rtt.rto));
    WrapAdd(i, 1);
    var s := AdmitAll(k);
    SweepSame(s.buf, TickOf(k));
    hide Admit, SweepAll, TickOf, WindowSize, Unused, AfterFlush, ProbeTick, Pack, FlushWires, Wrap;
  }

  /** One acknowledgement at a sender with one segment under way. */
  lemma AckOne(s: Sender, i: nat, a: nat)
    requires a <= i && |s.buf| == 1 && s.buf[0].sn == Wrap(i) && s.una == Wrap(i) && s.nxt == Wrap(i + 1)
    ensures var j := FastAck(OnAck(OnUna(s, Wrap(a + 1)), Wrap(a)), Wrap(a));
      j == if a == i || (i - (a + 1)) % 0x1_0000_0000 > 0x8000_0000 then Sender(s.nxt, s.nxt, [], s.queue) else s
  {
    assert s.buf == [s.buf[0]] && s.buf[1..] == [];
    assert ParseUna(s.buf, Wrap(a + 1)) == [] || ParseUna(s.buf, Wrap(a + 1)) == s.buf;
    if a == i {
      DiffExact(i + 1, i);
      assert ParseUna(s.buf, Wrap(a + 1)) == [];
    } else {
      StaleUnaDrops(s.buf[0], i, a + 1);
      if (i - (a + 1)) % 0x1_0000_0000 <= 0x8000_0000 {
        LaterIsOutside(s, i, a);
      }
    }
    hide Diff, Outside, ParseUna, Wrap;
  }

  lemma LaterIsOutside(s: Sender, i: nat, a: nat)
    requires a < i && s.una == Wrap(i) && s.nxt == Wrap(i + 1) && (i - (a + 1)) % 0x1_0000_0000 <= 0x8000_0000
    ensures Outside(s, Wrap(a))
  {
    WrapSub(i + 1, i);
    assert InFlight(s) == 1;
    WrapSub(a, i);
    NotWhole(i - a);
    assert (a - i) % 0x1_0000_0000 != 0;
    OutsideIsDist(s, Wrap(a));
  }

  lemma NotWhole(d: int)
    requires d > 0 && (d - 1) % 0x1_0000_0000 <= 0x8000_0000
    ensures (-d) % 0x1_0000_0000 != 0
  {
    var q := (d - 1) / 0x1_0000_0000;
    assert d == 0x1_0000_0000 * q + (d - 1) % 0x1_0000_0000 + 1;
  }

  lemma ConcludeAck(k: State, sn: u32, una: u32)
    requires k.cfg.mss > 0
    ensures var j := Conclude(k, MaxAck(sn), una);
      j.snd == FastAck(k.snd, sn) && j.cfg == k.cfg && j.updated == k.updated && j.rmtWnd == k.rmtWnd
  {
    hide FastAck, Diff, Grow;
  }

  lemma OneAck(k: State, w: Wire)
    requires w.cmd == CMD_ACK
    ensures OnWires(k, [w]) == OnWire(k, w) && CollectAll(NoAck, [w]) == MaxAck(w.sn)
  {
    hide SenderOn, ReceiverOn, RttOn, AcksOn, Diff;
    assert [w][1..] == [];
  }

  /** A datagram with one acknowledgement. */
  lemma InputAck(k: State, w: Wire)
    requires k.cfg.mss > 0 && w.cmd == CMD_ACK && w.data == []
    ensures var j := Input(k, EncodeAll(k.cfg.conv, [w])).state;
      && j.snd == FastAck(SenderOn(k.snd, w), w.sn)
      && j.cfg == k.cfg && j.updated == k.updated && j.rmtWnd == w.wnd
  {
    var b := EncodeAll(k.cfg.conv, [w]);
    ParseEncodeAll(k.cfg.conv, [w]);
    assert |b| >= OVERHEAD;
    OneAck(k, w);
    OnWiresConfig(k, [w]);
    ConcludeAck(OnWire(k, w), w.sn, k.snd.una);
    hide Parse, EncodeAll, SenderOn, ReceiverOn, RttOn, AcksOn, FastAck, Conclude, OnWires, CollectAll;
  }

  /** An acknowledgement frees the message under way if it is its own, or wrongly if it lags by more than 2^31. */
  lemma AckArrives(k: State, i: nat, a: nat)
    requires Sent(k, i) && a <= i
    ensures var j := Input(k, AckDatagram(a)).state;
      if a == i || (i - (a + 1)) % 0x1_0000_0000 > 0x8000_0000 then Rested(j, i + 1) else j.snd == k.snd
  {
    hide FastAck, OnAck, OnUna, Input, EncodeAll, Wrap;
    InputAck(k, Wire(CMD_ACK, 0, 128, 0, Wrap(a), Wrap(a + 1), []));
    AckOne(k.snd, i, a);
  }

  // ---------- the run ----------

  lemma SendAndFlush(k: State, i: nat)
    requires Rested(k, i)
    ensures Sent(Run(k, [OpSend([]), OpFlush]), i)
  {
    var k1 := SendTo(k, []).state;
    SendEmpty(k, i);
    FlushSends(k1, i);
    RunOne(k1, OpFlush);
    assert [OpSend([]), OpFlush][1..] == [OpFlush];
    assert Step(k, OpSend([])) == k1;
    hide SendTo, Flush, Step;
  }

  lemma ExchangeAcks(k: State, i: nat, a: nat)
    requires Rested(k, i) && a <= i
    ensures var j := Run(k, Exchange(a));
      if a == i || (i - (a + 1)) % 0x1_0000_0000 > 0x8000_0000 then Rested(j, i + 1) else j.snd.buf != []
  {
    var sends := [OpSend([]), OpFlush];
    var acks := [OpInput(AckDatagram(a))];
    SendAndFlush(k, i);
    var k1 := Run(k, sends);
    AckArrives(k1, i, a);
    RunOne(k1, acks[0]);
    assert Exchange(a) == sends + acks;
    RunAppend(k, sends, acks);
    hide Run, Input, AckDatagram;
  }

  lemma {:induction false} RoundsRest(i: nat)
    ensures Rested(Run(Create(7), Rounds(i)), i)
  {
    if i == 0 {
      FirstRound();
    } else {
      RoundsRest(i - 1);
      OneMore(Create(7), Rounds(i - 1), i - 1);
      hide Run, Exchange, Rested, Create;
    }
  }

  lemma OneMore(k: State, ops: seq<Op>, i: nat)
    requires k.cfg.mss > 0 && Rested(Run(k, ops), i)
    ensures Rested(Run(k, ops + Exchange(i)), i + 1)
  {
    hide Exchange, Rested;
    ExchangeAcks(Run(k, ops), i, i);
    RunAppend(k, ops, Exchange(i));
  }

  lemma FirstRound()
    ensures Rested(Run(Create(7), [OpNoDelay(-1, -1, -1, 1), OpUpdate(0)]), 0)
  {
    var k1 := NoDelay(Create(7), -1, -1, -1, 1);
    RunOne(k1, OpUpdate(0));
    assert [OpNoDelay(-1, -1, -1, 1), OpUpdate(0)][1..] == [OpUpdate(0)];
    assert Step(Create(7), OpNoDelay(-1, -1, -1, 1)) == k1;
    ClockKeeps(k1, 0);
    var k2 := Clock(k1, 0).0;
    assert Admit(k2.snd, WindowSize(k2), Stamp(k2.current, Unused(k2.rcv), k2.rcv.nxt, k2.rtt.rto)) == k2.snd;
    hide Clock, WindowSize, Unused, AfterFlush, ProbeTick, TickOf, Pack, FlushWires;
  }

  /** Between two endpoints that follow the protocol: after i messages, each acknowledged, one more is sent, and the
      network delivers the datagram that acknowledged message a once again. The sender drops the message that has not
      arrived exactly when more than 2^31 messages lie between, modulo 2^32, and then nothing is left to send again. */
  lemma OldAckLosesData(i: nat, a: nat)
    requires a < i
    ensures var k := Run(Create(7), Rounds(i) + Exchange(a));
      k.snd.buf == [] <==> (i - (a + 1)) % 0x1_0000_0000 > 0x8000_0000
  {
    assert Create(7).cfg.mss > 0;
    hide Run, Exchange, Rounds, Create;
    RoundsRest(i);
    ExchangeAcks(Run(Create(7), Rounds(i)), i, a);
    RunAppend(Create(7), Rounds(i), Exchange(a));
  }
}
