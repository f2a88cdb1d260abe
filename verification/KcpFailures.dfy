/** Runs of a fresh control block at whose end a call does not do what one might expect of it. */
module KcpFailures {
  import opened Numbers
  import opened LittleEndian
  import opened KcpWire
  import opened KcpSender
  import opened KcpReceiver
  import opened KcpControl
  import opened KcpEngine
  import opened KcpRuns
  import F = KcpFragments
  import C = KcpSchedule
  import T = KcpTimers

  // ---------- a refused send that is not clean ----------

  /** In stream mode one byte waits; a call with far too many bytes is refused, and has still filled up the segment. */
  lemma RefusedSendLeaves(data: Bytes)
    requires |data| > 128 * 1376
    ensures var k := Run(Create(7), [OpStream(true), OpSend([1])]);
      var r := SendTo(k, data);
      && r.code == -2
      && F.JoinChunks(k.snd.queue) == [1]
      && |F.JoinChunks(r.state.snd.queue)| > 1
  {
    OneByteWaits();
    var k := Run(Create(7), [OpStream(true), OpSend([1])]);
    hide Run;
    assert F.JoinChunks([Chunk(0, [1])]) == [1] + F.JoinChunks([Chunk(0, [1])][1..]);
    assert F.TopUp(k.snd.queue, 1376, data).1 == data[1375..];
    F.SendStream(k.snd.queue, 1376, data);
    F.RefusedStreamSend(k.snd.queue, 1376, data);
    F.TopUpKeeps(k.snd.queue, 1376, data);
    hide F.Send, F.JoinChunks;
  }

  lemma OneByteWaits()
    ensures var k := Run(Create(7), [OpStream(true), OpSend([1])]);
      k.cfg.stream && k.cfg.mss == 1376 && k.snd.queue == [Chunk(0, [1])]
  {
    var k1 := Step(Create(7), OpStream(true));
    RunOne(k1, OpSend([1]));
    assert [OpStream(true), OpSend([1])][1..] == [OpSend([1])];
    StreamByte();
    hide F.Send;
  }

  lemma StreamByte()
    ensures F.Send([], 1376, true, [1]) == F.Sent(0, [Chunk(0, [1])])
  {
    var data: Bytes := [1];
    assert data[..1] == data;
    assert F.Fragments(data, 1376, 1, true) == [Chunk(0, data[..1])] + F.Fragments(data[1..], 1376, 0, true);
    assert F.TopUp([], 1376, data) == ([], data);
    assert [] + [Chunk(0, data)] == [Chunk(0, data)];
  }

  // ---------- a raised window that leaves a ready segment behind ----------

  /** Empty messages with the numbers from i to n. */
  function Empties(i: nat, n: nat): seq<Wire>
    requires i <= n <= 0xFFFF
    decreases n - i
  {
    if i == n then [] else [Wire(CMD_PUSH, 0, 0, 0, i, 0, [])] + Empties(i + 1, n)
  }

  lemma {:induction false} AllSendable(i: nat, n: nat)
    requires i <= n <= 0xFFFF
    ensures forall w <- Empties(i, n) :: Sendable(w)
    decreases n - i
  {
    if i < n {
      AllSendable(i + 1, n);
    }
  }

  lemma OneArrives(r: Receiver, w: Wire)
    requires r.wnd == 128 && r.buf == [] && w.cmd == CMD_PUSH && w.sn == r.nxt
    ensures ReceiverOn(r, w) == if |r.queue| < 128 then Receiver(Wrap(r.nxt + 1), 128, [], r.queue + [w]) else r.(buf := [w])
  {
    DistSelf(r.nxt);
    AcceptsWindow(r, w.sn);
    hide Diff, BeyondWindow, Wrap;
    assert Insert(r, w) == r.(buf := [w]);
    if |r.queue| < 128 {
      var p := Receiver(Wrap(r.nxt + 1), 128, [w][1..], r.queue + [w]);
      assert Pull(p) == p;
    }
  }

  /** Segments up to number 128 fill the queue and leave the last of them in the buffer. */
  lemma {:induction false} Fills(k: State, i: nat)
    requires i <= 128 && k.rcv.nxt as int == i && k.rcv.wnd == 128 && k.rcv.buf == [] && |k.rcv.queue| == i
    ensures var r := OnWires(k, Empties(i, 129)).rcv;
      r.nxt == 128 && r.wnd == 128 && |r.queue| == 128 && |r.buf| == 1 && r.buf[0].sn == 128
    decreases 128 - i
  {
    var w := Wire(CMD_PUSH, 0, 0, 0, i, 0, []);
    OneArrives(k.rcv, w);
    WrapSmall(i + 1);
    hide ReceiverOn, SenderOn, AcksOn, RttOn;
    var k1 := OnWire(k, w);
    var ws := Empties(i, 129);
    assert ws[0] == w && ws[1..] == Empties(i + 1, 129);
    if i < 128 {
      Fills(k1, i + 1);
    } else {
      assert OnWires(k1, []) == k1;
    }
  }

  lemma InputRcvIs(k: State, b: Bytes)
    requires k.cfg.mss > 0
    ensures Input(k, b).state.rcv == OnWires(k, Parse(k.cfg.conv, b).ws).rcv
  {
    OnWiresConfig(k, Parse(k.cfg.conv, b).ws);
    assert |b| < OVERHEAD ==> Parse(k.cfg.conv, b).ws == [];
    hide Parse, CollectAll, FastAck, Diff;
    assert OnWires(k, []) == k;
  }

  /** A receiver reads the segments of one datagram of whole segments. */
  lemma RunReads(k: State, ws: seq<Wire>)
    requires k.cfg.mss > 0 && forall w <- ws :: Sendable(w)
    ensures Run(k, [OpInput(EncodeAll(k.cfg.conv, ws))]).rcv == OnWires(k, ws).rcv
  {
    var b := EncodeAll(k.cfg.conv, ws);
    RunOne(k, OpInput(b));
    hide Run, Input, EncodeAll, Parse, OnWires;
    ParseEncodeAll(k.cfg.conv, ws);
    InputRcvIs(k, b);
  }

  /** One datagram with 129 segments: the queue is full and a segment is ready, as it may be; after the window is
      raised by one there is room, and the segment is still in the buffer. */
  lemma RaiseLeavesReady()
    ensures var k := Run(Create(7), [OpInput(EncodeAll(7, Empties(0, 129)))]);
      Settled(k.rcv) && !Settled(WndSize(k, 0, 129).rcv)
  {
    Fills(Create(7), 0);
    AllSendable(0, 129);
    hide Run, EncodeAll, OnWires, Empties;
    RunReads(Create(7), Empties(0, 129));
  }

  // ---------- a lowered mtu ----------

  lemma RunThree(k: State, a: Op, b: Op, c: Op)
    requires k.cfg.mss > 0
    ensures Step(k, a).cfg.mss > 0 && Step(Step(k, a), b).cfg.mss > 0
    ensures Run(k, [a, b, c]) == Step(Step(Step(k, a), b), c)
  {
    hide Step;
    StepMss(k, a);
    StepMss(Step(k, a), b);
    RunOne(Step(Step(k, a), b), c);
    assert [a, b, c][1..] == [b, c] && [b, c][1..] == [c];
  }

  lemma SendOneFull(data: Bytes)
    requires |data| == 1376
    ensures F.Send([], 1376, false, data) == F.Sent(0, [Chunk(0, data)])
  {
    assert data[..1376] == data;
    assert F.Fragments(data, 1376, 1, false) == [Chunk(0, data[..1376])] + F.Fragments(data[1376..], 1376, 0, false);
  }

  /** The block after the send and the change of the mtu. */
  function Lowered(data: Bytes): State {
    SetMtu(Create(7).(snd := Sender(0, 0, [], [Chunk(0, data)])), 50).state
  }

  lemma FirstFlush(data: Bytes)
    ensures var k := Update(Lowered(data), 0).state;
      k == Lowered(data).(current := 0, updated := true, tsFlush := 100, cc := Congestion(1, 2, 26), probe := k.probe)
        && !k.probe.askSend && !k.probe.askTell
  {
    var k := Clock(Lowered(data), 0).0;
    assert Clock(Lowered(data), 0) == (Lowered(data).(current := 0, updated := true, tsFlush := 100), true);
    hide Clock;
    assert WindowSize(k) == 0;
    assert Admit(k.snd, 0, Stamp(k.current, Unused(k.rcv), k.rcv.nxt, k.rtt.rto)) == k.snd;
    assert InFlight(k.snd) == 0;
    hide WindowSize, TickOf, Unused, Pack, FlushWires;
  }

  lemma SecondFlush(k: State, data: Bytes)
    requires k.snd == Sender(0, 0, [], [Chunk(0, data)]) && WindowSize(k) == 1 && k.cfg.mtu == 50 && |data| == 1376
    requires k.acks == [] && k.rmtWnd != 0 && !k.probe.askSend && !k.probe.askTell
    ensures Reach(k) == 1400
  {
    var t := Stamp(k.current, Unused(k.rcv), k.rcv.nxt, k.rtt.rto);
    var o := Fresh(Chunk(0, data), 0, t);
    hide Unused, WindowSize;
    assert k.snd.queue[1..] == [] && k.snd.buf + [o] == [o];
    assert Admit(k.snd, 1, t) == Sender(0, 1, [o], []);
    hide Admit;
    var w := PushWire(Transmit(o, TickOf(k)).seg);
    assert [o][1..] == [];
    assert SweepAll([o], TickOf(k)).ws == [w] + [] == [w];
    hide TickOf, SweepAll;
    assert AckWires([], Unused(k.rcv), k.rcv.nxt) == [];
    assert FlushWires(k) == [w] && |w.data| == 1376;
    hide FlushWires;
    PeakOne(k.cfg.mtu, w);
  }

  lemma PeakOne(mtu: int, w: Wire)
    ensures Peak(mtu, 0, [w]) == OVERHEAD + |w.data|
  {
    assert [w][1..] == [];
    assert Peak(mtu, After(mtu, 0, w), []) == After(mtu, 0, w);
  }

  lemma SendThenLower(data: Bytes)
    requires |data| == 1376
    ensures Step(Create(7), OpSend(data)).cfg.mss > 0
    ensures Step(Step(Create(7), OpSend(data)), OpSetMtu(50)) == Lowered(data)
  {
    SendOneFull(data);
    hide F.Send;
  }

  /** A full segment is queued, the mtu is lowered to 50, and the first update opens the window: the next flush writes
      1400 bytes into a buffer of 222. */
  lemma LoweredMtuOverruns(data: Bytes)
    requires |data| == 1376
    ensures var k := Run(Create(7), [OpSend(data), OpSetMtu(50), OpUpdate(0)]);
      Reach(k) == 1400 && BufferSize(k.cfg.mtu) == 222
  {
    RunThree(Create(7), OpSend(data), OpSetMtu(50), OpUpdate(0));
    SendThenLower(data);
    FirstFlush(data);
    hide Update, Reach, Run, F.Send;
    SecondFlush(Update(Lowered(data), 0).state, data);
  }

  // ---------- a time that comes too early ----------

  /** A block with a slow beat, one byte queued. */
  function Slow(): State {
    Create(7).(cfg := Create(7).cfg.(interval := 5000), snd := Sender(0, 0, [], [Chunk(0, [1])]))
  }

  /** The same after the first update, which opens the window only. */
  function Opened(): State {
    Slow().(current := 0, updated := true, tsFlush := 5000, cc := Congestion(1, 2, 1376))
  }

  lemma OpensWindow()
    ensures Update(Slow(), 0).state == Opened()
  {
    var l := Clock(Slow(), 0).0;
    assert Clock(Slow(), 0) == (Slow().(current := 0, updated := true, tsFlush := 5000), true);
    hide Clock;
    assert WindowSize(l) == 0;
    assert Admit(l.snd, 0, Stamp(l.current, Unused(l.rcv), l.rcv.nxt, l.rtt.rto)) == l.snd;
    assert InFlight(l.snd) == 0;
    hide WindowSize, TickOf, Unused, Pack, FlushWires;
  }

  /** The second update sends the byte, at 5000; its timer stands at 5225, and the next flush is at 10000. */
  lemma SendsByte()
    ensures var j := Update(Opened(), 5000).state;
      j.updated && j.cfg.interval == 5000 && j.tsFlush == 10000 && |j.snd.buf| == 1 && j.snd.buf[0].resendts == 5225
  {
    var l := Opened().(current := 5000, tsFlush := 10000);
    assert Clock(Opened(), 5000) == (l, true);
    assert WindowSize(l) == 1;
    hide Clock, Flush, WindowSize;
    C.FlushTime(l);
    SentAt(l);
  }

  lemma SentAt(l: State)
    requires l.snd == Sender(0, 0, [], [Chunk(0, [1])]) && WindowSize(l) == 1 && l.updated
    requires l.current == 5000 && l.rtt.rto == 200 && !l.cfg.nodelay
    ensures var j := Flush(l).state; j.cfg == l.cfg && |j.snd.buf| == 1 && j.snd.buf[0].resendts == 5225
  {
    OneAdmitted(l);
    FlushConfig(l);
    hide AdmitAll, FlushState, FlushWires, Pack, WindowSize, Unused;
    T.FlushTimers(l, 0);
  }

  lemma OneAdmitted(k: State)
    requires k.snd == Sender(0, 0, [], [Chunk(0, [1])]) && WindowSize(k) == 1
    ensures |AdmitAll(k).buf| == 1 && AdmitAll(k).buf[0].xmit == 0
  {
    var t := Stamp(k.current, Unused(k.rcv), k.rcv.nxt, k.rtt.rto);
    var o := Fresh(Chunk(0, [1]), 0, t);
    hide Unused, WindowSize;
    assert k.snd.queue[1..] == [] && k.snd.buf + [o] == [o];
    assert Admit(k.snd, 1, t) == Sender(0, 1, [o], []);
  }

  lemma SlowRuns()
    ensures Run(Create(7), [OpInterval(5000), OpSend([1]), OpUpdate(0)]) == Update(Slow(), 0).state
  {
    var k := Interval(Create(7), 5000);
    SlowSends();
    hide Update, Run, SendTo;
    assert Step(Create(7), OpInterval(5000)) == k && Step(k, OpSend([1])) == Slow();
    StepUpdates(Slow(), 0);
    hide Step, Create, Slow, Interval;
    RunThree(Create(7), OpInterval(5000), OpSend([1]), OpUpdate(0));
  }

  lemma SlowSends()
    ensures var k := Interval(Create(7), 5000); k.cfg.mss > 0 && SendTo(k, [1]).state == Slow()
  {
    var data: Bytes := [1];
    assert data[..1] == data;
    assert F.Fragments(data, 1376, 1, false) == [Chunk(0, data[..1])] + F.Fragments(data[1..], 1376, 0, false);
    assert F.Send([], 1376, false, data) == F.Sent(0, [Chunk(0, data)]);
    hide F.Send;
  }

  function Slowly(): seq<Op> {
    [OpInterval(5000), OpSend([1]), OpUpdate(0)] + [OpUpdate(5000)]
  }

  lemma SlowlyRuns()
    ensures Run(Create(7), Slowly()) == Update(Opened(), 5000).state
  {
    SlowRuns();
    OpensWindow();
    assert Create(7).cfg.mss > 0 && Opened().cfg.mss > 0;
    hide Update, Run, Create, Opened, Slow, Step;
    StepUpdates(Opened(), 5000);
    RunSnoc(Create(7), [OpInterval(5000), OpSend([1]), OpUpdate(0)], OpUpdate(5000));
  }

  lemma StepUpdates(k: State, now: u32)
    requires k.cfg.mss > 0
    ensures Step(k, OpUpdate(now)) == Update(k, now).state
  {
    hide Update;
  }

  lemma RunSnoc(k: State, ops: seq<Op>, op: Op)
    requires k.cfg.mss > 0
    ensures Run(k, ops + [op]) == Step(Run(k, ops), op)
  {
    hide Run, Step;
    RunAppend(k, ops, [op]);
    RunOne(Run(k, ops), op);
  }

  /** The timer of a segment has run out and the flush time has not come: ikcp_check says to come at once, for almost five
      seconds, and each ikcp_update at such a time does nothing. */
  lemma CheckComesTooEarly(now: u32)
    requires 5225 <= now < 10000
    ensures var k := Run(Create(7), Slowly());
      Check(k, now) == now && Update(k, now) == Flushed(k.(current := now), [])
  {
    SlowlyRuns();
    SendsByte();
    hide Update, Run, Check, Opened, Slowly;
    ComesTooEarly(Run(Create(7), Slowly()), now);
  }

  lemma ComesTooEarly(k: State, now: u32)
    requires k.updated && k.cfg.interval == 5000 && k.tsFlush == 10000 && |k.snd.buf| == 1 && k.snd.buf[0].resendts == 5225
    requires 5225 <= now < 10000
    ensures Check(k, now) == now && Update(k, now) == Flushed(k.(current := now), [])
  {
    assert k.snd.buf[0] in k.snd.buf && C.Due(k.snd.buf[0], now) && C.Pending(k, now);
    hide Update, Check;
    C.CheckTooEarly(k, now);
  }
}
