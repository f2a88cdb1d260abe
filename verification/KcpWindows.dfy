/** The windows of the two sides: how much a flush admits, how it reacts to losses, and how a closed window is asked for and
    announced again. */
module KcpWindows {
  import opened Numbers
  import opened LittleEndian
  import opened KcpWire
  import opened KcpSender
  import opened KcpReceiver
  import opened KcpControl
  import opened KcpEngine
  import opened KcpRuns
  import opened KcpDatagrams
  import F = KcpFragments

  // ---------- what a flush admits ----------

  /** The send window is the least of the configured one, the peer's, and the congestion window where that counts. */
  lemma WindowIsLeast(k: State)
    ensures var w := WindowSize(k);
      && w <= k.cfg.sndWnd && w <= k.rmtWnd && (!k.cfg.nocwnd ==> w <= k.cc.cwnd)
      && (w == k.cfg.sndWnd || w == k.rmtWnd || (!k.cfg.nocwnd && w == k.cc.cwnd))
  {
  }

  lemma AdmitsFilled(k: State)
    requires EndpointOk(k)
    ensures var n := Admitted(k.snd, WindowSize(k));
      && AdmitAll(k) == Filled(k.snd, n, Stamp(k.current, Unused(k.rcv), k.rcv.nxt, k.rtt.rto))
      && InFlight(AdmitAll(k)) == InFlight(k.snd) + n
  {
    WindowIsLeast(k);
    assert SenderOk(k.snd) && k.rmtWnd <= 0xFFFF;
    hide EndpointOk, WindowSize, Unused, SenderOk, Filled, InFlight;
    AdmitFills(k.snd, WindowSize(k), Stamp(k.current, Unused(k.rcv), k.rcv.nxt, k.rtt.rto));
  }

  lemma SweptIs(k: State)
    ensures var s, t := AdmitAll(k), FlushState(k).snd;
      t == s.(buf := t.buf) && SameSegs(s.buf, t.buf)
  {
    SweepSame(AdmitAll(k).buf, TickOf(k));
    hide AdmitAll, TickOf, SweepAll, AfterFlush, ProbeTick;
  }

  /** After a flush as many numbers are in flight as before, or as the send window allows, or all there was to send; what
      was admitted was never sent and never skipped before. */
  lemma FlushFills(k: State)
    requires EndpointOk(k)
    ensures var s, t := k.snd, FlushState(k).snd;
      var n := Min(|s.queue|, Max(0, WindowSize(k) - InFlight(s)));
      && InFlight(t) == InFlight(s) + n && t.una == s.una && t.queue == s.queue[n..] && |t.buf| == |s.buf| + n
      && (forall i | |s.buf| <= i < |t.buf| ::
            ChunkOf(t.buf[i]) == s.queue[i - |s.buf|] && t.buf[i].sn == Wrap(s.nxt + (i - |s.buf|)))
      && |AdmitAll(k).buf| == |t.buf|
      && (forall i | |s.buf| <= i < |t.buf| :: Unsent(AdmitAll(k).buf[i]) && AdmitAll(k).buf[i].fastack == 0)
  {
    var n := Admitted(k.snd, WindowSize(k));
    AdmitsFilled(k);
    SweptIs(k);
    hide EndpointOk, WindowSize, Unused, FlushState, AdmitAll, Filled, Wrap;
    FilledIs(k.snd, n, Stamp(k.current, Unused(k.rcv), k.rcv.nxt, k.rtt.rto));
    assert InFlight(FlushState(k).snd) == InFlight(AdmitAll(k));
  }

  lemma FilledIs(s: Sender, n: nat, t: Stamp)
    requires n <= |s.queue|
    ensures var f := Filled(s, n, t);
      && f.una == s.una && f.queue == s.queue[n..] && |f.buf| == |s.buf| + n
      && forall i | |s.buf| <= i < |f.buf| ::
           && ChunkOf(f.buf[i]) == s.queue[i - |s.buf|] && f.buf[i].sn == Wrap(s.nxt + (i - |s.buf|))
           && Unsent(f.buf[i]) && f.buf[i].fastack == 0
  {
    hide Wrap;
  }

  // ---------- the reaction to losses ----------

  lemma {:induction false} SweepSees(k: State, buf: seq<OutSeg>)
    ensures SweepAll(buf, TickOf(k)).lost <==> exists o :: o in buf && TimedOut(k, o)
    ensures SweepAll(buf, TickOf(k)).change <==> exists o :: o in buf && Skipped(k, o)
  {
    if buf != [] {
      SweepSees(k, buf[1..]);
      var h := Transmit(buf[0], TickOf(k));
      assert h.lost <==> TimedOut(k, buf[0]);
      assert h.change <==> Skipped(k, buf[0]);
      hide Transmit, TimedOut, Skipped, TickOf;
      assert forall o :: o in buf <==> o == buf[0] || o in buf[1..];
    }
  }

  ghost predicate SomeTimedOut(k: State) {
    exists o :: o in AdmitAll(k).buf && TimedOut(k, o)
  }

  ghost predicate SomeSkipped(k: State) {
    exists o :: o in AdmitAll(k).buf && Skipped(k, o)
  }

  /** What a fast resend makes of the congestion window, when n numbers are in flight. */
  function Resumed(k: State, n: int): int {
    Max(n / 2, 2) + if k.cfg.fastresend > 0 then k.cfg.fastresend else -1
  }

  lemma ResumedIs(k: State, n: int)
    requires 0 <= n <= 0xFFFF && k.cfg.mss <= 0xFFFF && k.cfg.fastresend < 0x8000
    ensures 1 <= Resumed(k, n) <= 0xFFFF && Wrap(Max(n / 2, 2) + TickOf(k).resent) == Resumed(k, n)
    ensures 0 <= Resumed(k, n) * k.cfg.mss == Wrap(Resumed(k, n) * k.cfg.mss)
  {
    var w := Resumed(k, n);
    hide Unused, Resumed;
    assert 1 <= w <= 0xFFFF && Wrap(Max(n / 2, 2) + TickOf(k).resent) == w by { ResumedSum(k, n); }
    MulMono(w, 0xFFFF, k.cfg.mss);
    MulMono(k.cfg.mss, 0xFFFF, 0xFFFF);
    WrapSmall(w * k.cfg.mss);
  }

  lemma ResumedSum(k: State, n: int)
    requires 0 <= n <= 0xFFFF && k.cfg.fastresend < 0x8000
    ensures 1 <= Resumed(k, n) <= 0xFFFF && Wrap(Max(n / 2, 2) + TickOf(k).resent) == Resumed(k, n)
  {
    hide Unused;
  }

  /** One timeout in the window sends the congestion window back to one segment, with half the present window as the new
      threshold; without one, a fast resend makes it half of what is in flight and as many more as skips were needed;
      without either it stays, but at least at one segment. */
  lemma LossesShrink(k: State)
    requires EndpointOk(k) && k.cfg.mss <= 0xFFFF && k.cfg.fastresend < 0x8000
    ensures var c, n := FlushState(k).cc, InFlight(AdmitAll(k));
      if SomeTimedOut(k) then c == Congestion(1, Max(WindowSize(k) / 2, 2), k.cfg.mss)
      else if SomeSkipped(k) then
        c.cwnd as int == Resumed(k, n) && c.ssthresh as int == Max(n / 2, 2) && c.incr as int == Resumed(k, n) * k.cfg.mss
      else c == if k.cc.cwnd == 0 then Congestion(1, k.cc.ssthresh, k.cfg.mss) else k.cc
  {
    var s := AdmitAll(k);
    SweepSees(k, s.buf);
    AdmittedInFlight(k);
    ResumedIs(k, InFlight(s));
    var w: u32 := Resumed(k, InFlight(s));
    var bytes := w * k.cfg.mss;
    hide AdmitAll, SweepAll, WindowSize, EndpointOk, TimedOut, Skipped, InFlight, Wrap, Resumed, FlushState, Unused;
    CcIs(k);
    Reacts(k.cc, k.cfg.mss, SweepAll(s.buf, TickOf(k)).change, SweepAll(s.buf, TickOf(k)).lost, InFlight(s), TickOf(k).resent,
           WindowSize(k), w, bytes);
  }

  lemma CcIs(k: State)
    ensures var s, t := AdmitAll(k), TickOf(k);
      FlushState(k).cc == AfterFlush(k.cc, k.cfg.mss, SweepAll(s.buf, t).change, SweepAll(s.buf, t).lost, InFlight(s),
                                     t.resent, WindowSize(k))
  {
    hide AdmitAll, SweepAll, AfterFlush, ProbeTick, WindowSize, InFlight;
  }

  lemma Reacts(c: Congestion, mss: u32, change: bool, lost: bool, inflight: u32, resent: u32, window: u32, w: u32, bytes: int)
    requires w == Wrap(Max(inflight / 2, 2) + resent) && w >= 1 && bytes == w * mss == Wrap(w * mss)
    ensures var d := AfterFlush(c, mss, change, lost, inflight, resent, window);
      if lost then d == Congestion(1, Max(window / 2, 2), mss)
      else if change then d.cwnd == w && d.ssthresh as int == Max(inflight / 2, 2) && d.incr as int == bytes
      else d == if c.cwnd == 0 then Congestion(1, c.ssthresh, mss) else c
  {
    hide Wrap;
  }

  // ---------- asking for a closed window ----------

  /** The probe timer: off while the peer's window is open; set to seven seconds when it is found closed; moved on by half
      as much again, to two minutes at most, each time it has run out. */
  lemma ProbeTimer(k: State)
    ensures var p, q := k.probe, FlushState(k).probe;
      && !q.askSend && !q.askTell
      && (k.rmtWnd != 0 ==> q.wait == 0 && q.ts == 0)
      && (k.rmtWnd == 0 && p.wait == 0 ==> q.wait == 7000 && q.ts == Wrap(k.current + 7000))
      && (k.rmtWnd == 0 && p.wait != 0 && Diff(k.current, p.ts) < 0 ==> q.wait == p.wait && q.ts == p.ts)
      && (k.rmtWnd == 0 && 0 < p.wait <= 120000 && Diff(k.current, p.ts) >= 0 ==>
            q.wait as int == Min(Max(p.wait, 7000) * 3 / 2, 120000) && q.ts == Wrap(k.current + q.wait))
  {
    hide AdmitAll, SweepAll, AfterFlush, TickOf, Diff;
    if k.rmtWnd == 0 && 0 < k.probe.wait <= 120000 && Diff(k.current, k.probe.ts) >= 0 {
      var w := Max(k.probe.wait, 7000);
      WrapSmall(w + w / 2);
      hide Wrap;
    }
  }

  /** The peer's window is closed and the probe timer is running. */
  ghost predicate Closed(k: State, ts: u32, wait: u32) {
    && k.cfg.mss > 0 && k.rmtWnd == 0 && !k.probe.askSend && k.probe.ts == ts && k.probe.wait == wait && wait != 0
    && Diff(k.current, ts) < 0
  }

  /** A call before the probe timer runs out; what comes in says that the window is still closed. */
  ghost predicate StaysClosed(conv: u32, op: Op, ts: u32) {
    && (op.OpInput? ==> forall w <- Parse(conv, op.bytes).ws :: w.wnd == 0)
    && (op.OpUpdate? ==> Diff(op.current, ts) < 0)
  }

  lemma {:induction false} OnWiresRmt(k: State, ws: seq<Wire>)
    ensures ws != [] ==> OnWires(k, ws).rmtWnd == ws[|ws| - 1].wnd
    ensures ws == [] ==> OnWires(k, ws).rmtWnd == k.rmtWnd
    ensures OnWires(k, ws).probe == k.probe.(askTell := k.probe.askTell || exists w :: w in ws && w.cmd == CMD_WASK)
    ensures OnWires(k, ws).current == k.current
    decreases |ws|
  {
    if ws != [] {
      assert forall w :: w in ws <==> w == ws[0] || w in ws[1..];
      hide SenderOn, ReceiverOn, AcksOn, RttOn;
      OnWiresRmt(OnWire(k, ws[0]), ws[1..]);
    }
  }

  lemma InputRmt(k: State, b: Bytes)
    requires k.cfg.mss > 0
    ensures var ws, j := Parse(k.cfg.conv, b).ws, Input(k, b).state;
      && j.rmtWnd == (if ws == [] then k.rmtWnd else ws[|ws| - 1].wnd)
      && j.probe == k.probe.(askTell := k.probe.askTell || exists w :: w in ws && w.cmd == CMD_WASK)
      && j.current == k.current && j.cfg == k.cfg
  {
    var p := Parse(k.cfg.conv, b);
    assert |b| < OVERHEAD ==> p == Parsed([], 0);
    OnWiresConfig(k, p.ws);
    OnWiresRmt(k, p.ws);
    assert OnWires(k, []) == k;
    hide Parse, OnWires, CollectAll, Conclude;
    ConcludeRmt(OnWires(k, p.ws), CollectAll(NoAck, p.ws), k.snd.una);
  }

  lemma ConcludeRmt(k: State, m: MaxAck, una: u32)
    requires k.cfg.mss > 0
    ensures var j := Conclude(k, m, una);
      j.rmtWnd == k.rmtWnd && j.probe == k.probe && j.current == k.current && j.cfg == k.cfg
  {
    hide FastAck, Grow, Diff;
  }

  lemma FlushClosed(k: State, ts: u32, wait: u32)
    requires Closed(k, ts, wait)
    ensures Closed(FlushState(k), ts, wait)
  {
    ProbeTimer(k);
    hide AdmitAll, SweepAll, AfterFlush, ProbeTick, TickOf, Diff;
  }

  lemma StepClosed(k: State, op: Op, ts: u32, wait: u32)
    requires Closed(k, ts, wait) && StaysClosed(k.cfg.conv, op, ts)
    ensures Closed(Step(k, op), ts, wait) && Step(k, op).cfg.conv == k.cfg.conv
  {
    match op {
      case OpFlush =>
        FlushClosed(k, ts, wait);
        FlushConfig(k);
        hide FlushState, Pack, FlushWires, Diff;
      case OpUpdate(now) =>
        ClockKeeps(k, now);
        var k1 := Clock(k, now).0;
        assert Closed(k1, ts, wait) by { hide Clock, Diff; }
        FlushClosed(k1, ts, wait);
        FlushConfig(k1);
        hide Clock, FlushState, Pack, FlushWires, Diff;
      case OpInput(b) =>
        InputRmt(k, b);
        hide Input, Parse, Diff;
      case _ => hide AdmitAll, SweepAll, AfterFlush, F.Send, Recv, Diff;
    }
  }

  lemma {:induction false} RunClosed(k: State, ops: seq<Op>, ts: u32, wait: u32)
    requires Closed(k, ts, wait) && forall op <- ops :: StaysClosed(k.cfg.conv, op, ts)
    ensures Closed(Run(k, ops), ts, wait)
    decreases |ops|
  {
    if ops != [] {
      assert ops[0] in ops;
      StepClosed(k, ops[0], ts, wait);
      hide Step, StaysClosed;
      RunClosed(Step(k, ops[0]), ops[1..], ts, wait);
    }
  }

  lemma AskGoesOut(k: State)
    ensures WindowWire(k, CMD_WASK) in FlushWires(k) <==> Asks(k)
    ensures k.probe.askTell ==> WindowWire(k, CMD_WINS) in FlushWires(k)
  {
    AnnouncedIs(k);
    hide FlushWires, AdmitAll, DueOf, Asks;
    var data := DataWires(k, DueOf(k, AdmitAll(k).buf));
    assert forall w <- data :: w.cmd == CMD_PUSH;
    assert forall w <- Acknowledged(k) :: w.cmd == CMD_ACK;
    if Asks(k) {
      assert Announced(k)[|k.acks|] == WindowWire(k, CMD_WASK);
    }
    if k.probe.askTell {
      assert Announced(k)[|k.acks| + if Asks(k) then 1 else 0] == WindowWire(k, CMD_WINS);
    }
  }

  /** After a flush that found the peer's window closed: over any calls before the probe timer runs out, and any datagrams
      that leave the window closed, nobody is asked; the first flush at or after that time asks, and sets the timer
      anew. */
  lemma AskedOncePerWait(k: State, ops: seq<Op>, now: u32)
    requires k.cfg.mss > 0 && k.rmtWnd == 0
    requires var q := FlushState(k).probe;
      && q.wait != 0 && q.wait <= 120000 && Diff(k.current, q.ts) < 0 && Diff(now, q.ts) >= 0
      && forall op <- ops :: StaysClosed(k.cfg.conv, op, q.ts)
    ensures FlushState(k).cfg.mss > 0
    ensures var q, j := FlushState(k).probe, Run(FlushState(k), ops);
      && !Asks(j)
      && var l := j.(current := now);
         && WindowWire(l, CMD_WASK) in FlushWires(l)
         && FlushState(l).probe.wait as int == Min(Max(q.wait, 7000) * 3 / 2, 120000)
         && FlushState(l).probe.ts == Wrap(now + FlushState(l).probe.wait)
  {
    var q := FlushState(k).probe;
    StartsClosed(k);
    FlushConfig(k);
    hide FlushState, Run, StaysClosed, Closed, Diff, FlushWires, WindowWire, Wrap, Asks;
    RunClosed(FlushState(k), ops, q.ts, q.wait);
    ClosedEnds(Run(FlushState(k), ops), q.ts, q.wait, now);
  }

  lemma StartsClosed(k: State)
    requires k.cfg.mss > 0 && k.rmtWnd == 0 && FlushState(k).probe.wait != 0 && Diff(k.current, FlushState(k).probe.ts) < 0
    ensures Closed(FlushState(k), FlushState(k).probe.ts, FlushState(k).probe.wait)
  {
    ProbeTimer(k);
    hide AdmitAll, SweepAll, AfterFlush, ProbeTick, TickOf, Diff;
  }

  /** The state up to the time of the probe timer, and the flush at that time. */
  lemma ClosedEnds(j: State, ts: u32, wait: u32, now: u32)
    requires Closed(j, ts, wait) && wait <= 120000 && Diff(now, ts) >= 0
    ensures !Asks(j)
    ensures var l := j.(current := now);
      && WindowWire(l, CMD_WASK) in FlushWires(l)
      && FlushState(l).probe.wait as int == Min(Max(wait, 7000) * 3 / 2, 120000)
      && FlushState(l).probe.ts == Wrap(now + FlushState(l).probe.wait)
  {
    var l := j.(current := now);
    hide FlushState, Diff, FlushWires, WindowWire, Wrap;
    AskGoesOut(l);
    ProbeTimer(l);
  }

  /** Between two probes lie seven seconds at least and two minutes at most, or no probe is to come. */
  predicate ProbeOk(k: State) {
    k.cfg.mss > 0 && (k.probe.wait == 0 || 7000 <= k.probe.wait <= 120000)
  }

  lemma StepProbe(k: State, op: Op)
    requires ProbeOk(k)
    ensures ProbeOk(Step(k, op))
  {
    StepMss(k, op);
    match op {
      case OpFlush =>
        ProbeTimer(k);
        hide FlushState, Pack, FlushWires, Diff;
      case OpUpdate(now) =>
        ClockKeeps(k, now);
        ProbeTimer(Clock(k, now).0);
        assert Clock(k, now).0.probe == k.probe by { hide NextFlush; }
        hide Clock, FlushState, Pack, FlushWires, Diff;
      case OpInput(b) =>
        InputRmt(k, b);
        hide Input, Parse;
      case _ => hide AdmitAll, SweepAll, AfterFlush, F.Send, Recv;
    }
  }

  lemma {:induction false} RunProbe(k: State, ops: seq<Op>)
    requires ProbeOk(k)
    ensures ProbeOk(Run(k, ops))
    decreases |ops|
  {
    if ops != [] {
      StepProbe(k, ops[0]);
      hide Step, ProbeOk;
      assert k.cfg.mss > 0 by { ProbeMss(k); }
      assert Step(k, ops[0]).cfg.mss > 0 by { ProbeMss(Step(k, ops[0])); }
      RunProbe(Step(k, ops[0]), ops[1..]);
    }
  }

  lemma ProbeMss(k: State)
    requires ProbeOk(k)
    ensures k.cfg.mss > 0
  {
  }

  // ---------- announcing a window that has opened ----------

  /** ikcp_recv asks for an announcement exactly when it has made room in a queue that was full. */
  lemma RecvTells(k: State, len: int)
    ensures var v := Recv(k.rcv, len);
      RecvFrom(k, len).probe.askTell
      <==> k.probe.askTell || (v.code >= 0 && |k.rcv.queue| >= k.rcv.wnd && |v.rcv.queue| < k.rcv.wnd)
    ensures RecvFrom(k, len).probe == k.probe.(askTell := RecvFrom(k, len).probe.askTell)
  {
    hide PeekSize, Pull, Join, HeadCount;
  }

  /** The next flush then tells the peer, and the window it tells is not closed. */
  lemma RoomIsTold(k: State, len: int, now: u32)
    requires k.rcv.wnd <= 0xFFFF
    requires Recv(k.rcv, len).code >= 0 && |k.rcv.queue| >= k.rcv.wnd > |Recv(k.rcv, len).rcv.queue|
    ensures var j := RecvFrom(k, len).(current := now);
      && WindowWire(j, CMD_WINS) in FlushWires(j)
      && WindowWire(j, CMD_WINS).wnd == k.rcv.wnd - |j.rcv.queue| > 0
  {
    RecvTells(k, len);
    RecvWnd(k.rcv, len);
    var j := RecvFrom(k, len).(current := now);
    AskGoesOut(j);
    AdvertisesFree(j.rcv);
    hide Recv, FlushWires, Unused;
  }

  /** A question of the peer is answered by the next flush, and nothing else in a datagram makes for an answer. */
  lemma QuestionIsAnswered(k: State, b: Bytes)
    requires k.cfg.mss > 0
    ensures var j := Input(k, b).state;
      && (j.probe.askTell <==> k.probe.askTell || exists w :: w in Parse(k.cfg.conv, b).ws && w.cmd == CMD_WASK)
      && (j.probe.askTell ==> WindowWire(j, CMD_WINS) in FlushWires(j))
  {
    InputRmt(k, b);
    hide Input, Parse, FlushWires, WindowWire;
    AskGoesOut(Input(k, b).state);
  }

  lemma AllSameWindow(k: State, w: Wire)
    requires w in FlushWires(k)
    ensures w.wnd == Unused(k.rcv) && w.una == k.rcv.nxt
  {
    AnnouncedIs(k);
    hide FlushWires, AdmitAll, DueOf, Asks, Unused;
  }

  /** Any one datagram of a flush is enough for the peer to know the window. */
  lemma WindowIsRead(y: State, x: State, size: nat, d: Bytes)
    requires y.updated && Sized(y.snd, size) && size < 0x8000_0000 && d in Flush(y).out
    requires x.cfg.mss > 0 && x.cfg.conv == y.cfg.conv
    ensures Input(x, d).state.rmtWnd == Unused(y.rcv)
  {
    var ws := FlushWires(y);
    AnnouncedFits(y, size);
    AnnouncedIs(y);
    hide FlushWires, Announced, Unused;
    PackParse(y.cfg.conv, y.cfg.mtu, ws);
    InputRmt(x, d);
    var r := Parse(x.cfg.conv, d).ws;
    assert Whole(y.cfg.conv, d) by { hide Pack, Whole, Parse, FlushState; }
    assert r != [] by { hide Parse, Pack; }
    hide Parse, Pack, Input, FlushState, Encode;
    ParseAllContains(y.cfg.conv, Pack(y.cfg.conv, y.cfg.mtu, ws), d, r[|r| - 1]);
    AllSameWindow(y, r[|r| - 1]);
  }

  /** Room made in a full queue opens the window at the other side: any datagram of the next flush tells it. */
  lemma WindowReopens(y: State, len: int, now: u32, x: State, size: nat, d: Bytes)
    requires y.updated && Sized(y.snd, size) && size < 0x8000_0000 && y.rcv.wnd <= 0xFFFF
    requires Recv(y.rcv, len).code >= 0 && |y.rcv.queue| >= y.rcv.wnd > |Recv(y.rcv, len).rcv.queue|
    requires x.cfg.mss > 0 && x.cfg.conv == y.cfg.conv
    ensures var j := RecvFrom(y, len).(current := now);
      && Flush(j).out != []
      && (d in Flush(j).out ==> Input(x, d).state.rmtWnd as int == y.rcv.wnd - |j.rcv.queue| > 0)
  {
    var j := RecvFrom(y, len).(current := now);
    RoomIsTold(y, len, now);
    assert j.updated && Sized(j.snd, size) && j.cfg == y.cfg by { hide Recv; }
    AnnouncedFits(j, size);
    AnnouncedIs(j);
    hide Recv, FlushWires, Announced, Sized, FlushState, Pack, Unused, Input, RecvFrom;
    PackParse(j.cfg.conv, j.cfg.mtu, FlushWires(j));
    assert WindowWire(j, CMD_WINS).wnd == Unused(j.rcv);
    if d in Flush(j).out {
      WindowIsRead(j, x, size, d);
    }
  }
}
