/** Invariants of one control block over every series of calls, with arbitrary bytes as input. */
module KcpRuns {
  import opened Numbers
  import opened LittleEndian
  import opened KcpWire
  import opened KcpSender
  import opened KcpReceiver
  import opened KcpControl
  import opened KcpEngine

  datatype Op =
    | OpSend(data: Bytes)
    | OpRecv(len: int)
    | OpInput(bytes: Bytes)
    | OpUpdate(current: u32)
    | OpFlush
    | OpNoDelay(nodelay: int, interval: int, resend: int, nc: int)
    | OpWndSize(sndWnd: int32, rcvWnd: int32)
    | OpSetMtu(mtu: int32)
    | OpInterval(interval: int)
    | OpStream(on: bool)  // the field is set from outside

  function Step(k: State, op: Op): (k': State)
    requires k.cfg.mss > 0
  {
    match op
    case OpSend(data) => SendTo(k, data).state
    case OpRecv(len) => RecvFrom(k, len)
    case OpInput(b) => Input(k, b).state
    case OpUpdate(c) => Update(k, c).state
    case OpFlush => Flush(k).state
    case OpNoDelay(n, i, r, c) => NoDelay(k, n, i, r, c)
    case OpWndSize(s, r) => WndSize(k, s, r)
    case OpSetMtu(m) => SetMtu(k, m).state
    case OpInterval(i) => Interval(k, i)
    case OpStream(on) => k.(cfg := k.cfg.(stream := on))
  }

  /** Windows may be raised during a run but not lowered. */
  predicate NotLowered(k: State, op: Op) {
    op.OpWndSize? ==> (op.sndWnd <= 0 || op.sndWnd >= k.cfg.sndWnd) && (op.rcvWnd <= 0 || Max(op.rcvWnd, WND_RCV) >= k.rcv.wnd)
  }

  predicate Resized(k: State, op: Op) {
    op.OpWndSize? && op.rcvWnd > 0 && Max(op.rcvWnd, WND_RCV) != k.rcv.wnd
  }

  /** The window of segments in flight and the window of segments received, modulo 2^32. */
  ghost predicate EndpointOk(k: State) {
    && k.cfg.mss > 0
    && SenderOk(k.snd) && InFlight(k.snd) <= k.cfg.sndWnd
    && ReceiverOk(k.rcv)
    && k.rmtWnd <= 0xFFFF
  }

  // ---------- input ----------

  lemma ReceiverOnKeeps(r: Receiver, w: Wire)
    requires ReceiverOk(r)
    ensures ReceiverOk(ReceiverOn(r, w)) && ReceiverOn(r, w).wnd == r.wnd
    ensures Settled(r) ==> Settled(ReceiverOn(r, w))
  {
    hide ParseData, Diff, BeyondWindow, ReceiverOk, Settled;
    ParseDataKeeps(r, w);
  }

  lemma SenderOnKeeps(s: Sender, w: Wire)
    requires SenderOk(s)
    ensures SenderOk(SenderOn(s, w))
    ensures Dist(s.una, SenderOn(s, w).una) + InFlight(SenderOn(s, w)) == InFlight(s) <= 0xFFFF
  {
    assert InFlight(s) <= 0xFFFF;
    hide SenderOk, InFlight, Dist, OnUna, OnAck;
    var s1 := OnUna(s, w.una);
    OnUnaKeeps(s, w.una);
    OnAckKeeps(s1, w.sn);
    InFlightChain(s, s1, OnAck(s1, w.sn));
  }

  lemma OnWireKeeps(k: State, w: Wire)
    requires EndpointOk(k)
    ensures EndpointOk(OnWire(k, w))
    ensures Dist(k.snd.una, OnWire(k, w).snd.una) + InFlight(OnWire(k, w).snd) == InFlight(k.snd)
    ensures Settled(k.rcv) ==> Settled(OnWire(k, w).rcv)
  {
    hide SenderOk, ReceiverOk, InFlight, Dist, SenderOn, ReceiverOn, RttOn, AcksOn, Settled;
    SenderOnKeeps(k.snd, w);
    ReceiverOnKeeps(k.rcv, w);
  }

  /** Two advances of snd_una add up. */
  lemma InFlightChain(a: Sender, b: Sender, c: Sender)
    requires InFlight(a) <= 0xFFFF
    requires Dist(a.una, b.una) + InFlight(b) == InFlight(a)
    requires Dist(b.una, c.una) + InFlight(c) == InFlight(b)
    ensures Dist(a.una, c.una) + InFlight(c) == InFlight(a)
  {
    DistAdd(a.una, b.una, c.una);
  }

  lemma DistAdd(a: u32, b: u32, c: u32)
    requires Dist(a, b) + Dist(b, c) < 0x1_0000_0000
    ensures Dist(a, c) == Dist(a, b) + Dist(b, c)
  {
    WrapAdd(b - a, c - b);
    WrapAdd(c - b, Wrap(b - a));
    WrapSmall(Dist(a, b) + Dist(b, c));
    assert (b - a) + (c - b) == c - a;
  }

  lemma {:induction false} OnWiresKeeps(k: State, ws: seq<Wire>)
    requires EndpointOk(k)
    ensures EndpointOk(OnWires(k, ws))
    ensures Dist(k.snd.una, OnWires(k, ws).snd.una) + InFlight(OnWires(k, ws).snd) == InFlight(k.snd)
    ensures Settled(k.rcv) ==> Settled(OnWires(k, ws).rcv)
    decreases |ws|
  {
    assert InFlight(k.snd) <= 0xFFFF;
    DistSelf(k.snd.una);
    if ws != [] {
      var k1 := OnWire(k, ws[0]);
      OnWireKeeps(k, ws[0]);
      OnWiresKeeps(k1, ws[1..]);
      InFlightChain(k.snd, k1.snd, OnWires(k1, ws[1..]).snd);
    }
    hide EndpointOk, InFlight, Dist, OnWire, Settled;
  }

  lemma ConcludeKeeps(k: State, m: MaxAck, una: u32)
    requires EndpointOk(k)
    ensures EndpointOk(Conclude(k, m, una)) && Conclude(k, m, una).rcv == k.rcv
    ensures Conclude(k, m, una).snd.una == k.snd.una && InFlight(Conclude(k, m, una).snd) == InFlight(k.snd)
  {
    hide SenderOk, ReceiverOk, Diff, Grow;
    if m.MaxAck? {
      FastAckKeeps(k.snd, m.sn);
    }
  }

  /** A datagram of any bytes whatever keeps the windows, and never moves snd_una back. */
  lemma InputKeeps(k: State, b: Bytes)
    requires EndpointOk(k)
    ensures EndpointOk(Input(k, b).state)
    ensures Dist(k.snd.una, Input(k, b).state.snd.una) + InFlight(Input(k, b).state.snd) == InFlight(k.snd)
    ensures Settled(k.rcv) ==> Settled(Input(k, b).state.rcv)
  {
    DistSelf(k.snd.una);
    RmtWndRange(k);
    hide EndpointOk, Dist, InFlight, Parse, OnWires, Conclude, CollectAll, Settled;
    if |b| >= OVERHEAD {
      var p := Parse(k.cfg.conv, b);
      OnWiresKeeps(k, p.ws);
      if p.code == 0 {
        OnWiresConfig(k, p.ws);
        ConcludeKeeps(OnWires(k, p.ws), CollectAll(NoAck, p.ws), k.snd.una);
      }
    }
  }

  // ---------- flush ----------

  lemma {:induction false} SweepSame(buf: seq<OutSeg>, t: Tick)
    ensures SameSegs(buf, SweepAll(buf, t).buf)
  {
    if buf != [] {
      SweepSame(buf[1..], t);
      var h := Transmit(buf[0], t);
      assert h.seg.sn == buf[0].sn && ChunkOf(h.seg) == ChunkOf(buf[0]);
      hide Transmit;
      assert buf == [buf[0]] + buf[1..];
    }
  }

  lemma FlushKeeps(k: State)
    requires EndpointOk(k)
    ensures EndpointOk(FlushState(k))
    ensures FlushState(k).snd.una == k.snd.una && FlushState(k).rcv == k.rcv
    ensures InFlight(FlushState(k).snd) == InFlight(k.snd) + Admitted(k.snd, WindowSize(k))
  {
    var w := WindowSize(k);
    assert w <= 0xFFFF && w <= k.cfg.sndWnd;
    var t := Stamp(k.current, Unused(k.rcv), k.rcv.nxt, k.rtt.rto);
    AdmitFills(k.snd, w, t);
    var s := AdmitAll(k);
    assert s.una == k.snd.una;
    SweepSame(s.buf, TickOf(k));
    SameSegsKeeps(s, SweepAll(s.buf, TickOf(k)).buf);
    hide SenderOk, ReceiverOk, SweepAll, Admit, AfterFlush, ProbeTick, TickOf, WindowSize;
  }

  // ---------- runs ----------

  /** Every call keeps the windows; snd_una only advances, and only over segments that were in flight. */
  lemma StepKeeps(k: State, op: Op)
    requires EndpointOk(k) && NotLowered(k, op)
    ensures EndpointOk(Step(k, op))
    ensures Dist(k.snd.una, Step(k, op).snd.una) <= InFlight(k.snd)
    ensures Settled(k.rcv) && !Resized(k, op) ==> Settled(Step(k, op).rcv)
  {
    DistSelf(k.snd.una);
    match op {
      case OpSend(data) => QueueKeeps(k, SendTo(k, data).state.snd.queue);
      case OpRecv(len) => RecvKeeps(k.rcv, len); hide ReceiverOk, SenderOk, Recv, Settled;
      case OpInput(b) => InputKeeps(k, b); hide EndpointOk, Input, Settled;
      case OpUpdate(c) => UpdateKeeps(k, c); hide EndpointOk, Update, Settled;
      case OpFlush => FlushKeeps(k); hide EndpointOk, FlushState, Settled;
      case OpNoDelay(n, i, r, c) => hide SenderOk, ReceiverOk, Settled;
      case OpWndSize(s, r) => WndSizeKeeps(k, s, r);
      case OpSetMtu(m) => hide SenderOk, ReceiverOk, Settled;
      case _ => hide SenderOk, ReceiverOk, Settled;
    }
  }

  lemma QueueKeeps(k: State, q: seq<Chunk>)
    requires EndpointOk(k)
    ensures EndpointOk(k.(snd := k.snd.(queue := q)))
  {
    hide ReceiverOk, Dist;
  }

  lemma UpdateKeeps(k: State, c: u32)
    requires EndpointOk(k)
    ensures EndpointOk(Update(k, c).state)
    ensures Update(k, c).state.snd.una == k.snd.una && Update(k, c).state.rcv == k.rcv
  {
    var k1 := Clock(k, c).0;
    ClockKeeps(k, c);
    assert EndpointOk(k1) by { hide SenderOk, ReceiverOk; }
    FlushKeeps(k1);
    hide EndpointOk, Clock, FlushState;
  }

  lemma ClockKeeps(k: State, c: u32)
    ensures var k1 := Clock(k, c).0;
      k1.snd == k.snd && k1.rcv == k.rcv && k1.cfg == k.cfg && k1.rmtWnd == k.rmtWnd && k1.cc == k.cc
    ensures Clock(k, c).0.updated && Clock(k, c).0.current == c && Clock(k, c).0.acks == k.acks
  {
    hide Diff;
  }

  lemma WndSizeKeeps(k: State, s: int32, r: int32)
    requires EndpointOk(k) && NotLowered(k, OpWndSize(s, r))
    ensures EndpointOk(WndSize(k, s, r))
    ensures WndSize(k, s, r).snd == k.snd
    ensures WndSize(k, s, r).rcv == k.rcv.(wnd := WndSize(k, s, r).rcv.wnd)
    ensures !Resized(k, OpWndSize(s, r)) ==> WndSize(k, s, r).rcv == k.rcv
  {
    hide SenderOk, Dist;
  }

  /** Raising rcv_wnd leaves a ready segment in the buffer exactly when the queue was full and one was waiting. */
  lemma RaiseUnsettles(k: State, s: int32, r: int32)
    requires EndpointOk(k) && Settled(k.rcv) && r > 0 && Max(r, WND_RCV) > k.rcv.wnd
    ensures !Settled(WndSize(k, s, r).rcv) <==> k.rcv.buf != [] && k.rcv.buf[0].sn == k.rcv.nxt
  {
    hide Dist, SenderOk;
  }

  function Run(k: State, ops: seq<Op>): (k': State)
    requires k.cfg.mss > 0
    ensures k'.cfg.mss > 0
    decreases |ops|
  {
    if ops == [] then k
    else
      StepMss(k, ops[0]);
      Run(Step(k, ops[0]), ops[1..])
  }

  lemma StepMss(k: State, op: Op)
    requires k.cfg.mss > 0
    ensures Step(k, op).cfg.mss > 0
    ensures !op.OpSetMtu? ==> Step(k, op).cfg.mss == k.cfg.mss
  {
    if op.OpInput? {
      OnWiresConfig(k, Parse(k.cfg.conv, op.bytes).ws);
      hide Parse, OnWires, CollectAll, FastAck, Grow, Diff;
    } else {
      hide Clock, F.Send, Recv, AdmitAll, SweepAll;
      if op.OpUpdate? { ClockKeeps(k, op.current); }
    }
  }

  lemma {:induction false} RunAppend(k: State, a: seq<Op>, b: seq<Op>)
    requires k.cfg.mss > 0
    ensures Run(k, a + b) == Run(Run(k, a), b)
    decreases |a|
  {
    if a == [] {
      assert a + b == b;
    } else {
      StepMss(k, a[0]);
      RunAppend(Step(k, a[0]), a[1..], b);
      assert (a + b)[1..] == a[1..] + b;
    }
    hide Step;
  }

  ghost predicate AllNotLowered(k: State, ops: seq<Op>)
    requires k.cfg.mss > 0
    decreases |ops|
  {
    ops == [] || (NotLowered(k, ops[0]) && (StepMss(k, ops[0]); AllNotLowered(Step(k, ops[0]), ops[1..])))
  }

  lemma {:induction false} RunKeeps(k: State, ops: seq<Op>)
    requires EndpointOk(k) && AllNotLowered(k, ops)
    ensures EndpointOk(Run(k, ops))
    decreases |ops|
  {
    if ops != [] {
      StepMss(k, ops[0]);
      StepKeeps(k, ops[0]);
      RunKeeps(Step(k, ops[0]), ops[1..]);
    }
    hide EndpointOk, Step, NotLowered;
  }

  ghost predicate NeverResized(k: State, ops: seq<Op>)
    requires k.cfg.mss > 0
    decreases |ops|
  {
    ops == [] || (!Resized(k, ops[0]) && (StepMss(k, ops[0]); NeverResized(Step(k, ops[0]), ops[1..])))
  }

  lemma {:induction false} RunSettles(k: State, ops: seq<Op>)
    requires EndpointOk(k) && AllNotLowered(k, ops) && NeverResized(k, ops) && Settled(k.rcv)
    ensures Settled(Run(k, ops).rcv)
    decreases |ops|
  {
    if ops != [] {
      StepMss(k, ops[0]);
      StepKeeps(k, ops[0]);
      RunSettles(Step(k, ops[0]), ops[1..]);
    }
    hide EndpointOk, Step, NotLowered, Resized, Settled;
  }

  /** A fresh control block with any windows. */
  function Configured(conv: u32, sndWnd: int32, rcvWnd: int32): (k: State)
    ensures k.cfg.mss > 0
  {
    WndSize(Create(conv), sndWnd, rcvWnd)
  }

  lemma CreateOk(conv: u32)
    ensures EndpointOk(Create(conv)) && Settled(Create(conv).rcv)
  {
  }

  lemma ConfiguredOk(conv: u32, sndWnd: int32, rcvWnd: int32)
    ensures EndpointOk(Configured(conv, sndWnd, rcvWnd)) && Settled(Configured(conv, sndWnd, rcvWnd).rcv)
  {
    CreateOk(conv);
    DistSelf(0);
    hide Dist;
  }

  /** While the receive window stays as it was configured, the segment that is next in line waits in the buffer only
      when the queue is full. */
  lemma ReachableSettled(conv: u32, sndWnd: int32, rcvWnd: int32, ops: seq<Op>)
    requires var k := Configured(conv, sndWnd, rcvWnd); AllNotLowered(k, ops) && NeverResized(k, ops)
    ensures var k := Run(Configured(conv, sndWnd, rcvWnd), ops);
      k.rcv.buf != [] && k.rcv.buf[0].sn == k.rcv.nxt ==> |k.rcv.queue| >= k.rcv.wnd
  {
    ConfiguredOk(conv, sndWnd, rcvWnd);
    RunSettles(Configured(conv, sndWnd, rcvWnd), ops);
    hide Run, Configured;
  }

  /** In every state a control block can reach, whatever it was sent: the in-flight window is ascending in
      [snd_una, snd_nxt) and at most min(snd_wnd, 65535) wide, and the receive side is ascending and
      duplicate-free in [rcv_nxt, rcv_nxt + rcv_wnd) with at most rcv_wnd entries in either queue. */
  lemma ReachableEndpoint(conv: u32, sndWnd: int32, rcvWnd: int32, ops: seq<Op>)
    requires AllNotLowered(Configured(conv, sndWnd, rcvWnd), ops)
    ensures var k := Run(Configured(conv, sndWnd, rcvWnd), ops);
      && EndpointOk(k)
      && |k.snd.buf| <= InFlight(k.snd) <= Min(k.cfg.sndWnd, 0xFFFF)
      && |k.rcv.buf| <= k.rcv.wnd && |k.rcv.queue| <= k.rcv.wnd
  {
    ConfiguredOk(conv, sndWnd, rcvWnd);
    RunKeeps(Configured(conv, sndWnd, rcvWnd), ops);
    var k := Run(Configured(conv, sndWnd, rcvWnd), ops);
    if k.rcv.buf != [] {
      BufferFits(k.rcv, |k.rcv.buf|);
    }
    if k.snd.buf != [] {
      WindowFits(k.snd, |k.snd.buf|);
    }
    hide Run, AllNotLowered, Dist, Configured;
  }

  lemma {:induction false} WindowFits(s: Sender, n: nat)
    requires Window(s) && 0 < n <= |s.buf|
    ensures n - 1 <= Dist(s.una, s.buf[n - 1].sn)
    ensures n <= InFlight(s)
  {
    hide Dist;
    if n > 1 {
      WindowFits(s, n - 1);
      assert Dist(s.una, s.buf[n - 2].sn) < Dist(s.una, s.buf[n - 1].sn);
    }
  }

  // ---------- congestion window ----------

  /** Calls that leave the segment size alone and keep fast resend within the range where products fit a word. */
  predicate Steady(op: Op) {
    !op.OpSetMtu? && (op.OpNoDelay? ==> op.resend <= 0x8000)
  }

  ghost predicate CongestionReach(k: State) {
    EndpointOk(k) && k.cfg.mss <= 0xFFFF && k.cfg.fastresend <= 0x8000 && CongestionOk(k.cc, k.cfg.mss)
  }

  lemma {:induction false} OnWiresCc(k: State, ws: seq<Wire>)
    ensures OnWires(k, ws).cc == k.cc
    decreases |ws|
  {
    if ws != [] {
      OnWiresCc(OnWire(k, ws[0]), ws[1..]);
    }
  }

  /** One datagram raises cwnd by at most one, and never above the window the peer has announced. */
  lemma InputCongestion(k: State, b: Bytes)
    requires CongestionReach(k)
    ensures var k' := Input(k, b).state;
      && CongestionOk(k'.cc, k.cfg.mss)
      && k.cc.cwnd <= k'.cc.cwnd <= k.cc.cwnd + 1
      && k'.cc.cwnd <= Max(k.cc.cwnd, k'.rmtWnd)
  {
    if |b| >= OVERHEAD {
      var p := Parse(k.cfg.conv, b);
      hide EndpointOk, Parse, OnWires, CongestionOk, CollectAll, Grow, FastAck;
      OnWiresCc(k, p.ws);
      OnWiresConfig(k, p.ws);
      OnWiresKeeps(k, p.ws);
      var k1 := OnWires(k, p.ws);
      assert k1.rmtWnd <= 0xFFFF by { assert EndpointOk(k1); RmtWndRange(k1); }
      GrowKeeps(k.cc, k.cfg.mss, k1.rmtWnd);
    }
  }

  lemma RmtWndRange(k: State)
    requires EndpointOk(k)
    ensures k.rmtWnd <= 0xFFFF && k.cfg.mss > 0 && InFlight(k.snd) <= 0xFFFF
  {
  }

  lemma FlushCongestion(k: State)
    requires CongestionReach(k)
    ensures CongestionOk(FlushState(k).cc, k.cfg.mss)
    ensures FlushState(k).cc.cwnd >= 1
  {
    AdmittedInFlight(k);
    hide EndpointOk, CongestionOk, AdmitAll, SweepAll, AfterFlush, InFlight, Admit, WindowSize, ProbeTick, Unused;
    var s := AdmitAll(k);
    var sweep := SweepAll(s.buf, TickOf(k));
    assert TickOf(k).resent <= 0x8000 || TickOf(k).resent == 0xFFFF_FFFF by { ResentRange(k); }
    hide TickOf;
    AfterFlushKeeps(k.cc, k.cfg.mss, sweep.change, sweep.lost, InFlight(s), TickOf(k).resent, WindowSize(k));
  }

  lemma ResentRange(k: State)
    requires k.cfg.fastresend <= 0x8000
    ensures TickOf(k).resent <= 0x8000 || TickOf(k).resent == 0xFFFF_FFFF
  {
    hide Unused;
  }

  lemma AdmittedInFlight(k: State)
    requires EndpointOk(k)
    ensures InFlight(AdmitAll(k)) <= 0xFFFF
  {
    FlushKeeps(k);
    hide SweepAll, Admit;
  }

  lemma StepCongestion(k: State, op: Op)
    requires CongestionReach(k) && NotLowered(k, op) && Steady(op)
    ensures CongestionReach(Step(k, op))
  {
    StepKeeps(k, op);
    StepMss(k, op);
    StepCc(k, op);
    hide EndpointOk, CongestionOk, Step;
  }

  lemma StepCc(k: State, op: Op)
    requires CongestionReach(k) && NotLowered(k, op) && Steady(op)
    ensures CongestionOk(Step(k, op).cc, k.cfg.mss) && Step(k, op).cfg.fastresend <= 0x8000
  {
    hide CongestionOk, Input, Update, FlushState, EndpointOk;
    match op {
      case OpInput(b) =>
        InputCongestion(k, b);
        InputConfig(k, b) by { RmtWndRange(k); }
      case OpUpdate(c) => UpdateCongestion(k, c);
      case OpFlush => FlushCongestion(k); FlushConfig(k);
      case _ =>
    }
  }

  lemma FlushConfig(k: State)
    ensures FlushState(k).cfg == k.cfg
  {
    hide AdmitAll, SweepAll, AfterFlush, ProbeTick;
  }

  lemma InputConfig(k: State, b: Bytes)
    requires k.cfg.mss > 0
    ensures Input(k, b).state.cfg == k.cfg
  {
    OnWiresConfig(k, Parse(k.cfg.conv, b).ws);
    hide Parse, OnWires, CollectAll, FastAck, Grow, Diff;
  }

  lemma UpdateCongestion(k: State, c: u32)
    requires CongestionReach(k)
    ensures CongestionOk(Update(k, c).state.cc, k.cfg.mss) && Update(k, c).state.cfg == k.cfg
  {
    ClockKeeps(k, c);
    var k1 := Clock(k, c).0;
    assert EndpointOk(k1) by { hide SenderOk, ReceiverOk; }
    FlushCongestion(k1);
    hide EndpointOk, CongestionOk, Clock, AfterFlush, AdmitAll, SweepAll;
  }

  ghost predicate AllSteady(ops: seq<Op>) {
    forall op <- ops :: Steady(op)
  }

  lemma {:induction false} RunCongestion(k: State, ops: seq<Op>)
    requires CongestionReach(k) && AllNotLowered(k, ops) && AllSteady(ops)
    ensures CongestionReach(Run(k, ops))
    decreases |ops|
  {
    if ops != [] {
      StepMss(k, ops[0]);
      StepCongestion(k, ops[0]);
      RunCongestion(Step(k, ops[0]), ops[1..]);
    }
    hide CongestionReach, Step, NotLowered, Steady;
  }

  /** After any run with a fixed mtu, incr lies in the cwnd-th segment and ssthresh is at least 2. */
  lemma ReachableCongestion(conv: u32, sndWnd: int32, rcvWnd: int32, mtu: int32, ops: seq<Op>)
    requires 50 <= mtu <= 0xFFFF
    requires AllNotLowered(SetMtu(Configured(conv, sndWnd, rcvWnd), mtu).state, ops) && AllSteady(ops)
    ensures var k := Run(SetMtu(Configured(conv, sndWnd, rcvWnd), mtu).state, ops);
            k.cfg.mss == mtu - OVERHEAD && CongestionOk(k.cc, k.cfg.mss)
  {
    var k := SetMtu(Configured(conv, sndWnd, rcvWnd), mtu).state;
    ConfiguredOk(conv, sndWnd, rcvWnd);
    assert EndpointOk(k) by { hide SenderOk, ReceiverOk; }
    RunCongestion(k, ops);
    RunMss(k, ops);
  }

  lemma {:induction false} RunMss(k: State, ops: seq<Op>)
    requires k.cfg.mss > 0 && AllSteady(ops)
    ensures Run(k, ops).cfg.mss == k.cfg.mss
    decreases |ops|
  {
    if ops != [] {
      assert Steady(ops[0]);
      hide Step;
      StepMss(k, ops[0]);
      RunMss(Step(k, ops[0]), ops[1..]);
    }
  }

  /** Changing the mtu does not rescale incr: the relation survives exactly for a refused mtu and for those whose
      segment size lies between incr / (cwnd + 1), exclusive, and incr / cwnd. */
  lemma SetMtuCongestion(k: State, mtu: int32)
    requires CongestionReach(k)
    ensures var j := SetMtu(k, mtu).state;
      CongestionOk(j.cc, j.cfg.mss) <==>
        || mtu < 50
        || (k.cc.incr / (k.cc.cwnd + 1) < mtu - OVERHEAD && (k.cc.cwnd == 0 || mtu - OVERHEAD <= k.cc.incr / k.cc.cwnd))
  {
    hide EndpointOk;
    if mtu >= 50 {
      DivBelow(k.cc.incr, k.cc.cwnd + 1, mtu - OVERHEAD);
      if k.cc.cwnd > 0 {
        DivBelow(k.cc.incr, k.cc.cwnd, mtu - OVERHEAD - 1);
        DivAtLeast(k.cc.incr, k.cc.cwnd, mtu - OVERHEAD);
      }
    }
  }

  lemma DivBelow(x: nat, d: nat, m: nat)
    requires d > 0
    ensures x / d < m <==> x < d * m
  {
    DivAtLeast(x, d, m);
  }

  lemma DivAtLeast(x: nat, d: nat, m: nat)
    requires d > 0
    ensures m <= x / d <==> d * m <= x
  {
    var q := x / d;
    assert x == d * q + x % d;
    if m <= q {
      MulMono(m, q, d);
    } else {
      MulMono(q + 1, m, d);
    }
  }

  lemma FirstUpdate()
    ensures Update(Create(7), 0).state.cc == Congestion(1, 2, 1376)
  {
    var k := Clock(Create(7), 0).0;
    assert Clock(Create(7), 0).1;
    assert k.snd == Sender(0, 0, [], []) && k.cc == Congestion(0, 2, 0) && k.cfg.mss == 1376 && k.updated;
    hide Clock;
    assert Admit(k.snd, WindowSize(k), Stamp(k.current, Unused(k.rcv), k.rcv.nxt, k.rtt.rto)) == k.snd;
    assert InFlight(k.snd) == 0;
    hide WindowSize, TickOf, ProbeTick, Unused, Pack, FlushWires;
  }

  lemma CreateCongestion(conv: u32)
    ensures CongestionReach(Create(conv))
  {
    CreateOk(conv);
    hide EndpointOk;
  }

  lemma RunOne(k: State, op: Op)
    requires k.cfg.mss > 0
    ensures Run(k, [op]) == Step(k, op)
  {
    hide Step;
    StepMss(k, op);
    assert [op][1..] == [];
  }

  lemma SmallestMtuBreaks(k: State)
    requires CongestionReach(k) && k.cc == Congestion(1, 2, 1376)
    ensures SetMtu(k, 50).code == 0 && !CongestionOk(SetMtu(k, 50).state.cc, SetMtu(k, 50).state.cfg.mss)
  {
    hide EndpointOk;
  }

  lemma UpdateReaches(k: State, now: u32)
    requires CongestionReach(k)
    ensures Run(k, [OpUpdate(now)]) == Update(k, now).state && CongestionReach(Update(k, now).state)
  {
    assert k.cfg.mss > 0;
    hide CongestionReach, Update;
    RunOne(k, OpUpdate(now));
    StepCongestion(k, OpUpdate(now));
  }

  /** A fresh control block that was updated once fails with the smallest mtu. */
  lemma SetMtuBreaksCongestion()
    ensures var k := Run(Create(7), [OpUpdate(0)]);
      CongestionReach(k) && SetMtu(k, 50).code == 0 && !CongestionOk(SetMtu(k, 50).state.cc, SetMtu(k, 50).state.cfg.mss)
  {
    hide CongestionReach, CongestionOk, Update, Run, SetMtu;
    CreateCongestion(7);
    UpdateReaches(Create(7), 0);
    FirstUpdate();
    SmallestMtuBreaks(Update(Create(7), 0).state);
  }
}
