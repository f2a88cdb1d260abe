/** Two control blocks and the network between them. Either side may call any entry point at any time, in message
    mode or in stream mode; the network may deliver datagrams that were written, and only them, to the other side, any
    number of times and in any order, or never. */
module KcpNetwork {
  import opened Numbers
  import opened LittleEndian
  import opened KcpWire
  import opened KcpSender
  import opened KcpReceiver
  import opened KcpFragments
  import opened KcpEngine
  import opened KcpRuns
  import opened KcpControl
  import opened KcpFlow

  /** A control block with its history: the log of all segments queued so far, the bytes put on the stream, the
      messages accepted with the segment size in force, and what was handed out. */
  datatype Node = Node(k: State, log: seq<Chunk>, bytes: Bytes, posts: seq<Post>, got: seq<Bytes>)

  /** The two sides, and the datagrams under way to each. */
  datatype Sys = Sys(x: Node, y: Node, toX: set<Bytes>, toY: set<Bytes>)

  datatype Event = Call(op: Op) | Deliver(d: Bytes)

  /** An event and the side it happens on. */
  datatype Move = AtX(e: Event) | AtY(e: Event)

  function Outputs(k: State, op: Op): seq<Bytes> {
    match op
    case OpUpdate(c) => Update(k, c).out
    case OpFlush => Flush(k).out
    case _ => []
  }

  function SetOf(ds: seq<Bytes>): set<Bytes> {
    set d | d in ds
  }

  /** The bytes that a call of ikcp_send puts on the stream: all of them, or what a refused call has used to fill up
      the last segment. */
  function Accepted(k: State, data: Bytes): Bytes
    requires k.cfg.mss > 0
  {
    TopUpMoves(k.snd.queue, k.cfg.mss, data);
    if SendTo(k, data).code == 0 then data
    else if k.cfg.stream then data[..|data| - |TopUp(k.snd.queue, k.cfg.mss, data).1|]
    else []
  }

  function CallNode(n: Node, op: Op): Node
    requires n.k.cfg.mss > 0
  {
    match op
    case OpSend(data) =>
      var r := SendTo(n.k, data);
      Node(r.state, Relogged(n.log, |n.k.snd.queue|, r.state.snd.queue), n.bytes + Accepted(n.k, data),
           if r.code == 0 then n.posts + [Post(data, n.k.cfg.mss)] else n.posts, n.got)
    case OpRecv(len) =>
      var v := Recv(n.k.rcv, len);
      n.(k := RecvFrom(n.k, len), got := if len >= 0 && v.code >= 0 then n.got + [v.data] else n.got)
    case _ => n.(k := Step(n.k, op))
  }

  /** One event at side x. */
  function NextX(s: Sys, e: Event): Sys
    requires s.x.k.cfg.mss > 0
  {
    match e
    case Call(op) => s.(x := CallNode(s.x, op), toY := s.toY + SetOf(Outputs(s.x.k, op)))
    case Deliver(d) => if d in s.toX then s.(x := s.x.(k := Input(s.x.k, d).state)) else s
  }

  function Swap(s: Sys): Sys {
    Sys(s.y, s.x, s.toY, s.toX)
  }

  function Next(s: Sys, m: Move): Sys
    requires s.x.k.cfg.mss > 0 && s.y.k.cfg.mss > 0
  {
    match m
    case AtX(e) => NextX(s, e)
    case AtY(e) => Swap(NextX(Swap(s), e))
  }

  /** Datagrams come from the network only, and no receive window is set above `wnd`; apart from that every call may
      be made at any time. */
  predicate Legal(e: Event, wnd: nat) {
    e.Call? ==>
      && !e.op.OpInput?
      && (e.op.OpWndSize? && e.op.rcvWnd > 0 ==> Max(e.op.rcvWnd, WND_RCV) <= wnd)
  }

  // ---------- the invariant of one direction ----------

  ghost predicate FwdTrue(log: seq<Chunk>, top: int, conv: u32, net: set<Bytes>) {
    forall d, w | d in net && w in Parse(conv, d).ws :: DataTrue(log, top, w)
  }

  ghost predicate BwdTrue(r: Receiver, conv: u32, net: set<Bytes>) {
    forall d, w | d in net && w in Parse(conv, d).ws :: AckTrue(r, w)
  }

  ghost predicate Small(log: seq<Chunk>) {
    AtMost(log, 0x7FFF_FFFF)
  }

  /** From s to r, with data on `fwd` and acknowledgements on `bwd`. */
  ghost predicate Flow(log: seq<Chunk>, s: State, r: State, fwd: set<Bytes>, bwd: set<Bytes>) {
    && Small(log)
    && SndFlow(log, s.snd)
    && RcvFlow(log, r.rcv, s.snd.nxt)
    && NothingLost(s.snd, r.rcv)
    && AllGot(r.rcv, r.acks)
    && FwdTrue(log, s.snd.nxt, s.cfg.conv, fwd)
    && BwdTrue(r.rcv, s.cfg.conv, bwd)
  }

  predicate StateOk(k: State) {
    0 < k.cfg.mss < 0x8000_0000 && k.rcv.wnd >= WND_RCV
  }

  ghost predicate Inv(s: Sys) {
    && StateOk(s.x.k) && StateOk(s.y.k)
    && s.x.k.cfg.conv == s.y.k.cfg.conv
    && Flow(s.x.log, s.x.k, s.y.k, s.toY, s.toX)
    && Flow(s.y.log, s.y.k, s.x.k, s.toX, s.toY)
  }

  /** The logs are short enough for sequence numbers not to wrap while no receive window is wider than `wnd`. */
  predicate Short(s: Sys, wnd: nat) {
    |s.x.log| + wnd <= 0x8000_0000 && |s.y.log| + wnd <= 0x8000_0000
  }

  predicate Narrow(s: Sys, wnd: nat) {
    s.x.k.rcv.wnd <= wnd && s.y.k.rcv.wnd <= wnd
  }

  // ---------- deliveries ----------

  lemma {:induction false} OnWiresSnd(log: seq<Chunk>, k: State, ws: seq<Wire>, r: Receiver)
    requires SndFlow(log, k.snd) && NothingLost(k.snd, r) && r.nxt < 0x8000_0000
    requires forall w <- ws :: AckTrue(r, w)
    ensures var s := OnWires(k, ws).snd; SndFlow(log, s) && NothingLost(s, r) && s.nxt == k.snd.nxt
    decreases |ws|
  {
    hide SndFlow, NothingLost, AckTrue, SenderOn, ReceiverOn, AcksOn, RttOn;
    if ws != [] {
      assert ws[0] in ws;
      SenderOnFlow(log, k.snd, r, ws[0]);
      OnWiresSnd(log, OnWire(k, ws[0]), ws[1..], r);
    }
  }

  lemma {:induction false} OnWiresRcv(log: seq<Chunk>, k: State, ws: seq<Wire>, top: int)
    requires RcvFlow(log, k.rcv, top) && AllGot(k.rcv, k.acks)
    requires forall w <- ws :: DataTrue(log, top, w)
    ensures var k' := OnWires(k, ws);
      && RcvFlow(log, k'.rcv, top) && AllGot(k'.rcv, k'.acks) && Later(k.rcv, k'.rcv)
      && k'.rcv.nxt - |k'.rcv.queue| == k.rcv.nxt - |k.rcv.queue|
    decreases |ws|
  {
    if ws != [] {
      assert ws[0] in ws;
      var k1 := OnWire(k, ws[0]);
      ReceiverOnFlow(log, k.rcv, top, k.acks, ws[0]);
      hide RcvFlow, AllGot, DataTrue, SenderOn, ReceiverOn, AcksOn, RttOn, Got;
      OnWiresRcv(log, k1, ws[1..], top);
    }
  }

  lemma ConcludeFlow(log: seq<Chunk>, k: State, m: MaxAck, una: u32, r: Receiver)
    requires k.cfg.mss > 0 && SndFlow(log, k.snd) && NothingLost(k.snd, r)
    ensures var s := Conclude(k, m, una).snd; SndFlow(log, s) && NothingLost(s, r) && s.nxt == k.snd.nxt
    ensures Conclude(k, m, una).rcv == k.rcv && Conclude(k, m, una).acks == k.acks && Conclude(k, m, una).cfg == k.cfg
  {
    hide SndFlow, NothingLost, Diff, Grow, Outside;
    if m.MaxAck? {
      CountSkipsSame(k.snd.buf, m.sn);
      SameSegsFlow(log, k.snd, r, CountSkips(k.snd.buf, m.sn));
    }
    assert k.snd.(buf := k.snd.buf) == k.snd;
  }

  lemma InputSnd(log: seq<Chunk>, k: State, d: Bytes, r: Receiver)
    requires k.cfg.mss > 0 && SndFlow(log, k.snd) && NothingLost(k.snd, r) && r.nxt < 0x8000_0000
    requires forall w <- Parse(k.cfg.conv, d).ws :: AckTrue(r, w)
    ensures var s := Input(k, d).state.snd; SndFlow(log, s) && NothingLost(s, r) && s.nxt == k.snd.nxt
  {
    hide SndFlow, NothingLost, Parse, AckTrue, OnWires, Conclude, CollectAll;
    var p := Parse(k.cfg.conv, d);
    OnWiresSnd(log, k, p.ws, r);
    OnWiresConfig(k, p.ws);
    ConcludeFlow(log, OnWires(k, p.ws), CollectAll(NoAck, p.ws), k.snd.una, r);
  }

  lemma InputRcv(log: seq<Chunk>, k: State, d: Bytes, top: int)
    requires k.cfg.mss > 0 && RcvFlow(log, k.rcv, top) && AllGot(k.rcv, k.acks)
    requires forall w <- Parse(k.cfg.conv, d).ws :: DataTrue(log, top, w)
    ensures var k' := Input(k, d).state;
      && RcvFlow(log, k'.rcv, top) && AllGot(k'.rcv, k'.acks) && Later(k.rcv, k'.rcv)
      && k'.rcv.nxt - |k'.rcv.queue| == k.rcv.nxt - |k.rcv.queue|
      && k'.cfg == k.cfg
  {
    hide RcvFlow, AllGot, Parse, DataTrue, OnWires, Conclude, CollectAll, Got;
    var p := Parse(k.cfg.conv, d);
    OnWiresRcv(log, k, p.ws, top);
    OnWiresConfig(k, p.ws);
    ConcludeRcv(OnWires(k, p.ws), CollectAll(NoAck, p.ws), k.snd.una);
  }

  lemma ConcludeRcv(k: State, m: MaxAck, una: u32)
    requires k.cfg.mss > 0
    ensures Conclude(k, m, una).rcv == k.rcv && Conclude(k, m, una).acks == k.acks && Conclude(k, m, una).cfg == k.cfg
  {
    hide FastAck, Diff, Grow;
  }

  lemma LaterTrue(r: Receiver, r': Receiver, s: Sender, conv: u32, net: set<Bytes>)
    requires Later(r, r') && BwdTrue(r, conv, net) && NothingLost(s, r)
    ensures BwdTrue(r', conv, net) && NothingLost(s, r')
  {
    hide Got, Parse;
    forall d, w | d in net && w in Parse(conv, d).ws
      ensures AckTrue(r', w)
    {
      assert AckTrue(r, w);
    }
    forall n | 0 <= n < s.nxt
      ensures Kept(s, n) || Got(r', n)
    {
      assert Kept(s, n) || Got(r, n);
    }
  }

  lemma RcvRange(log: seq<Chunk>, r: Receiver, top: int)
    requires RcvFlow(log, r, top)
    ensures r.nxt <= top <= |log| && r.nxt <= 0x8000_0000 && (r.wnd > 0 ==> r.nxt < 0x8000_0000)
  {
  }

  lemma DeliverAsSender(log: seq<Chunk>, x: State, y: State, toY: set<Bytes>, toX: set<Bytes>, d: Bytes)
    requires x.cfg.mss > 0 && Flow(log, x, y, toY, toX) && d in toX
    ensures Flow(log, Input(x, d).state, y, toY, toX)
  {
    RcvRange(log, y.rcv, x.snd.nxt);
    hide SndFlow, RcvFlow, NothingLost, AllGot, FwdTrue, Small, Input, AckTrue, Parse;
    InputConfig(x, d);
    InputSnd(log, x, d, y.rcv);
  }

  lemma DeliverAsReceiver(log: seq<Chunk>, y: State, x: State, toX: set<Bytes>, toY: set<Bytes>, d: Bytes)
    requires x.cfg.mss > 0 && Flow(log, y, x, toX, toY) && d in toX && x.cfg.conv == y.cfg.conv
    ensures Flow(log, y, Input(x, d).state, toX, toY)
  {
    hide SndFlow, RcvFlow, NothingLost, AllGot, BwdTrue, Small, Input, DataTrue, Parse, Got;
    InputRcv(log, x, d, y.snd.nxt);
    LaterTrue(x.rcv, Input(x, d).state.rcv, y.snd, y.cfg.conv, toY);
  }

  lemma DeliverKeeps(s: Sys, d: Bytes)
    requires Inv(s)
    ensures Inv(NextX(s, Deliver(d)))
  {
    hide Flow, Input;
    if d in s.toX {
      DeliverAsSender(s.x.log, s.x.k, s.y.k, s.toY, s.toX, d);
      DeliverAsReceiver(s.y.log, s.y.k, s.x.k, s.toX, s.toY, d);
      InputConfig(s.x.k, d);
      InputWnd(s.x.k, d);
    }
  }

  // ---------- flushes ----------

  /** A data segment written by the sweep is one of the window's segments. */
  lemma {:induction false} SweepWires(buf: seq<OutSeg>, t: Tick, w: Wire)
    requires w in SweepAll(buf, t).ws
    ensures w.cmd == CMD_PUSH && exists o :: o in buf && o.sn == w.sn && ChunkOf(o) == ChunkOfWire(w)
  {
    var h := Transmit(buf[0], t);
    if h.send && w == PushWire(h.seg) {
      assert h.seg.sn == buf[0].sn && ChunkOf(h.seg) == ChunkOf(buf[0]);
    } else {
      hide Transmit;
      SweepWires(buf[1..], t, w);
    }
  }

  lemma AdmitAllFlow(log: seq<Chunk>, k: State, r: Receiver)
    requires SndFlow(log, k.snd) && NothingLost(k.snd, r)
    ensures SndFlow(log, AdmitAll(k)) && NothingLost(AdmitAll(k), r)
    ensures k.snd.nxt <= AdmitAll(k).nxt == FlushState(k).snd.nxt
    ensures SndFlow(log, FlushState(k).snd) && NothingLost(FlushState(k).snd, r)
  {
    var s := AdmitAll(k);
    AdmitFlow(log, k.snd, r, WindowSize(k), Stamp(k.current, Unused(k.rcv), k.rcv.nxt, k.rtt.rto));
    SweepSame(s.buf, TickOf(k));
    SameSegsFlow(log, s, r, SweepAll(s.buf, TickOf(k)).buf);
    hide SndFlow, NothingLost, AdmitAll, SweepAll, AfterFlush, SameSegs, ProbeTick;
  }

  /** Every segment of a flush is truthful in both directions. */
  lemma FlushWireTrue(log: seq<Chunk>, k: State, w: Wire)
    requires SndFlow(log, AdmitAll(k)) && AllGot(k.rcv, k.acks)
    requires w in FlushWires(k)
    ensures DataTrue(log, AdmitAll(k).nxt, w) && AckTrueOf(k.rcv, w) && KnownCmd(w.cmd)
    ensures w.cmd != CMD_PUSH ==> w.data == []
  {
    var s := AdmitAll(k);
    hide AdmitAll, Got;
    if w in AckWires(k.acks, Unused(k.rcv), k.rcv.nxt) {
      var i :| 0 <= i < |k.acks| && w == AckWire(k.acks[i], Unused(k.rcv), k.rcv.nxt);
      assert k.acks[i] in k.acks;
    } else if w in SweepAll(s.buf, TickOf(k)).ws {
      SweepWires(s.buf, TickOf(k), w);
      SweepUna(s.buf, TickOf(k), w);
    }
  }

  ghost predicate AckTrueOf(r: Receiver, w: Wire) {
    w.una == r.nxt && (w.cmd == CMD_ACK ==> Got(r, w.sn))
  }

  lemma {:induction false} SweepUna(buf: seq<OutSeg>, t: Tick, w: Wire)
    requires w in SweepAll(buf, t).ws
    ensures w.una == t.una
  {
    var h := Transmit(buf[0], t);
    if !(h.send && w == PushWire(h.seg)) {
      hide Transmit;
      SweepUna(buf[1..], t, w);
    }
  }

  /** The datagrams of a flush add only truthful segments to the network. */
  lemma FlushOutTrue(log: seq<Chunk>, k: State, d: Bytes, w: Wire)
    requires SndFlow(log, AdmitAll(k)) && AllGot(k.rcv, k.acks) && Small(log)
    requires d in Pack(k.cfg.conv, k.cfg.mtu, FlushWires(k)) && w in Parse(k.cfg.conv, d).ws
    ensures DataTrue(log, AdmitAll(k).nxt, w) && AckTrueOf(k.rcv, w)
  {
    var ws := FlushWires(k);
    hide SndFlow, Parse, Pack, FlushWires, Got, AllGot;
    forall v | v in ws
      ensures Sendable(v)
    {
      FlushWireTrue(log, k, v);
    }
    PackParse(k.cfg.conv, k.cfg.mtu, ws);
    ParseAllContains(k.cfg.conv, Pack(k.cfg.conv, k.cfg.mtu, ws), d, w);
    FlushWireTrue(log, k, w);
  }

  lemma FwdGrows(log: seq<Chunk>, k: State, net: set<Bytes>)
    requires FwdTrue(log, k.snd.nxt, k.cfg.conv, net)
    requires SndFlow(log, AdmitAll(k)) && AllGot(k.rcv, k.acks) && Small(log)
    requires k.snd.nxt <= AdmitAll(k).nxt
    ensures FwdTrue(log, AdmitAll(k).nxt, k.cfg.conv, net + SetOf(Pack(k.cfg.conv, k.cfg.mtu, FlushWires(k))))
  {
    var out := Pack(k.cfg.conv, k.cfg.mtu, FlushWires(k));
    var top := AdmitAll(k).nxt;
    assert top <= |log|;
    hide SndFlow, Parse, Pack, FlushWires, Got, AllGot, AdmitAll;
    forall d, w | d in net + SetOf(out) && w in Parse(k.cfg.conv, d).ws
      ensures DataTrue(log, top, w)
    {
      if d in net {
        assert DataTrue(log, k.snd.nxt, w);
      } else {
        FlushOutTrue(log, k, d, w);
      }
    }
  }

  lemma BwdGrows(log: seq<Chunk>, k: State, net: set<Bytes>)
    requires BwdTrue(k.rcv, k.cfg.conv, net)
    requires SndFlow(log, AdmitAll(k)) && AllGot(k.rcv, k.acks) && Small(log)
    ensures BwdTrue(k.rcv, k.cfg.conv, net + SetOf(Pack(k.cfg.conv, k.cfg.mtu, FlushWires(k))))
  {
    var out := Pack(k.cfg.conv, k.cfg.mtu, FlushWires(k));
    hide SndFlow, Parse, Pack, FlushWires, Got, AllGot, AdmitAll;
    forall d, w | d in net + SetOf(out) && w in Parse(k.cfg.conv, d).ws
      ensures AckTrue(k.rcv, w)
    {
      if d in net {
      } else {
        FlushOutTrue(log, k, d, w);
      }
    }
  }

  lemma FlushAsSender(log: seq<Chunk>, x: State, y: State, toY: set<Bytes>, toX: set<Bytes>)
    requires Flow(log, x, y, toY, toX) && AllGot(x.rcv, x.acks)
    ensures Flow(log, FlushState(x), y, toY + SetOf(Pack(x.cfg.conv, x.cfg.mtu, FlushWires(x))), toX)
  {
    hide SndFlow, RcvFlow, NothingLost, FwdTrue, BwdTrue, Small, FlushState, Pack, FlushWires, AdmitAll, AllGot;
    AdmitAllFlow(log, x, y.rcv);
    FwdGrows(log, x, toY);
    AdmittedTop(log, x);
    TopGrows(log, y.rcv, x.snd.nxt, AdmitAll(x).nxt);
    FlushFrame(x);
  }

  lemma AdmittedTop(log: seq<Chunk>, k: State)
    requires SndFlow(log, AdmitAll(k))
    ensures AdmitAll(k).nxt <= |log|
  {
    hide AdmitAll;
  }

  lemma FlushAsReceiver(log: seq<Chunk>, y: State, x: State, toX: set<Bytes>, toY: set<Bytes>, own: seq<Chunk>)
    requires Flow(log, y, x, toX, toY) && x.cfg.conv == y.cfg.conv
    requires SndFlow(own, AdmitAll(x)) && Small(own)
    ensures Flow(log, y, FlushState(x), toX, toY + SetOf(Pack(x.cfg.conv, x.cfg.mtu, FlushWires(x))))
  {
    BwdGrows(own, x, toY);
    FlushFrame(x);
    hide SndFlow, RcvFlow, NothingLost, FwdTrue, BwdTrue, Small, FlushState, Pack, FlushWires, AdmitAll;
  }

  /** Side x flushes. */
  lemma FlushNodeKeeps(s: Sys)
    requires Inv(s)
    ensures var k := s.x.k;
      Inv(s.(x := s.x.(k := Flush(k).state), toY := s.toY + SetOf(Flush(k).out)))
  {
    var k := s.x.k;
    FlushNeeds(s.x.log, k, s.y.k, s.toY, s.toX);
    FlushNeedsAcks(s.y.log, s.y.k, k, s.toX, s.toY);
    hide Flow, FlushState, Pack, FlushWires, SndFlow, AllGot, AdmitAll, Small;
    FlushAsSender(s.x.log, k, s.y.k, s.toY, s.toX);
    FlushAsReceiver(s.y.log, s.y.k, k, s.toX, s.toY, s.x.log);
    FlushFrame(k);
    assert s.toY + SetOf([]) == s.toY;
  }

  lemma FlushNeeds(log: seq<Chunk>, x: State, y: State, toY: set<Bytes>, toX: set<Bytes>)
    requires Flow(log, x, y, toY, toX)
    ensures SndFlow(log, AdmitAll(x)) && Small(log)
  {
    hide SndFlow, RcvFlow, NothingLost, FwdTrue, BwdTrue, Small, AdmitAll, FlushState;
    AdmitAllFlow(log, x, y.rcv);
  }

  lemma FlushNeedsAcks(log: seq<Chunk>, y: State, x: State, toX: set<Bytes>, toY: set<Bytes>)
    requires Flow(log, y, x, toX, toY)
    ensures AllGot(x.rcv, x.acks)
  {
  }

  lemma FlushFrame(k: State)
    ensures FlushState(k).rcv == k.rcv && FlushState(k).acks == [] && FlushState(k).cfg == k.cfg
  {
    hide AdmitAll, SweepAll, AfterFlush, ProbeTick;
  }

  // ---------- sends ----------

  lemma FwdLogGrows(log: seq<Chunk>, log': seq<Chunk>, top: int, conv: u32, net: set<Bytes>)
    requires FwdTrue(log, top, conv, net) && 0 <= top <= |log| && top <= |log'| && log'[..top] == log[..top]
    ensures FwdTrue(log', top, conv, net)
  {
    hide Parse;
    forall d, w | d in net && w in Parse(conv, d).ws
      ensures DataTrue(log', top, w)
    {
      assert DataTrue(log, top, w);
      if w.cmd == CMD_PUSH {
        assert log'[w.sn] == log'[..top][w.sn] == log[..top][w.sn];
      }
    }
  }

  lemma SendSmall(log: seq<Chunk>, k: State, data: Bytes)
    requires SndFlow(log, k.snd) && Small(log) && 0 < k.cfg.mss < 0x8000_0000
    ensures var q := SendTo(k, data).state.snd.queue;
      |k.snd.queue| <= |q| && Small(Relogged(log, |k.snd.queue|, q))
  {
    assert AtMost(k.snd.queue, 0x7FFF_FFFF);
    SendAtMost(k.snd.queue, k.cfg.mss, k.cfg.stream, data, 0x7FFF_FFFF);
    SendLonger(k.snd.queue, k.cfg.mss, k.cfg.stream, data);
    hide Send;
  }

  /** A queue that is filled up and lengthened in the middle of the traffic. */
  lemma SendAsSender(log: seq<Chunk>, x: State, y: State, toY: set<Bytes>, toX: set<Bytes>, queue: seq<Chunk>)
    requires Flow(log, x, y, toY, toX) && y.rcv.wnd > 0 && |x.snd.queue| <= |queue|
    requires Small(Relogged(log, |x.snd.queue|, queue)) && |Relogged(log, |x.snd.queue|, queue)| + y.rcv.wnd <= 0x8000_0000
    ensures Flow(Relogged(log, |x.snd.queue|, queue), x.(snd := x.snd.(queue := queue)), y, toY, toX)
  {
    var log' := Relogged(log, |x.snd.queue|, queue);
    LostFrame(x.snd, x.snd.(queue := queue), y.rcv);
    assert x.snd.nxt as int == |log| - |x.snd.queue|;
    assert log'[..x.snd.nxt] == log[..x.snd.nxt];
    hide SndFlow, RcvFlow, FwdTrue, BwdTrue, NothingLost, AllGot, Small, Relogged;
    LogGrows(log, queue, x.snd, y.rcv);
    FwdLogGrows(log, log', x.snd.nxt, x.cfg.conv, toY);
  }

  lemma LostFrame(s: Sender, s': Sender, r: Receiver)
    requires NothingLost(s, r) && s'.buf == s.buf && s'.nxt == s.nxt
    ensures NothingLost(s', r)
  {
    hide Got;
    forall n | 0 <= n < s'.nxt
      ensures Kept(s', n) || Got(r, n)
    {
      assert Kept(s, n) || Got(r, n);
    }
  }

  lemma SendKeeps(s: Sys, data: Bytes, wnd: nat)
    requires Inv(s) && Narrow(s, wnd) && Short(NextX(s, Call(OpSend(data))), wnd)
    ensures Inv(NextX(s, Call(OpSend(data))))
  {
    var k := s.x.k;
    var k' := SendTo(k, data).state;
    SendSmall(s.x.log, k, data) by { hide SendTo, Small; }
    assert k' == k.(snd := k.snd.(queue := k'.snd.queue)) by { hide Send; }
    assert NextX(s, Call(OpSend(data))).y == s.y;
    hide Flow, SendTo, Accepted, Small, Relogged;
    assert s.toY + SetOf([]) == s.toY;
    SendAsSender(s.x.log, k, s.y.k, s.toY, s.toX, k'.snd.queue);
    FlowFrame(s.y.log, s.y.k, s.y.k, k, k', s.toX, s.toY);
  }

  // ---------- the other calls ----------

  lemma RecvAsReceiver(log: seq<Chunk>, y: State, x: State, toX: set<Bytes>, toY: set<Bytes>, len: int)
    requires Flow(log, y, x, toX, toY)
    ensures Flow(log, y, RecvFrom(x, len), toX, toY)
  {
    var e := Recv(x.rcv, len);
    hide SndFlow, RcvFlow, FwdTrue, BwdTrue, Small, NothingLost, AllGot, Recv, Got;
    RecvFlow(log, x.rcv, y.snd.nxt, len);
    LaterTrue(x.rcv, e.rcv, y.snd, y.cfg.conv, toY);
    LaterAcks(x.rcv, e.rcv, x.acks);
  }

  lemma RecvNodeKeeps(s: Sys, len: int)
    requires Inv(s)
    ensures Inv(NextX(s, Call(OpRecv(len))))
  {
    hide Flow, Recv;
    FlowFrame(s.x.log, s.x.k, RecvFrom(s.x.k, len), s.y.k, s.y.k, s.toY, s.toX);
    RecvAsReceiver(s.y.log, s.y.k, s.x.k, s.toX, s.toY, len);
    RecvWnd(s.x.k.rcv, len);
    assert s.toY + SetOf([]) == s.toY;
  }

  lemma LaterAcks(r: Receiver, r': Receiver, acks: seq<Ack>)
    requires Later(r, r') && AllGot(r, acks)
    ensures AllGot(r', acks)
  {
    hide Got;
  }

  predicate Tunes(op: Op) {
    op.OpNoDelay? || op.OpWndSize? || op.OpSetMtu? || op.OpInterval? || op.OpStream?
  }

  /** Calls that touch nothing but settings. */
  lemma TuneKeeps(s: Sys, op: Op, wnd: nat)
    requires Inv(s) && Narrow(s, wnd) && Legal(Call(op), wnd) && Tunes(op) && Short(s, wnd)
    ensures Inv(NextX(s, Call(op)))
  {
    TuneFrame(s.x.k, op, wnd);
    var k' := Step(s.x.k, op);
    assert CallNode(s.x, op) == s.x.(k := k') by { hide Step; }
    hide Step, Flow;
    assert s.toY + SetOf([]) == s.toY;
    assert NextX(s, Call(op)) == s.(x := s.x.(k := k')) by { hide CallNode; }
    FlowFrame(s.x.log, s.x.k, k', s.y.k, s.y.k, s.toY, s.toX);
    FlowWindow(s.y.log, s.y.k, s.x.k, k', s.toX, s.toY);
  }

  /** A direction depends on the sender's window and on the receiver's buffers and acknowledgements. */
  lemma FlowFrame(log: seq<Chunk>, s: State, s': State, r: State, r': State, fwd: set<Bytes>, bwd: set<Bytes>)
    requires Flow(log, s, r, fwd, bwd)
    requires s'.snd == s.snd && s'.cfg.conv == s.cfg.conv && r'.rcv == r.rcv && r'.acks == r.acks
    ensures Flow(log, s', r', fwd, bwd)
  {
    hide SndFlow, RcvFlow, FwdTrue, BwdTrue, Small, NothingLost, AllGot;
  }

  /** The receive window may be set to anything, up or down, that leaves room for the log. */
  lemma FlowWindow(log: seq<Chunk>, s: State, r: State, r': State, fwd: set<Bytes>, bwd: set<Bytes>)
    requires Flow(log, s, r, fwd, bwd) && |log| + r'.rcv.wnd <= 0x8000_0000
    requires r'.rcv == r.rcv.(wnd := r'.rcv.wnd) && r'.acks == r.acks
    ensures Flow(log, s, r', fwd, bwd)
  {
    hide SndFlow, FwdTrue, Small, Parse;
    var a, b := r.rcv, r'.rcv;
    assert forall n: int :: Got(a, n) <==> Got(b, n);
    hide Got;
    assert forall w :: AckTrue(a, w) <==> AckTrue(b, w);
  }

  lemma TuneFrame(k: State, op: Op, wnd: nat)
    requires k.cfg.mss > 0 && Legal(Call(op), wnd) && Tunes(op) && WND_RCV <= k.rcv.wnd <= wnd
    ensures var k' := Step(k, op);
      && k'.snd == k.snd && k'.acks == k.acks
      && k'.rcv == k.rcv.(wnd := k'.rcv.wnd) && WND_RCV <= k'.rcv.wnd <= wnd
      && k'.cfg.conv == k.cfg.conv
      && (op.OpStream? ==> k'.cfg.stream == op.on) && (!op.OpStream? ==> k'.cfg.stream == k.cfg.stream)
      && (k.cfg.mss < 0x8000_0000 ==> 0 < k'.cfg.mss < 0x8000_0000)
  {
  }

  lemma UpdateNodeKeeps(s: Sys, now: u32)
    requires Inv(s)
    ensures Inv(NextX(s, Call(OpUpdate(now))))
  {
    var k := s.x.k;
    var (k1, due) := Clock(k, now);
    ClockKeeps(k, now);
    hide Clock, SndFlow, RcvFlow, FwdTrue, BwdTrue, Small, NothingLost, AllGot, Flush;
    var s1 := s.(x := s.x.(k := k1));
    assert Inv(s1);
    if due {
      FlushNodeKeeps(s1);
    } else {
      assert s.toY + SetOf([]) == s.toY;
    }
  }

  // ---------- every move, every run ----------

  lemma NextXKeeps(s: Sys, e: Event, wnd: nat)
    requires Inv(s) && Narrow(s, wnd) && Legal(e, wnd) && Short(s, wnd) && Short(NextX(s, e), wnd)
    ensures Inv(NextX(s, e))
  {
    match e {
      case Deliver(d) => DeliverKeeps(s, d);
      case Call(op) =>
        match op {
          case OpSend(data) => SendKeeps(s, data, wnd);
          case OpRecv(len) => RecvNodeKeeps(s, len);
          case OpUpdate(now) => UpdateNodeKeeps(s, now);
          case OpFlush => FlushNodeKeeps(s);
          case _ => TuneKeeps(s, op, wnd);
        }
    }
    hide Inv, Short;
  }

  lemma NextKeeps(s: Sys, m: Move, wnd: nat)
    requires Inv(s) && Narrow(s, wnd) && Legal(m.e, wnd) && Short(s, wnd) && Short(Next(s, m), wnd)
    ensures Inv(Next(s, m))
  {
    assert s.x.k.cfg.mss > 0 && s.y.k.cfg.mss > 0;
    hide Flow, StateOk, NextX;
    match m {
      case AtX(e) => NextXKeeps(s, e, wnd);
      case AtY(e) =>
        var t := Swap(s);
        assert Inv(t);
        assert t.x.k.cfg.mss > 0;
        assert Swap(Swap(NextX(t, e))) == NextX(t, e);
        NextXKeeps(t, e, wnd);
        assert Inv(Swap(NextX(t, e)));
    }
  }

  /** Segment sizes stay positive, so the next call is always possible. */
  lemma NextMss(s: Sys, m: Move)
    requires s.x.k.cfg.mss > 0 && s.y.k.cfg.mss > 0
    ensures Next(s, m).x.k.cfg.mss > 0 && Next(s, m).y.k.cfg.mss > 0
  {
    if m.e.Call? {
      if m.AtX? { StepMss(s.x.k, m.e.op); } else { StepMss(s.y.k, m.e.op); }
    } else {
      InputConfig(s.x.k, m.e.d);
      InputConfig(s.y.k, m.e.d);
    }
    hide Input, Step, Outputs;
  }

  function Run(s: Sys, ms: seq<Move>): (t: Sys)
    requires s.x.k.cfg.mss > 0 && s.y.k.cfg.mss > 0
    ensures t.x.k.cfg.mss > 0 && t.y.k.cfg.mss > 0
    decreases |ms|
  {
    if ms == [] then s
    else
      NextMss(s, ms[0]);
      Run(Next(s, ms[0]), ms[1..])
  }

  /** Logs only grow and receive windows stay within bounds, so a log that is short at the end was short all along. */
  lemma NextGrows(s: Sys, m: Move, wnd: nat)
    requires s.x.k.cfg.mss > 0 && s.y.k.cfg.mss > 0 && Legal(m.e, wnd) && Narrow(s, wnd)
    ensures |s.x.log| <= |Next(s, m).x.log| && |s.y.log| <= |Next(s, m).y.log| && Narrow(Next(s, m), wnd)
  {
    if m.AtX? { NextXGrows(s, m.e, wnd); } else { NextXGrows(Swap(s), m.e, wnd); }
    hide NextX;
  }

  lemma NextXGrows(s: Sys, e: Event, wnd: nat)
    requires s.x.k.cfg.mss > 0 && Legal(e, wnd) && Narrow(s, wnd)
    ensures |s.x.log| <= |NextX(s, e).x.log| && NextX(s, e).y == s.y && Narrow(NextX(s, e), wnd)
  {
    if e.Deliver? {
      InputWnd(s.x.k, e.d);
      hide Input;
    } else {
      StepWnd(s.x.k, e.op, wnd);
      if e.op.OpSend? {
        SendLonger(s.x.k.snd.queue, s.x.k.cfg.mss, s.x.k.cfg.stream, e.op.data);
      }
      hide Send, Outputs, Recv, Flush, Update, Accepted, Input;
    }
  }

  lemma {:induction false} OnWiresWnd(k: State, ws: seq<Wire>)
    ensures OnWires(k, ws).rcv.wnd == k.rcv.wnd
    decreases |ws|
  {
    if ws != [] {
      PullWnd(Insert(k.rcv, ws[0]));
      assert ReceiverOn(k.rcv, ws[0]).wnd == k.rcv.wnd by { hide Diff, BeyondWindow, ScanBack, Pull; }
      hide ReceiverOn, SenderOn, RttOn, AcksOn;
      OnWiresWnd(OnWire(k, ws[0]), ws[1..]);
    }
  }

  lemma InputWnd(k: State, d: Bytes)
    requires k.cfg.mss > 0
    ensures Input(k, d).state.rcv.wnd == k.rcv.wnd
  {
    var p := Parse(k.cfg.conv, d);
    OnWiresConfig(k, p.ws);
    OnWiresWnd(k, p.ws);
    ConcludeRcv(OnWires(k, p.ws), CollectAll(NoAck, p.ws), k.snd.una);
    hide Parse, OnWires, Conclude, CollectAll;
  }

  lemma StepWnd(k: State, op: Op, wnd: nat)
    requires k.cfg.mss > 0 && Legal(Call(op), wnd) && k.rcv.wnd <= wnd
    ensures Step(k, op).rcv.wnd <= wnd
  {
    match op {
      case OpRecv(len) => RecvWnd(k.rcv, len); hide Recv;
      case OpUpdate(now) => ClockKeeps(k, now); hide Clock, AdmitAll, SweepAll, AfterFlush;
      case _ => hide AdmitAll, SweepAll, AfterFlush, Send;
    }
  }

  ghost predicate AllLegal(ms: seq<Move>, wnd: nat) {
    forall m <- ms :: Legal(m.e, wnd)
  }

  lemma {:induction false} RunGrows(s: Sys, ms: seq<Move>, wnd: nat)
    requires s.x.k.cfg.mss > 0 && s.y.k.cfg.mss > 0 && AllLegal(ms, wnd) && Narrow(s, wnd)
    ensures |s.x.log| <= |Run(s, ms).x.log| && |s.y.log| <= |Run(s, ms).y.log|
    decreases |ms|
  {
    if ms != [] {
      assert Legal(ms[0].e, wnd);
      NextMss(s, ms[0]);
      NextGrows(s, ms[0], wnd);
      RunGrows(Next(s, ms[0]), ms[1..], wnd);
    }
    hide Next, Legal, Narrow;
  }

  /** The first move of a run whose logs are short at the end. */
  lemma FirstKeeps(s: Sys, ms: seq<Move>, wnd: nat)
    requires Inv(s) && Narrow(s, wnd) && AllLegal(ms, wnd) && Short(Run(s, ms), wnd) && ms != []
    ensures Inv(Next(s, ms[0])) && Narrow(Next(s, ms[0]), wnd) && Legal(ms[0].e, wnd) && AllLegal(ms[1..], wnd)
    ensures Short(Run(Next(s, ms[0]), ms[1..]), wnd)
  {
    assert Legal(ms[0].e, wnd);
    var t := Next(s, ms[0]);
    NextMss(s, ms[0]);
    hide Next, Legal, Flow, Narrow;
    NextGrows(s, ms[0], wnd);
    RunGrows(t, ms[1..], wnd);
    NextKeeps(s, ms[0], wnd);
  }

  lemma {:induction false} RunKeeps(s: Sys, ms: seq<Move>, wnd: nat)
    requires Inv(s) && Narrow(s, wnd) && AllLegal(ms, wnd) && Short(Run(s, ms), wnd)
    ensures Inv(Run(s, ms))
    decreases |ms|
  {
    if ms != [] {
      FirstKeeps(s, ms, wnd);
      hide Next, Legal, Flow, Narrow, Short, AllLegal;
      RunKeeps(Next(s, ms[0]), ms[1..], wnd);
    }
  }

  function NewNode(k: State): Node {
    Node(k, [], [], [], [])
  }

  /** Two fresh control blocks of one conversation, with any receive windows. */
  function Start(conv: u32, wndX: int32, wndY: int32): Sys {
    Sys(NewNode(WndSize(Create(conv), 0, wndX)), NewNode(WndSize(Create(conv), 0, wndY)), {}, {})
  }

  lemma StartOk(conv: u32, wndX: int32, wndY: int32)
    ensures Inv(Start(conv, wndX, wndY))
  {
    assert Carried([]) == [];
  }

  /** No data is lost by acknowledging: in every reachable state each number given out is still held by the
      sender or has arrived, and every acknowledgement under way or about to be sent is true. */
  lemma NothingLostEver(conv: u32, wndX: int32, wndY: int32, ms: seq<Move>, wnd: nat)
    requires Narrow(Start(conv, wndX, wndY), wnd) && AllLegal(ms, wnd) && Short(Run(Start(conv, wndX, wndY), ms), wnd)
    ensures var s := Run(Start(conv, wndX, wndY), ms);
      && NothingLost(s.x.k.snd, s.y.k.rcv) && NothingLost(s.y.k.snd, s.x.k.rcv)
      && BwdTrue(s.y.k.rcv, conv, s.toX) && BwdTrue(s.x.k.rcv, conv, s.toY)
      && AllGot(s.y.k.rcv, s.y.k.acks) && AllGot(s.x.k.rcv, s.x.k.acks)
  {
    StartOk(conv, wndX, wndY);
    RunKeeps(Start(conv, wndX, wndY), ms, wnd);
    RunConv(Start(conv, wndX, wndY), ms);
    hide Run, SndFlow, RcvFlow, Short, Small, FwdTrue, BwdTrue, NothingLost, AllGot;
  }

  lemma NextConv(s: Sys, m: Move)
    requires s.x.k.cfg.mss > 0 && s.y.k.cfg.mss > 0
    ensures Next(s, m).x.k.cfg.conv == s.x.k.cfg.conv && Next(s, m).y.k.cfg.conv == s.y.k.cfg.conv
  {
    if m.e.Deliver? {
      InputConfig(s.x.k, m.e.d);
      InputConfig(s.y.k, m.e.d);
    } else {
      StepConv(s.x.k, m.e.op);
      StepConv(s.y.k, m.e.op);
    }
    hide Input, Step, Outputs;
  }

  lemma StepConv(k: State, op: Op)
    requires k.cfg.mss > 0
    ensures Step(k, op).cfg.conv == k.cfg.conv
  {
    match op {
      case OpInput(b) => InputConfig(k, b); hide Input;
      case OpUpdate(now) => ClockKeeps(k, now); hide Clock, AdmitAll, SweepAll, AfterFlush;
      case _ => hide AdmitAll, SweepAll, AfterFlush, Send, Recv;
    }
  }

  lemma {:induction false} RunConv(s: Sys, ms: seq<Move>)
    requires s.x.k.cfg.mss > 0 && s.y.k.cfg.mss > 0
    ensures Run(s, ms).x.k.cfg.conv == s.x.k.cfg.conv && Run(s, ms).y.k.cfg.conv == s.y.k.cfg.conv
    decreases |ms|
  {
    if ms != [] {
      NextMss(s, ms[0]);
      NextConv(s, ms[0]);
      RunConv(Next(s, ms[0]), ms[1..]);
    }
    hide Next;
  }
}
