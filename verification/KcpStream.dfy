/** The byte stream between two control blocks, in any mode and with any change of mode: what one side hands out is a
    prefix of what ikcp_send put on the stream at the other, and all of it once nothing is under way. */
module KcpStream {
  import opened Numbers
  import opened LittleEndian
  import opened KcpWire
  import opened KcpSender
  import opened KcpReceiver
  import opened KcpFragments
  import opened KcpEngine
  import opened KcpControl
  import R = KcpRuns
  import opened KcpFlow
  import opened KcpNetwork

  function Concat(parts: seq<Bytes>): Bytes {
    if parts == [] then [] else Concat(parts[..|parts| - 1]) + parts[|parts| - 1]
  }

  /** The place in the log where the receiver's queue starts. */
  function Place(r: Receiver): int {
    r.nxt - |r.queue|
  }

  ghost predicate Streamed(s: Node, r: Node) {
    && JoinChunks(s.log) == s.bytes
    && 0 <= Place(r.k.rcv) <= |s.log|
    && Concat(r.got) == JoinChunks(s.log[..Place(r.k.rcv)])
  }

  ghost predicate Streams(s: Sys) {
    Streamed(s.x, s.y) && Streamed(s.y, s.x)
  }

  // ---------- sends ----------

  /** Whatever the mode and whatever it returns, ikcp_send adds exactly the accepted bytes. */
  lemma SendAdds(k: State, data: Bytes)
    requires k.cfg.mss > 0
    ensures JoinChunks(SendTo(k, data).state.snd.queue) == JoinChunks(k.snd.queue) + Accepted(k, data)
  {
    var q, mss := k.snd.queue, k.cfg.mss;
    hide JoinChunks, Send, TopUp;
    if k.cfg.stream {
      SendStream(q, mss, data);
      TopUpKeeps(q, mss, data);
      TopUpMoves(q, mss, data);
      var (t, rest) := TopUp(q, mss, data);
      TopUpRest(q, mss, data);
      if SendTo(k, data).code != 0 {
        assert data == data[..|data| - |rest|] + rest;
        CutEnd(JoinChunks(t), JoinChunks(q), data[..|data| - |rest|], rest);
      }
    } else {
      SendMessage(q, mss, data);
      if SendTo(k, data).code == 0 {
        var q' := SendTo(k, data).state.snd.queue;
        SendLonger(q, mss, false, data);
        assert q' == q + q'[|q|..];
        JoinAppend(q, q'[|q|..]);
      } else {
        assert JoinChunks(q) + [] == JoinChunks(q);
      }
    }
  }

  lemma TopUpRest(queue: seq<Chunk>, mss: nat, data: Bytes)
    ensures var rest := TopUp(queue, mss, data).1; |rest| <= |data| && rest == data[|data| - |rest|..]
  {
  }

  lemma CutEnd(a: Bytes, b: Bytes, c: Bytes, rest: Bytes)
    requires a + rest == b + (c + rest)
    ensures a == b + c
  {
    assert b + (c + rest) == (b + c) + rest;
    assert |a| == |b + c|;
    assert a == (a + rest)[..|a|] && b + c == ((b + c) + rest)[..|b + c|];
  }

  /** The log ends with the queue. */
  lemma {:induction false} EndReplaced(log: seq<Chunk>, s: Sender, queue: seq<Chunk>, data: Bytes)
    requires SndFlow(log, s) && JoinChunks(queue) == JoinChunks(s.queue) + data
    ensures JoinChunks(Relogged(log, |s.queue|, queue)) == JoinChunks(log) + data
    ensures Relogged(log, |s.queue|, queue)[..s.nxt] == log[..s.nxt]
  {
    var n := s.nxt;
    assert Relogged(log, |s.queue|, queue) == log[..n] + queue && log == log[..n] + s.queue;
    hide SndFlow, Relogged, JoinChunks;
    JoinAppend(log[..n], s.queue);
    JoinAppend(log[..n], queue);
    Assoc(JoinChunks(log[..n]), JoinChunks(s.queue), data);
  }

  /** What has a number stays in place, and the stream grows by the accepted bytes. */
  lemma {:induction false} SendStreams(x: Node, y: Node, data: Bytes)
    requires x.k.cfg.mss > 0 && SndFlow(x.log, x.k.snd) && Streamed(x, y) && Place(y.k.rcv) <= x.k.snd.nxt
    ensures Streamed(CallNode(x, R.OpSend(data)), y)
  {
    SendAdds(x.k, data);
    EndReplaced(x.log, x.k.snd, SendTo(x.k, data).state.snd.queue, Accepted(x.k, data));
    assert x.k.snd.nxt <= |x.log|;
    hide Accepted, SendTo, Relogged, JoinChunks, SndFlow;
    var l, n, p := CallNode(x, R.OpSend(data)).log, x.k.snd.nxt, Place(y.k.rcv);
    assert l[..n][..p] == l[..p] && x.log[..n][..p] == x.log[..p];
  }

  // ---------- taking out ----------

  /** The first n segments of the queue, joined, are the log from the queue's place on. */
  lemma {:induction false} QueueBytes(log: seq<Chunk>, r: Receiver, top: int, n: nat)
    requires RcvFlow(log, r, top) && n <= |r.queue|
    ensures 0 <= Place(r) <= Place(r) + n <= |log|
    ensures JoinChunks(log[..Place(r)]) + Join(r.queue[..n]) == JoinChunks(log[..Place(r) + n])
  {
    var p := Place(r);
    JoinCarried(r.queue[..n]);
    assert Carried(r.queue[..n]) == Carried(r.queue)[..n] == log[p..p + n];
    hide RcvFlow, JoinChunks, Join, Carried;
    assert log[..p + n] == log[..p] + log[p..p + n];
    JoinAppend(log[..p], log[p..p + n]);
  }

  /** Taking out moves the place by what was copied out, looking and failing leave it. */
  lemma {:induction false} TakeStreams(y: Node, x: Node, len: int, top: int)
    requires x.k.cfg.mss > 0 && RcvFlow(y.log, x.k.rcv, top) && Streamed(y, x)
    ensures Streamed(y, CallNode(x, R.OpRecv(len)))
  {
    var r, v := x.k.rcv, Recv(x.k.rcv, len);
    var n, x' := HeadCount(r.queue), CallNode(x, R.OpRecv(len));
    assert x'.k.rcv == v.rcv && x'.got == if len >= 0 && v.code >= 0 then x.got + [v.data] else x.got by { hide Recv; }
    assert RcvFlow(y.log, v.rcv, top) && Place(v.rcv) == Place(r) + if v.code >= 0 && len >= 0 then n else 0 by {
      hide RcvFlow, Recv, Got, HeadCount;
      RecvFlow(y.log, r, top, len);
    }
    hide RcvFlow, JoinChunks, Join, HeadCount, Recv, CallNode, Concat;
    PlaceInside(y.log, v.rcv, top);
    QueueBytes(y.log, r, top, n);
    RecvCopies(r, len);
    if v.code >= 0 && len >= 0 {
      ConcatMore(x.got, v.data);
    }
  }

  lemma RecvCopies(r: Receiver, len: int)
    ensures Recv(r, len).code >= 0 ==> Recv(r, len).data == Join(r.queue[..HeadCount(r.queue)])
  {
    hide Pull, PeekSize, Join, HeadCount;
  }

  lemma ConcatMore(parts: seq<Bytes>, data: Bytes)
    ensures Concat(parts + [data]) == Concat(parts) + data
  {
    assert (parts + [data])[..|parts|] == parts;
  }

  lemma PlaceInside(log: seq<Chunk>, r: Receiver, top: int)
    requires RcvFlow(log, r, top)
    ensures 0 <= Place(r) <= r.nxt <= top <= |log|
  {
  }

  // ---------- every move, every run ----------

  lemma StepPlace(k: State, op: R.Op)
    requires k.cfg.mss > 0 && !op.OpRecv? && !op.OpInput?
    ensures Place(R.Step(k, op).rcv) == Place(k.rcv)
  {
    if op.OpUpdate? {
      R.ClockKeeps(k, op.current);
    }
    hide Clock, AdmitAll, SweepAll, AfterFlush, Send, Pack, FlushWires;
  }

  /** Apart from taking out, nothing moves the place of side x or what it has handed out. */
  lemma PlaceStays(s: Sys, e: Event, wnd: nat)
    requires Inv(s) && Legal(e, wnd) && !(e.Call? && e.op.OpRecv?)
    ensures var t := NextX(s, e); Place(t.x.k.rcv) == Place(s.x.k.rcv) && t.x.got == s.x.got
  {
    match e {
      case Deliver(d) =>
        if d in s.toX {
          hide Parse, SndFlow, NothingLost, BwdTrue, Small, Input, RcvFlow, AllGot, DataTrue;
          InputRcv(s.y.log, s.x.k, d, s.y.k.snd.nxt);
        }
      case Call(op) =>
        StepPlace(s.x.k, op);
        hide Accepted, Send, Inv, Flush, Update, Input, Recv;
    }
  }

  lemma NextXStreams(s: Sys, e: Event, wnd: nat)
    requires Inv(s) && Streams(s) && Legal(e, wnd)
    ensures Streams(NextX(s, e))
  {
    var t := NextX(s, e);
    PlaceInside(s.x.log, s.y.k.rcv, s.x.k.snd.nxt);
    if e.Call? && e.op.OpSend? {
      PlaceStays(s, e, wnd);
      hide Accepted, SendTo, Flow, JoinChunks;
      assert SndFlow(s.x.log, s.x.k.snd) by { FlowParts(s.x.log, s.x.k, s.y.k, s.toY, s.toX); }
      SendStreams(s.x, s.y, e.op.data);
      assert t.x == CallNode(s.x, e.op);
    } else if e.Call? && e.op.OpRecv? {
      hide Recv, Flow, JoinChunks;
      FlowParts(s.y.log, s.y.k, s.x.k, s.toX, s.toY);
      TakeStreams(s.y, s.x, e.op.len, s.y.k.snd.nxt);
      assert t.x == CallNode(s.x, e.op) && t.x.log == s.x.log && t.x.bytes == s.x.bytes;
    } else {
      PlaceStays(s, e, wnd);
      assert t.x.log == s.x.log && t.x.bytes == s.x.bytes by { hide Inv, Streams, Input, R.Step, Flush, Update; }
      hide R.Step, Input, Flow, JoinChunks, Flush, Update, NextX;
      assert t.y == s.y by { SameY(s, e); }
    }
  }

  lemma SameY(s: Sys, e: Event)
    requires s.x.k.cfg.mss > 0
    ensures NextX(s, e).y == s.y
  {
    hide CallNode, Input, Outputs;
  }

  lemma FlowParts(log: seq<Chunk>, s: State, r: State, fwd: set<Bytes>, bwd: set<Bytes>)
    requires Flow(log, s, r, fwd, bwd)
    ensures SndFlow(log, s.snd) && RcvFlow(log, r.rcv, s.snd.nxt) && NothingLost(s.snd, r.rcv)
  {
    hide SndFlow, RcvFlow, NothingLost;
  }

  lemma NextStreams(s: Sys, m: Move, wnd: nat)
    requires Inv(s) && Streams(s) && Legal(m.e, wnd)
    ensures Streams(Next(s, m))
  {
    hide Flow, Streamed, NextX, StateOk;
    assert s.x.k.cfg.mss > 0 && s.y.k.cfg.mss > 0 by { assert StateOk(s.x.k) && StateOk(s.y.k); MssOf(s.x.k); MssOf(s.y.k); }
    match m {
      case AtX(e) => NextXStreams(s, e, wnd);
      case AtY(e) => NextXStreams(Swap(s), e, wnd);
    }
  }

  lemma MssOf(k: State)
    requires StateOk(k)
    ensures k.cfg.mss > 0
  {
  }

  lemma {:induction false} RunStreams(s: Sys, ms: seq<Move>, wnd: nat)
    requires Inv(s) && Streams(s) && Narrow(s, wnd) && AllLegal(ms, wnd) && Short(Run(s, ms), wnd)
    ensures Inv(Run(s, ms)) && Streams(Run(s, ms))
    decreases |ms|
  {
    if ms != [] {
      FirstKeeps(s, ms, wnd);
      hide Flow, Next, Streams, Legal, Narrow, Short, AllLegal;
      NextStreams(s, ms[0], wnd);
      RunStreams(Next(s, ms[0]), ms[1..], wnd);
    }
  }

  lemma {:induction false} StartStreams(conv: u32, wndX: int32, wndY: int32)
    ensures Inv(Start(conv, wndX, wndY)) && Streams(Start(conv, wndX, wndY))
  {
    StartOk(conv, wndX, wndY);
    hide Inv;
  }

  lemma {:induction false} PrefixOf(s: Node, r: Node)
    requires Streamed(s, r)
    ensures Concat(r.got) <= s.bytes
  {
    var p := Place(r.k.rcv);
    assert s.log == s.log[..p] + s.log[p..];
    JoinAppend(s.log[..p], s.log[p..]);
    hide JoinChunks;
  }

  /** Whatever the network does, and however each side changes between message and stream mode, the bytes handed out
      on one side are a prefix of the bytes put on the stream at the other. */
  lemma StreamEndToEnd(conv: u32, wndX: int32, wndY: int32, ms: seq<Move>, wnd: nat)
    requires Narrow(Start(conv, wndX, wndY), wnd) && AllLegal(ms, wnd) && Short(Run(Start(conv, wndX, wndY), ms), wnd)
    ensures var s := Run(Start(conv, wndX, wndY), ms);
      Concat(s.y.got) <= s.x.bytes && Concat(s.x.got) <= s.y.bytes
  {
    StartStreams(conv, wndX, wndY);
    var s := Run(Start(conv, wndX, wndY), ms);
    hide Start, Run, Streamed, Short, Narrow, AllLegal, Flow;
    RunStreams(Start(conv, wndX, wndY), ms, wnd);
    PrefixOf(s.x, s.y);
    PrefixOf(s.y, s.x);
  }

  // ---------- nothing under way ----------

  lemma IdleArrived(log: seq<Chunk>, s: Sender, r: Receiver)
    requires SndFlow(log, s) && RcvFlow(log, r, s.nxt) && NothingLost(s, r)
    requires s.queue == [] && s.buf == [] && r.buf == []
    ensures r.nxt as int == |log|
  {
    assert r.nxt < s.nxt ==> Kept(s, r.nxt) || Got(r, r.nxt);
  }

  /** The sender holds nothing and the receiver waits for nothing: what was put on the stream has been handed out or
      lies in the queue. */
  lemma {:induction false} IdleHasAll(x: Node, y: Node)
    requires SndFlow(x.log, x.k.snd) && RcvFlow(x.log, y.k.rcv, x.k.snd.nxt) && NothingLost(x.k.snd, y.k.rcv)
    requires Streamed(x, y) && x.k.snd.queue == [] && x.k.snd.buf == [] && y.k.rcv.buf == []
    ensures Concat(y.got) + Join(y.k.rcv.queue) == x.bytes
  {
    var r := y.k.rcv;
    IdleArrived(x.log, x.k.snd, r);
    assert x.log[..Place(r)] + Carried(r.queue) == x.log;
    JoinAppend(x.log[..Place(r)], Carried(r.queue));
    JoinCarried(r.queue);
  }

  /** In every reachable state in which one side has nothing left to send or to have acknowledged and the other side
      waits for no segment, all bytes put on the stream have been handed out or can be taken out. */
  lemma NothingMissing(conv: u32, wndX: int32, wndY: int32, ms: seq<Move>, wnd: nat)
    requires Narrow(Start(conv, wndX, wndY), wnd) && AllLegal(ms, wnd) && Short(Run(Start(conv, wndX, wndY), ms), wnd)
    ensures var s := Run(Start(conv, wndX, wndY), ms);
      s.x.k.snd.queue == [] && s.x.k.snd.buf == [] && s.y.k.rcv.buf == []
      ==> Concat(s.y.got) + Join(s.y.k.rcv.queue) == s.x.bytes
  {
    StartStreams(conv, wndX, wndY);
    hide Start, Run, Streamed, Short, Narrow, AllLegal, Flow;
    RunStreams(Start(conv, wndX, wndY), ms, wnd);
    var s := Run(Start(conv, wndX, wndY), ms);
    FlowParts(s.x.log, s.x.k, s.y.k, s.toY, s.toX);
    if s.x.k.snd.queue == [] && s.x.k.snd.buf == [] && s.y.k.rcv.buf == [] {
      hide SndFlow, RcvFlow, NothingLost;
      IdleHasAll(s.x, s.y);
    }
  }
}
