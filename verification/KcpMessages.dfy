/** Two control blocks that stay in message mode: the messages handed out on one side are the first ones accepted on the
    other, byte for byte and boundary for boundary. */
module KcpMessages {
  import opened Numbers
  import opened LittleEndian
  import opened KcpSender
  import opened KcpReceiver
  import opened KcpFragments
  import opened KcpEngine
  import opened KcpControl
  import R = KcpRuns
  import opened KcpFlow
  import opened KcpNetwork
  import opened KcpStream

  ghost predicate AllAcceptable(posts: seq<Post>) {
    forall p <- posts :: Acceptable(p)
  }

  /** What has been handed out are the first messages accepted, and the queue starts where they end. */
  ghost predicate Handed(posts: seq<Post>, got: seq<Bytes>, r: Receiver)
    requires AllAcceptable(posts)
  {
    InOrder(got, posts) && Place(r) == |Log(posts[..|got|])|
  }

  /** The messages handed out so far are the first ones the peer accepted, byte for byte and boundary for boundary. */
  ghost predicate InOrder(got: seq<Bytes>, posts: seq<Post>) {
    |got| <= |posts| && forall i | 0 <= i < |got| :: got[i] == posts[i].data
  }

  /** The log is the log of the messages. */
  ghost predicate Posted(s: Node, r: Node) {
    && !s.k.cfg.stream
    && AllAcceptable(s.posts) && s.log == Log(s.posts)
    && Handed(s.posts, r.got, r.k.rcv)
  }

  ghost predicate Posts(s: Sys) {
    Posted(s.x, s.y) && Posted(s.y, s.x)
  }

  predicate KeepsMode(e: Event) {
    e.Call? && e.op.OpStream? ==> !e.op.on
  }

  ghost predicate InMessageMode(ms: seq<Move>) {
    forall m <- ms :: KeepsMode(m.e)
  }

  // ---------- sends ----------

  lemma HandedMore(posts: seq<Post>, p: Post, got: seq<Bytes>, r: Receiver)
    requires AllAcceptable(posts) && Acceptable(p) && Handed(posts, got, r)
    ensures AllAcceptable(posts + [p]) && Handed(posts + [p], got, r)
    ensures Log(posts + [p]) == Log(posts) + Cut(p)
  {
    LogAppend(posts, [p]);
    assert Log([p]) == Cut(p) + Log([p][1..]) == Cut(p);
    assert (posts + [p])[..|got|] == posts[..|got|];
  }

  /** An accepted message lengthens the log by its fragments. */
  lemma SendExtends(k: State, data: Bytes)
    requires 0 < k.cfg.mss < 0x8000_0000 && !k.cfg.stream && SendTo(k, data).code == 0
    ensures Acceptable(Post(data, k.cfg.mss))
    ensures SendTo(k, data).state.snd == k.snd.(queue := k.snd.queue + Cut(Post(data, k.cfg.mss)))
  {
    CountLimit(|data|, k.cfg.mss);
  }

  lemma SendRefused(k: State, data: Bytes)
    requires k.cfg.mss > 0 && !k.cfg.stream && SendTo(k, data).code != 0
    ensures SendTo(k, data).state == k
  {
    SendMessage(k.snd.queue, k.cfg.mss, data);
  }

  lemma {:induction false} SendPosted(x: Node, y: Node, data: Bytes)
    requires 0 < x.k.cfg.mss < 0x8000_0000 && SndFlow(x.log, x.k.snd) && Posted(x, y)
    ensures Posted(CallNode(x, R.OpSend(data)), y)
  {
    var k, q := x.k, x.k.snd.queue;
    var x' := CallNode(x, R.OpSend(data));
    assert x.log == x.log[..k.snd.nxt] + q && k.snd.nxt as int == |x.log| - |q|;
    assert x'.k.cfg == k.cfg by { hide Send, Accepted; }
    if SendTo(k, data).code == 0 {
      var p := Post(data, k.cfg.mss);
      SendExtends(k, data);
      HandedMore(x.posts, p, y.got, y.k.rcv);
      hide SendTo, Accepted, Handed, Log, Cut, SndFlow, AllAcceptable;
      assert x'.posts == x.posts + [p];
      assert x'.log == x.log + Cut(p);
    } else {
      SendRefused(k, data);
      hide SendTo, Accepted, Handed, Log, SndFlow, AllAcceptable;
      assert x'.log == x.log;
    }
  }

  // ---------- taking out ----------

  lemma LogSplit(posts: seq<Post>, n: nat)
    requires AllAcceptable(posts) && n <= |posts|
    ensures AllAcceptable(posts[..n]) && AllAcceptable(posts[n..])
    ensures Log(posts) == Log(posts[..n]) + Log(posts[n..])
  {
    assert posts == posts[..n] + posts[n..];
    LogAppend(posts[..n], posts[n..]);
  }

  lemma {:induction false} LogAt(posts: seq<Post>, n: nat)
    requires AllAcceptable(posts) && n < |posts|
    ensures AllAcceptable(posts[..n]) && AllAcceptable(posts[..n + 1]) && AllAcceptable(posts[n + 1..])
    ensures Acceptable(posts[n])
    ensures Log(posts[..n + 1]) == Log(posts[..n]) + Cut(posts[n])
    ensures Log(posts) == Log(posts[..n]) + Cut(posts[n]) + Log(posts[n + 1..])
  {
    var p := posts[n];
    assert Acceptable(p);
    hide Cut;
    LogSplit(posts, n + 1);
    assert posts[..n + 1] == posts[..n] + [p];
    LogAppend(posts[..n], [p]);
    assert Log([p]) == Cut(p) + Log([p][1..]) == Cut(p);
  }

  /** The receive queue starts with the fragments of the next message, as far as they have arrived. */
  lemma {:induction false} QueueStartsMessage(posts: seq<Post>, got: seq<Bytes>, r: Receiver, top: int)
    requires AllAcceptable(posts) && Handed(posts, got, r) && RcvFlow(Log(posts), r, top) && r.queue != []
    ensures |got| < |posts|
    ensures var cs := Cut(posts[|got|]);
      && IsMessage(cs, posts[|got|].data)
      && Log(posts[..|got| + 1]) == Log(posts[..|got|]) + cs
      && (|cs| <= |r.queue| ==> Carried(r.queue)[..|cs|] == cs)
      && (|r.queue| < |cs| ==> Carried(r.queue) == cs[..|r.queue|])
  {
    var n := |got|;
    assert Place(r) < |Log(posts)|;
    hide Handed, RcvFlow, Cut, Log, IsMessage, AllAcceptable;
    HandedPlace(posts, got, r);
    LogAt(posts, n);
    CutIsMessage(posts[n]);
    QueueIsLog(Log(posts), Log(posts[..n]), Cut(posts[n]), Log(posts[n + 1..]), r, top);
  }

  lemma HandedPlace(posts: seq<Post>, got: seq<Bytes>, r: Receiver)
    requires AllAcceptable(posts) && Handed(posts, got, r) && Place(r) < |Log(posts)|
    ensures |got| < |posts| && AllAcceptable(posts[..|got|]) && Place(r) == |Log(posts[..|got|])|
  {
    hide Log;
    assert posts[..|posts|] == posts;
  }

  lemma QueueIsLog(log: seq<Chunk>, a: seq<Chunk>, cs: seq<Chunk>, b: seq<Chunk>, r: Receiver, top: int)
    requires RcvFlow(log, r, top) && log == a + cs + b && Place(r) == |a|
    ensures |cs| <= |r.queue| ==> Carried(r.queue)[..|cs|] == cs
    ensures |r.queue| < |cs| ==> Carried(r.queue) == cs[..|r.queue|]
  {
    assert Carried(r.queue) == log[|a|..r.nxt];
    assert log[|a|..] == cs + b;
  }

  /** A successful ikcp_recv, taking or only looking, hands out exactly the next message. */
  lemma RecvIsNext(posts: seq<Post>, got: seq<Bytes>, r: Receiver, top: int, len: int)
    requires AllAcceptable(posts) && Handed(posts, got, r) && RcvFlow(Log(posts), r, top) && Recv(r, len).code >= 0
    ensures |got| < |posts| && Recv(r, len).data == posts[|got|].data
    ensures Log(posts[..|got| + 1]) == Log(posts[..|got|]) + Cut(posts[|got|]) && HeadCount(r.queue) == |Cut(posts[|got|])|
  {
    QueueStartsMessage(posts, got, r, top);
    var cs := Cut(posts[|got|]);
    hide Cut, Pull, RcvFlow, Handed;
    if |r.queue| < |cs| {
      PartMessage(r.queue, cs, posts[|got|].data);
    } else {
      WholeMessage(r.queue, cs, posts[|got|].data);
    }
  }

  lemma HandedNext(posts: seq<Post>, got: seq<Bytes>, r: Receiver, top: int, len: int)
    requires AllAcceptable(posts) && Handed(posts, got, r) && RcvFlow(Log(posts), r, top)
    ensures var e := Recv(r, len);
      Handed(posts, if e.code >= 0 && len >= 0 then got + [e.data] else got, e.rcv)
  {
    RecvFlow(Log(posts), r, top, len);
    var e := Recv(r, len);
    if e.code >= 0 && len >= 0 {
      RecvIsNext(posts, got, r, top, len);
      hide Recv, RcvFlow, Log, Cut, Got, Handed;
      HandedTaken(posts, got, r, e.rcv, e.data);
    } else {
      hide Recv, RcvFlow, Log, Cut, Got;
    }
  }

  lemma HandedTaken(posts: seq<Post>, got: seq<Bytes>, r: Receiver, r': Receiver, data: Bytes)
    requires AllAcceptable(posts) && Handed(posts, got, r) && |got| < |posts| && data == posts[|got|].data
    requires AllAcceptable(posts[..|got| + 1]) && Acceptable(posts[|got|])
    requires Log(posts[..|got| + 1]) == Log(posts[..|got|]) + Cut(posts[|got|])
    requires Place(r') == Place(r) + |Cut(posts[|got|])|
    ensures Handed(posts, got + [data], r')
  {
    hide Log, Cut;
  }

  lemma {:induction false} TakePosted(y: Node, x: Node, len: int, top: int)
    requires x.k.cfg.mss > 0 && RcvFlow(y.log, x.k.rcv, top) && Posted(y, x)
    ensures Posted(y, CallNode(x, R.OpRecv(len)))
  {
    HandedNext(y.posts, x.got, x.k.rcv, top, len);
    hide RcvFlow, Recv, Log, Handed, AllAcceptable;
  }

  // ---------- every move, every run ----------

  /** Apart from sending, nothing changes what was accepted, and the mode stays. */
  lemma PostsStay(s: Sys, e: Event)
    requires s.x.k.cfg.mss > 0 && KeepsMode(e) && !s.x.k.cfg.stream && !(e.Call? && e.op.OpSend?)
    ensures var t := NextX(s, e);
      !t.x.k.cfg.stream && t.x.log == s.x.log && t.x.posts == s.x.posts && t.y == s.y
  {
    match e {
      case Deliver(d) =>
        R.InputConfig(s.x.k, d);
        hide Input;
      case Call(op) =>
        StepMode(s.x.k, op);
        hide R.Step, Outputs;
    }
  }

  lemma StepMode(k: State, op: R.Op)
    requires k.cfg.mss > 0 && (op.OpStream? ==> !op.on) && !k.cfg.stream
    ensures !R.Step(k, op).cfg.stream
  {
    match op {
      case OpInput(b) => R.InputConfig(k, b); hide Input;
      case OpUpdate(now) => R.ClockKeeps(k, now); hide Clock, AdmitAll, SweepAll, AfterFlush;
      case _ => hide AdmitAll, SweepAll, AfterFlush, Send, Recv;
    }
  }

  lemma NextXPosts(s: Sys, e: Event, wnd: nat)
    requires Inv(s) && Posts(s) && Legal(e, wnd) && KeepsMode(e)
    ensures Posts(NextX(s, e))
  {
    var t := NextX(s, e);
    FlowParts(s.x.log, s.x.k, s.y.k, s.toY, s.toX);
    FlowParts(s.y.log, s.y.k, s.x.k, s.toX, s.toY);
    SameY(s, e);
    hide Flow, SndFlow, RcvFlow, NothingLost, Log, AllAcceptable, Handed;
    if e.Call? && e.op.OpSend? {
      PlaceStays(s, e, wnd);
      SendPosted(s.x, s.y, e.op.data);
      HandedFrame(s.y, s.x, t.x);
      hide CallNode;
    } else if e.Call? && e.op.OpRecv? {
      PostsStay(s, e);
      TakePosted(s.y, s.x, e.op.len, s.y.k.snd.nxt);
      hide CallNode;
    } else {
      PostsStay(s, e);
      PlaceStays(s, e, wnd);
      hide NextX;
      HandedFrame(s.y, s.x, t.x);
    }
  }

  lemma HandedFrame(s: Node, r: Node, r': Node)
    requires Posted(s, r) && r'.got == r.got && Place(r'.k.rcv) == Place(r.k.rcv)
    ensures Posted(s, r')
  {
    hide Log;
  }

  lemma NextPosts(s: Sys, m: Move, wnd: nat)
    requires Inv(s) && Posts(s) && Legal(m.e, wnd) && KeepsMode(m.e)
    ensures Posts(Next(s, m))
  {
    assert s.x.k.cfg.mss > 0 && s.y.k.cfg.mss > 0 by { hide Flow; }
    hide Flow, Posted, NextX, StateOk;
    match m {
      case AtX(e) => NextXPosts(s, e, wnd);
      case AtY(e) => NextXPosts(Swap(s), e, wnd);
    }
  }

  lemma {:induction false} RunPosts(s: Sys, ms: seq<Move>, wnd: nat)
    requires Inv(s) && Posts(s) && Narrow(s, wnd) && AllLegal(ms, wnd) && InMessageMode(ms) && Short(Run(s, ms), wnd)
    ensures Inv(Run(s, ms)) && Posts(Run(s, ms))
    decreases |ms|
  {
    if ms != [] {
      FirstKeeps(s, ms, wnd);
      assert KeepsMode(ms[0].e);
      assert InMessageMode(ms[1..]);
      hide Flow, Next, Posts, Legal, Narrow, Short, AllLegal, InMessageMode;
      NextPosts(s, ms[0], wnd);
      RunPosts(Next(s, ms[0]), ms[1..], wnd);
    }
  }

  lemma {:induction false} Reaches(conv: u32, wndX: int32, wndY: int32, ms: seq<Move>, wnd: nat)
    requires Narrow(Start(conv, wndX, wndY), wnd) && AllLegal(ms, wnd) && InMessageMode(ms)
    requires Short(Run(Start(conv, wndX, wndY), ms), wnd)
    ensures var s := Run(Start(conv, wndX, wndY), ms); Inv(s) && Posts(s)
  {
    StartOk(conv, wndX, wndY);
    assert Posts(Start(conv, wndX, wndY)) by { hide Inv; }
    hide Start, Run, Inv, Posts, Short, Narrow, AllLegal, InMessageMode;
    RunPosts(Start(conv, wndX, wndY), ms, wnd);
  }

  /** End-to-end safety: whatever the network drops, repeats or reorders, each side hands out a prefix of the
      messages the other side accepted. */
  lemma EndToEnd(conv: u32, wndX: int32, wndY: int32, ms: seq<Move>, wnd: nat)
    requires Narrow(Start(conv, wndX, wndY), wnd) && AllLegal(ms, wnd) && InMessageMode(ms)
    requires Short(Run(Start(conv, wndX, wndY), ms), wnd)
    ensures var s := Run(Start(conv, wndX, wndY), ms);
            InOrder(s.y.got, s.x.posts) && InOrder(s.x.got, s.y.posts)
  {
    Reaches(conv, wndX, wndY, ms, wnd);
    hide Run, Start, Inv, Short, Log, InOrder;
  }

  /** The receive window cannot wedge: whenever the queue is full, the next message is complete and can be taken. */
  lemma FullQueueHasMessage(conv: u32, wndX: int32, wndY: int32, ms: seq<Move>, wnd: nat)
    requires Narrow(Start(conv, wndX, wndY), wnd) && AllLegal(ms, wnd) && InMessageMode(ms)
    requires Short(Run(Start(conv, wndX, wndY), ms), wnd)
    ensures var s := Run(Start(conv, wndX, wndY), ms);
      |s.x.k.rcv.queue| >= s.x.k.rcv.wnd ==>
        && |s.x.got| < |s.y.posts|
        && PeekSize(s.x.k.rcv.queue) == |s.y.posts[|s.x.got|].data|
        && forall len | len >= PeekSize(s.x.k.rcv.queue) :: Recv(s.x.k.rcv, len).data == s.y.posts[|s.x.got|].data
  {
    Reaches(conv, wndX, wndY, ms, wnd);
    var s := Run(Start(conv, wndX, wndY), ms);
    if |s.x.k.rcv.queue| >= s.x.k.rcv.wnd { FullHead(s); }
    hide Run, Start, Inv, Posts, Short, PeekSize, Recv;
  }

  lemma {:induction false} FullHead(s: Sys)
    requires Inv(s) && Posts(s) && |s.x.k.rcv.queue| >= s.x.k.rcv.wnd
    ensures |s.x.got| < |s.y.posts| && PeekSize(s.x.k.rcv.queue) == |s.y.posts[|s.x.got|].data|
    ensures forall len | len >= PeekSize(s.x.k.rcv.queue) :: Recv(s.x.k.rcv, len).data == s.y.posts[|s.x.got|].data
  {
    var r := s.x.k.rcv;
    FlowParts(s.y.log, s.y.k, s.x.k, s.toX, s.toY);
    hide Flow;
    QueueStartsMessage(s.y.posts, s.x.got, r, s.y.k.snd.nxt);
    var p := s.y.posts[|s.x.got|];
    hide SndFlow, RcvFlow, NothingLost, Log, Cut, Pull;
    WholeMessage(r.queue, Cut(p), p.data);
  }

  // ---------- nothing under way ----------

  lemma {:induction false} LogLength(posts: seq<Post>)
    requires AllAcceptable(posts)
    ensures |Log(posts)| >= |posts|
  {
    if posts != [] {
      assert Acceptable(posts[0]) && AllAcceptable(posts[1..]);
      CutIsMessage(posts[0]);
      LogLength(posts[1..]);
      hide Cut;
    }
  }

  /** In every reachable state in which one side has nothing left to send or to have acknowledged, and nothing waits on
      the other side, every message accepted has been handed out. */
  lemma EverythingHandedOut(conv: u32, wndX: int32, wndY: int32, ms: seq<Move>, wnd: nat)
    requires Narrow(Start(conv, wndX, wndY), wnd) && AllLegal(ms, wnd) && InMessageMode(ms)
    requires Short(Run(Start(conv, wndX, wndY), ms), wnd)
    ensures var s := Run(Start(conv, wndX, wndY), ms);
      s.x.k.snd.queue == [] && s.x.k.snd.buf == [] && s.y.k.rcv.queue == [] && s.y.k.rcv.buf == []
      ==> s.y.got == seq(|s.x.posts|, i requires 0 <= i < |s.x.posts| => s.x.posts[i].data)
  {
    Reaches(conv, wndX, wndY, ms, wnd);
    var s := Run(Start(conv, wndX, wndY), ms);
    if s.x.k.snd.queue == [] && s.x.k.snd.buf == [] && s.y.k.rcv.queue == [] && s.y.k.rcv.buf == [] {
      IdleHandedOut(s);
    }
    hide Run, Start, Short, Inv, Posts;
  }

  lemma {:induction false} IdleHandedOut(s: Sys)
    requires Inv(s) && Posts(s)
    requires s.x.k.snd.queue == [] && s.x.k.snd.buf == [] && s.y.k.rcv.queue == [] && s.y.k.rcv.buf == []
    ensures s.y.got == seq(|s.x.posts|, i requires 0 <= i < |s.x.posts| => s.x.posts[i].data)
  {
    FlowParts(s.x.log, s.x.k, s.y.k, s.toY, s.toX);
    hide Flow, Log, SndFlow, RcvFlow, NothingLost, AllAcceptable, Handed;
    IdleArrived(s.x.log, s.x.k.snd, s.y.k.rcv);
    AllHanded(s.x.posts, s.y.got, s.y.k.rcv);
  }

  lemma {:induction false} AllHanded(posts: seq<Post>, got: seq<Bytes>, r: Receiver)
    requires AllAcceptable(posts) && Handed(posts, got, r) && Place(r) == |Log(posts)|
    ensures got == seq(|posts|, i requires 0 <= i < |posts| => posts[i].data)
  {
    hide Log, AllAcceptable;
    LogSplit(posts, |got|);
    LogLength(posts[|got|..]);
  }
}
