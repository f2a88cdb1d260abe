/** One direction of a connection: what the sender's window, the receiver's buffers and the datagrams under way
    have to do with the log of all fragments the sender was ever given. The log position of a fragment is its
    sequence number; the log stays short enough for the numbers not to wrap. */
module KcpFlow {
  import opened Numbers
  import opened KcpWire
  import opened KcpSender
  import opened KcpReceiver
  import opened KcpFragments
  import opened KcpEngine

  /** The sender's segments are log entries; what is not yet numbered is the queue. */
  ghost predicate SndFlow(log: seq<Chunk>, s: Sender) {
    && s.nxt <= |log| < 0x8000_0000
    && s.queue == log[s.nxt..]
    && forall o <- s.buf :: o.sn < s.nxt && ChunkOf(o) == log[o.sn]
  }

  /** The receiver's segments are log entries below `top`; its queue is the log just before rcv_nxt. */
  ghost predicate RcvFlow(log: seq<Chunk>, r: Receiver, top: int) {
    && r.nxt <= top <= |log|
    && |log| + r.wnd <= 0x8000_0000
    && |r.queue| <= r.nxt
    && Carried(r.queue) == log[r.nxt - |r.queue|..r.nxt]
    && forall w <- r.buf :: w.sn < top && ChunkOfWire(w) == log[w.sn]
  }

  ghost predicate Got(r: Receiver, n: int) {
    n < r.nxt || exists w :: w in r.buf && w.sn == n
  }

  ghost predicate Kept(s: Sender, n: int) {
    exists o :: o in s.buf && o.sn == n
  }

  /** Every number given out is still with the sender or has arrived. */
  ghost predicate NothingLost(s: Sender, r: Receiver) {
    forall n | 0 <= n < s.nxt :: Kept(s, n) || Got(r, n)
  }

  /** A data segment under way carries the log entry of its number. */
  ghost predicate DataTrue(log: seq<Chunk>, top: int, w: Wire) {
    w.cmd == CMD_PUSH ==> w.sn < top && top <= |log| && ChunkOfWire(w) == log[w.sn]
  }

  /** An acknowledgement under way speaks of segments that have arrived. */
  ghost predicate AckTrue(r: Receiver, w: Wire) {
    w.una <= r.nxt && (w.cmd == CMD_ACK ==> Got(r, w.sn))
  }

  ghost predicate AllGot(r: Receiver, acks: seq<Ack>) {
    forall a <- acks :: Got(r, a.sn)
  }

  /** The receiver has moved on: whatever had arrived still counts as arrived. */
  ghost predicate Later(r: Receiver, r': Receiver) {
    r.nxt <= r'.nxt && r'.wnd == r.wnd && forall n: int :: Got(r, n) ==> Got(r', n)
  }

  // ---------- sender ----------

  /** Segments leave the sender only if they have arrived. */
  ghost predicate Released(s: Sender, s': Sender, r: Receiver) {
    && s'.nxt == s.nxt && s'.queue == s.queue
    && (forall o <- s'.buf :: o in s.buf)
    && (forall o <- s.buf :: o in s'.buf || Got(r, o.sn))
  }

  lemma ReleasedFlow(log: seq<Chunk>, s: Sender, s': Sender, r: Receiver)
    requires SndFlow(log, s) && NothingLost(s, r) && Released(s, s', r)
    ensures SndFlow(log, s') && NothingLost(s', r)
  {
    forall n | 0 <= n < s'.nxt
      ensures Kept(s', n) || Got(r, n)
    {
      assert Kept(s, n) || Got(r, n);
    }
  }

  lemma OnUnaReleases(log: seq<Chunk>, s: Sender, r: Receiver, una: u32)
    requires SndFlow(log, s) && una <= r.nxt < 0x8000_0000
    ensures Released(s, OnUna(s, una), r)
  {
    var k := ParseUnaDrops(s.buf, una);
    assert s.buf == s.buf[..k] + s.buf[k..];
    forall o | o in s.buf[..k]
      ensures Got(r, o.sn)
    {
      assert Diff(una, o.sn) > 0;
      WrapSmall(una);
      WrapSmall(o.sn);
      DiffExact(una, o.sn);
    }
    hide Diff, Got;
  }

  lemma OnAckReleases(log: seq<Chunk>, s: Sender, r: Receiver, sn: u32)
    requires SndFlow(log, s) && Got(r, sn)
    ensures Released(s, OnAck(s, sn), r)
  {
    var k := RemoveSnDrops(s.buf, sn);
    if k < |s.buf| {
      assert s.buf == s.buf[..k] + [s.buf[k]] + s.buf[k + 1..];
    }
    hide Outside, Got;
  }

  lemma SenderOnFlow(log: seq<Chunk>, s: Sender, r: Receiver, w: Wire)
    requires SndFlow(log, s) && NothingLost(s, r) && AckTrue(r, w) && r.nxt < 0x8000_0000
    ensures SndFlow(log, SenderOn(s, w)) && NothingLost(SenderOn(s, w), r) && SenderOn(s, w).nxt == s.nxt
  {
    var s1 := OnUna(s, w.una);
    OnUnaReleases(log, s, r, w.una);
    hide SndFlow, NothingLost, Got, OnUna, OnAck;
    ReleasedFlow(log, s, s1, r);
    if w.cmd == CMD_ACK {
      OnAckReleases(log, s1, r, w.sn);
      ReleasedFlow(log, s1, OnAck(s1, w.sn), r);
    }
  }

  lemma SameSegsFlow(log: seq<Chunk>, s: Sender, r: Receiver, b: seq<OutSeg>)
    requires SndFlow(log, s) && NothingLost(s, r) && SameSegs(s.buf, b)
    ensures SndFlow(log, s.(buf := b)) && NothingLost(s.(buf := b), r)
  {
    forall o | o in b
      ensures o.sn < s.nxt && ChunkOf(o) == log[o.sn]
    {
      var i :| 0 <= i < |b| && b[i] == o;
      assert s.buf[i].sn == o.sn;
    }
    forall n | 0 <= n < s.nxt
      ensures Kept(s.(buf := b), n) || Got(r, n)
    {
      if Kept(s, n) {
        var o :| o in s.buf && o.sn == n;
        var i :| 0 <= i < |b| && s.buf[i] == o;
        assert b[i] in b && b[i].sn == n;
      }
    }
  }

  lemma {:induction false} AdmitFlow(log: seq<Chunk>, s: Sender, r: Receiver, cwnd: u32, t: Stamp)
    requires SndFlow(log, s) && NothingLost(s, r)
    ensures SndFlow(log, Admit(s, cwnd, t)) && NothingLost(Admit(s, cwnd, t), r)
    ensures s.nxt <= Admit(s, cwnd, t).nxt
    decreases |s.queue|
  {
    hide Diff, Got;
    if Diff(s.nxt, Wrap(s.una + cwnd)) < 0 && s.queue != [] {
      var m := Sender(s.una, Wrap(s.nxt + 1), s.buf + [Fresh(s.queue[0], s.nxt, t)], s.queue[1..]);
      WrapSmall(s.nxt + 1);
      AdmitOneFlow(log, s, r, t);
      hide SndFlow, NothingLost, Wrap;
      AdmitFlow(log, m, r, cwnd, t);
    }
  }

  lemma AdmitOneFlow(log: seq<Chunk>, s: Sender, r: Receiver, t: Stamp)
    requires SndFlow(log, s) && NothingLost(s, r) && s.queue != []
    ensures var m := Sender(s.una, Wrap(s.nxt + 1), s.buf + [Fresh(s.queue[0], s.nxt, t)], s.queue[1..]);
            SndFlow(log, m) && NothingLost(m, r)
  {
    var o := Fresh(s.queue[0], s.nxt, t);
    var m := Sender(s.una, Wrap(s.nxt + 1), s.buf + [o], s.queue[1..]);
    WrapSmall(s.nxt + 1);
    hide Wrap, Got;
    assert m.queue == log[m.nxt..];
    assert ChunkOf(o) == log[s.nxt];
    forall n | 0 <= n < m.nxt
      ensures Kept(m, n) || Got(r, n)
    {
      if n == s.nxt {
        assert o in m.buf && o.sn == n;
      } else if Kept(s, n) {
        var p :| p in s.buf && p.sn == n;
        assert p in m.buf;
      }
    }
  }

  // ---------- receiver ----------

  lemma PullOneFlow(log: seq<Chunk>, r: Receiver, top: int)
    requires RcvFlow(log, r, top) && r.buf != [] && r.buf[0].sn == r.nxt
    ensures var m := Receiver(Wrap(r.nxt + 1), r.wnd, r.buf[1..], r.queue + [r.buf[0]]);
            RcvFlow(log, m, top) && Later(r, m)
  {
    var m := Receiver(Wrap(r.nxt + 1), r.wnd, r.buf[1..], r.queue + [r.buf[0]]);
    assert r.buf[0] in r.buf;
    WrapSmall(r.nxt + 1);
    hide Wrap;
    assert Carried(m.queue) == Carried(r.queue) + [ChunkOfWire(r.buf[0])];
    assert Carried(m.queue) == log[m.nxt - |m.queue|..m.nxt];
    forall n: int | Got(r, n)
      ensures Got(m, n)
    {
      if n >= m.nxt {
        var w :| w in r.buf && w.sn == n;
        assert w in m.buf;
      }
    }
  }

  lemma {:induction false} PullFlow(log: seq<Chunk>, r: Receiver, top: int)
    requires RcvFlow(log, r, top)
    ensures RcvFlow(log, Pull(r), top) && Later(r, Pull(r))
    ensures Pull(r).nxt - |Pull(r).queue| == r.nxt - |r.queue|
    decreases |r.buf|
  {
    if r.buf != [] && r.buf[0].sn == r.nxt && |r.queue| < r.wnd {
      var m := Receiver(Wrap(r.nxt + 1), r.wnd, r.buf[1..], r.queue + [r.buf[0]]);
      PullOneFlow(log, r, top);
      assert m.nxt == r.nxt + 1 by { assert r.buf[0] in r.buf; WrapSmall(r.nxt + 1); }
      hide RcvFlow, Got, Wrap;
      PullFlow(log, m, top);
    }
  }

  lemma InsertFlow(log: seq<Chunk>, r: Receiver, top: int, w: Wire)
    requires RcvFlow(log, r, top) && DataTrue(log, top, w) && w.cmd == CMD_PUSH
    ensures RcvFlow(log, Insert(r, w), top) && Later(r, Insert(r, w)) && Got(Insert(r, w), w.sn)
  {
    var p := ScanBack(r.buf, w.sn, |r.buf|);
    hide ScanBack;
    if p > 0 && r.buf[p - 1].sn == w.sn {
      assert r.buf[p - 1] in r.buf;
    } else {
      var b := r.buf[..p] + [w] + r.buf[p..];
      assert r.buf == r.buf[..p] + r.buf[p..];
      assert w in b;
      assert forall o :: o in r.buf ==> o in b;
      assert forall o :: o in b ==> o in r.buf || o == w;
    }
  }

  lemma GuardIsOrder(log: seq<Chunk>, r: Receiver, top: int, sn: u32)
    requires RcvFlow(log, r, top) && sn < top
    ensures BeyondWindow(r, sn) <==> sn >= r.nxt + r.wnd
    ensures Diff(sn, r.nxt) < 0 <==> sn < r.nxt
  {
    WrapSmall(sn);
    WrapSmall(r.nxt);
    DiffExact(sn, r.nxt);
    DiffExact(sn, r.nxt + r.wnd);
  }

  /** A truthful segment keeps the receiver on the log; if it is acknowledged, it has then arrived. */
  lemma ReceiverOnFlow(log: seq<Chunk>, r: Receiver, top: int, acks: seq<Ack>, w: Wire)
    requires RcvFlow(log, r, top) && AllGot(r, acks) && DataTrue(log, top, w)
    ensures RcvFlow(log, ReceiverOn(r, w), top) && Later(r, ReceiverOn(r, w))
    ensures AllGot(ReceiverOn(r, w), AcksOn(r, acks, w))
    ensures ReceiverOn(r, w).nxt - |ReceiverOn(r, w).queue| == r.nxt - |r.queue|
  {
    if w.cmd == CMD_PUSH {
      GuardIsOrder(log, r, top, w.sn);
      InsertFlow(log, r, top, w);
      PullFlow(log, Insert(r, w), top);
      var r' := ReceiverOn(r, w);
      var m := Insert(r, w);
      assert m.nxt == r.nxt && m.queue == r.queue by { hide ScanBack; }
      assert Later(r, r') by { hide Insert, Pull, BeyondWindow, Diff; assert Later(r, m); }
      if !BeyondWindow(r, w.sn) {
        assert Got(r', w.sn) by { hide Insert, Pull, BeyondWindow, Diff; }
      }
      hide RcvFlow, Got, BeyondWindow, Diff, Insert, Pull;
    }
  }

  lemma DropFlow(log: seq<Chunk>, r: Receiver, top: int, n: nat)
    requires RcvFlow(log, r, top) && n <= |r.queue|
    ensures RcvFlow(log, r.(queue := r.queue[n..]), top) && Later(r, r.(queue := r.queue[n..]))
  {
    assert Carried(r.queue[n..]) == Carried(r.queue)[n..];
  }

  lemma RecvFlow(log: seq<Chunk>, r: Receiver, top: int, len: int)
    requires RcvFlow(log, r, top)
    ensures var e := Recv(r, len);
      && RcvFlow(log, e.rcv, top) && Later(r, e.rcv)
      && e.rcv.nxt - |e.rcv.queue| ==
         r.nxt - |r.queue| + (if e.code >= 0 && len >= 0 then HeadCount(r.queue) else 0)
  {
    var n := HeadCount(r.queue);
    DropFlow(log, r, top, n);
    hide Got, RcvFlow, PeekSize, Join;
    PullFlow(log, r.(queue := r.queue[n..]), top);
    PullFlow(log, r, top);
  }

  // ---------- growth ----------

  /** The log with the unnumbered segments at its end replaced. */
  function Relogged(log: seq<Chunk>, queued: nat, queue: seq<Chunk>): seq<Chunk>
  {
    log[..Max(0, |log| - queued)] + queue
  }

  /** What has a number stays as it is. */
  lemma LogGrows(log: seq<Chunk>, queue: seq<Chunk>, s: Sender, r: Receiver)
    requires SndFlow(log, s) && RcvFlow(log, r, s.nxt) && |s.queue| <= |queue|
    requires |Relogged(log, |s.queue|, queue)| + r.wnd <= 0x8000_0000 && r.wnd > 0
    ensures SndFlow(Relogged(log, |s.queue|, queue), s.(queue := queue))
    ensures RcvFlow(Relogged(log, |s.queue|, queue), r, s.nxt)
  {
    var l := Relogged(log, |s.queue|, queue);
    assert |log| - |s.queue| == s.nxt;
    assert l[s.nxt..] == queue;
    assert l[r.nxt - |r.queue|..r.nxt] == log[r.nxt - |r.queue|..r.nxt];
  }

  lemma TopGrows(log: seq<Chunk>, r: Receiver, top: int, top': int)
    requires RcvFlow(log, r, top) && top <= top' <= |log|
    ensures RcvFlow(log, r, top')
  {
  }
}
