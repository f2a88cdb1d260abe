/** The receiving half of a control block: the out-of-order buffer, the in-order queue, and taking messages
    out of the queue. Sequence numbers are 32-bit words; orders are orders of distances from rcv_nxt. */
module KcpReceiver {
  import opened Numbers
  import opened LittleEndian
  import opened KcpWire

  datatype Receiver = Receiver(nxt: u32, wnd: u32, buf: seq<Wire>, queue: seq<Wire>)

  // ---------- ikcp_parse_data ----------

  /** Where the backward scan from position n stops: behind a segment with this number, or a smaller one. */
  function ScanBack(buf: seq<Wire>, sn: u32, n: nat): (p: nat)
    requires n <= |buf|
    ensures p <= n
  {
    if n == 0 || buf[n - 1].sn == sn || Diff(sn, buf[n - 1].sn) > 0 then n else ScanBack(buf, sn, n - 1)
  }

  function Insert(r: Receiver, w: Wire): Receiver {
    var p := ScanBack(r.buf, w.sn, |r.buf|);
    if p > 0 && r.buf[p - 1].sn == w.sn then r else r.(buf := r.buf[..p] + [w] + r.buf[p..])
  }

  /** Move segments that are next in line from the buffer to the queue, while the queue has room. */
  function Pull(r: Receiver): Receiver
    decreases |r.buf|
  {
    if r.buf != [] && r.buf[0].sn == r.nxt && |r.queue| < r.wnd then
      Pull(Receiver(Wrap(r.nxt + 1), r.wnd, r.buf[1..], r.queue + [r.buf[0]]))
    else r
  }

  predicate BeyondWindow(r: Receiver, sn: u32) {
    Diff(sn, Wrap(r.nxt + r.wnd)) >= 0
  }

  function ParseData(r: Receiver, w: Wire): Receiver {
    if BeyondWindow(r, w.sn) || Diff(w.sn, r.nxt) < 0 then r else Pull(Insert(r, w))
  }

  // ---------- ikcp_peeksize, ikcp_recv ----------

  /** Number of segments up to and including the first with fragment number 0. */
  function HeadCount(q: seq<Wire>): (n: nat)
    ensures n <= |q| && (q != [] ==> n > 0)
  {
    if q == [] then 0 else if q[0].frg == 0 then 1 else 1 + HeadCount(q[1..])
  }

  function Join(q: seq<Wire>): Bytes {
    if q == [] then [] else q[0].data + Join(q[1..])
  }

  function PeekSize(q: seq<Wire>): int {
    if q == [] then -1
    else if q[0].frg == 0 then |q[0].data|
    else if |q| < q[0].frg as int + 1 then -1
    else |Join(q[..HeadCount(q)])|
  }

  function Abs(x: int): nat {
    if x < 0 then -x else x
  }

  /** Value returned, bytes copied out, receiver afterwards, and whether the peer is to be told the window. */
  datatype Received = Received(code: int, data: Bytes, rcv: Receiver, tell: bool)

  /** ikcp_recv; a negative length asks to look without taking. */
  function Recv(r: Receiver, len: int): Received {
    if r.queue == [] then Received(-1, [], r, false)
    else if PeekSize(r.queue) < 0 then Received(-2, [], r, false)
    else if PeekSize(r.queue) > Abs(len) then Received(-3, [], r, false)
    else
      var n := HeadCount(r.queue);
      var data := Join(r.queue[..n]);
      var rest := Pull(if len < 0 then r else r.(queue := r.queue[n..]));
      Received(|data|, data, rest, |r.queue| >= r.wnd > |rest.queue|)
  }

  /** The length reported beforehand is the length that is copied out. */
  lemma PeekIsRecvLength(r: Receiver, len: int)
    ensures Recv(r, len).code >= 0 ==> Recv(r, len).code == PeekSize(r.queue) == |Recv(r, len).data|
    ensures Recv(r, len).code < 0 ==> Recv(r, len).rcv == r
    ensures Recv(r, len).code >= 0 <==> 0 <= PeekSize(r.queue) <= Abs(len)
  {
    if r.queue != [] && r.queue[0].frg == 0 {
      var h := r.queue[..1];
      assert Join(h) == h[0].data + Join(h[1..]) == h[0].data;
    }
  }

  lemma {:induction false} PullConserves(r: Receiver)
    ensures Pull(r).queue + Pull(r).buf == r.queue + r.buf
    ensures r.queue <= Pull(r).queue
    decreases |r.buf|
  {
    if r.buf != [] && r.buf[0].sn == r.nxt && |r.queue| < r.wnd {
      var p := Receiver(Wrap(r.nxt + 1), r.wnd, r.buf[1..], r.queue + [r.buf[0]]);
      PullConserves(p);
      hide Wrap, Pull;
      assert [r.buf[0]] + r.buf[1..] == r.buf;
      assert p.queue + p.buf == r.queue + ([r.buf[0]] + r.buf[1..]);
    }
  }

  /** The three ways to fail, and what success takes: the fragments of the first message when asked to take, nothing
      when asked to look. Everything else stays, in the same order, in the queue or the buffer. */
  lemma RecvConserves(r: Receiver, len: int)
    ensures var v := Recv(r, len);
      && (v.code == -1 <==> r.queue == [])
      && (v.code == -2 <==> r.queue != [] && PeekSize(r.queue) < 0)
      && (v.code == -3 <==> PeekSize(r.queue) > Abs(len))
      && (v.code < 0 ==> v.data == [] && v.rcv == r)
      && (v.code >= 0 ==>
            var taken := if len < 0 then [] else r.queue[..HeadCount(r.queue)];
            taken + v.rcv.queue + v.rcv.buf == r.queue + r.buf)
  {
    PeekIsRecvLength(r, len);
    var n := HeadCount(r.queue);
    assert r.queue == [] ==> PeekSize(r.queue) == -1;
    hide PeekSize, Join, HeadCount;
    if Recv(r, len).code >= 0 {
      var rest := if len < 0 then r else r.(queue := r.queue[n..]);
      PullConserves(rest);
      hide Pull;
      assert r.queue == r.queue[..n] + r.queue[n..];
      assert r.queue[..n] + (r.queue[n..] + r.buf) == r.queue + r.buf;
    }
  }

  // ---------- the receive invariant ----------

  /** Strictly ascending, hence duplicate-free, inside [rcv_nxt, rcv_nxt + wnd). */
  ghost predicate Buffered(r: Receiver) {
    && 0 < r.wnd < 0x8000_0000
    && (forall i | 0 <= i < |r.buf| :: Dist(r.nxt, r.buf[i].sn) < r.wnd)
    && (forall i, j | 0 <= i < j < |r.buf| :: Dist(r.nxt, r.buf[i].sn) < Dist(r.nxt, r.buf[j].sn))
  }

  /** The queue holds the numbers just before rcv_nxt, in order. */
  ghost predicate Queued(r: Receiver) {
    |r.queue| <= r.wnd && forall i | 0 <= i < |r.queue| :: r.queue[i].sn == Wrap(r.nxt - |r.queue| + i)
  }

  /** The next segment waits in the buffer only while the queue is full. */
  predicate Settled(r: Receiver) {
    r.buf != [] && r.buf[0].sn == r.nxt ==> |r.queue| >= r.wnd
  }

  ghost predicate ReceiverOk(r: Receiver) {
    Buffered(r) && Queued(r)
  }

  /** The two comparisons that guard ikcp_parse_data accept exactly the numbers in [rcv_nxt, rcv_nxt + wnd). */
  lemma AcceptsWindow(r: Receiver, sn: u32)
    requires 0 < r.wnd < 0x8000_0000
    ensures !BeyondWindow(r, sn) && Diff(sn, r.nxt) >= 0 <==> Dist(r.nxt, sn) < r.wnd
  {
    WrapAdd(r.nxt + r.wnd, -(r.nxt as int));
    assert Dist(r.nxt, Wrap(r.nxt + r.wnd)) == r.wnd;
    if Dist(r.nxt, sn) < 0x8000_0000 {
      DiffIsDist(r.nxt, sn, Wrap(r.nxt + r.wnd));
    }
  }

  /** The scan finds the place that keeps the buffer ascending. */
  lemma {:induction false} ScanBackSplits(r: Receiver, sn: u32, n: nat)
    requires Buffered(r) && Dist(r.nxt, sn) < r.wnd && n <= |r.buf|
    ensures var p := ScanBack(r.buf, sn, n);
      && (p > 0 ==> Dist(r.nxt, r.buf[p - 1].sn) <= Dist(r.nxt, sn))
      && (p > 0 && r.buf[p - 1].sn != sn ==> Dist(r.nxt, r.buf[p - 1].sn) < Dist(r.nxt, sn))
      && (forall i | p <= i < n :: Dist(r.nxt, sn) < Dist(r.nxt, r.buf[i].sn))
  {
    hide Dist, Diff, Wrap;
    if n > 0 {
      DiffIsDist(r.nxt, sn, r.buf[n - 1].sn);
      DistInjective(r.nxt, sn, r.buf[n - 1].sn);
      if !(r.buf[n - 1].sn == sn || Diff(sn, r.buf[n - 1].sn) > 0) {
        ScanBackSplits(r, sn, n - 1);
      }
    }
  }

  /** Insertion keeps the buffer ascending. */
  lemma InsertKeeps(r: Receiver, w: Wire)
    requires Buffered(r) && Dist(r.nxt, w.sn) < r.wnd
    ensures Buffered(Insert(r, w))
  {
    var p := ScanBack(r.buf, w.sn, |r.buf|);
    ScanBackSplits(r, w.sn, |r.buf|);
    hide Dist, Buffered, ScanBack;
    if !(p > 0 && r.buf[p - 1].sn == w.sn) {
      InsertedAscends(r, w, p);
    }
  }

  ghost predicate Holds(buf: seq<Wire>, sn: u32) {
    exists i :: 0 <= i < |buf| && buf[i].sn == sn
  }

  /** Insertion is a set insertion in which the first copy of a number wins. */
  lemma InsertIsSetInsert(r: Receiver, w: Wire)
    requires Buffered(r) && Dist(r.nxt, w.sn) < r.wnd
    ensures Holds(r.buf, w.sn) ==> Insert(r, w) == r
    ensures !Holds(r.buf, w.sn) ==> multiset(Insert(r, w).buf) == multiset(r.buf) + multiset{w}
  {
    hide Dist, ScanBack, Buffered;
    var p := ScanBack(r.buf, w.sn, |r.buf|);
    ScanBackSplits(r, w.sn, |r.buf|);
    if p == 0 || r.buf[p - 1].sn != w.sn {
      InsertedFresh(r, w, p);
      InsertedMultiset(r.buf, w, p);
    }
  }

  lemma InsertedFresh(r: Receiver, w: Wire, p: nat)
    requires Buffered(r) && p <= |r.buf|
    requires p > 0 ==> Dist(r.nxt, r.buf[p - 1].sn) < Dist(r.nxt, w.sn)
    requires forall i | p <= i < |r.buf| :: Dist(r.nxt, w.sn) < Dist(r.nxt, r.buf[i].sn)
    ensures !Holds(r.buf, w.sn)
  {
    hide Dist;
    forall i | 0 <= i < |r.buf|
      ensures r.buf[i].sn != w.sn
    {
      if i + 1 < p { assert Dist(r.nxt, r.buf[i].sn) < Dist(r.nxt, r.buf[p - 1].sn); }
    }
  }

  lemma InsertedMultiset(buf: seq<Wire>, w: Wire, p: nat)
    requires p <= |buf|
    ensures multiset(buf[..p] + [w] + buf[p..]) == multiset(buf) + multiset{w}
  {
    assert buf == buf[..p] + buf[p..];
  }

  lemma InsertedAscends(r: Receiver, w: Wire, p: nat)
    requires Buffered(r) && Dist(r.nxt, w.sn) < r.wnd && p <= |r.buf|
    requires p > 0 ==> Dist(r.nxt, r.buf[p - 1].sn) < Dist(r.nxt, w.sn)
    requires forall i | p <= i < |r.buf| :: Dist(r.nxt, w.sn) < Dist(r.nxt, r.buf[i].sn)
    ensures Buffered(r.(buf := r.buf[..p] + [w] + r.buf[p..]))
  {
    hide Dist;
    var b := r.buf[..p] + [w] + r.buf[p..];
    forall i | 0 <= i < p
      ensures Dist(r.nxt, r.buf[i].sn) < Dist(r.nxt, w.sn)
    {
      if i + 1 < p { assert Dist(r.nxt, r.buf[i].sn) < Dist(r.nxt, r.buf[p - 1].sn); }
    }
    assert forall i | 0 <= i < p :: b[i] == r.buf[i];
    assert b[p] == w;
    assert forall i | p < i < |b| :: b[i] == r.buf[i - 1];
  }

  lemma PullOne(r: Receiver)
    requires Buffered(r) && Queued(r) && r.buf != [] && r.buf[0].sn == r.nxt && |r.queue| < r.wnd
    ensures var s := Receiver(Wrap(r.nxt + 1), r.wnd, r.buf[1..], r.queue + [r.buf[0]]); Buffered(s) && Queued(s)
  {
    var s := Receiver(Wrap(r.nxt + 1), r.wnd, r.buf[1..], r.queue + [r.buf[0]]);
    forall i | 0 < i < |r.buf|
      ensures Dist(s.nxt, r.buf[i].sn) == Dist(r.nxt, r.buf[i].sn) - 1
    {
      assert Dist(r.nxt, r.buf[0].sn) < Dist(r.nxt, r.buf[i].sn);
      DistFromNext(r.nxt, r.buf[i].sn);
    }
    PullQueue(r);
    hide Dist;
    assert forall i | 0 <= i < |s.buf| :: s.buf[i] == r.buf[i + 1];
  }

  lemma PullQueue(r: Receiver)
    requires Queued(r) && r.buf != [] && r.buf[0].sn == r.nxt && |r.queue| < r.wnd
    ensures Queued(Receiver(Wrap(r.nxt + 1), r.wnd, r.buf[1..], r.queue + [r.buf[0]]))
  {
    hide Wrap;
    var q := r.queue + [r.buf[0]];
    forall i | 0 <= i < |q|
      ensures q[i].sn == Wrap(Wrap(r.nxt + 1) - |q| + i)
    {
      WrapAdd(r.nxt + 1, i - |q|);
      assert r.nxt as int + 1 + (i - |q|) == r.nxt - |r.queue| + i;
      assert Wrap(r.nxt) == r.nxt by { WrapSmall(r.nxt); }
    }
  }

  lemma {:induction false} PullKeeps(r: Receiver)
    requires Buffered(r) && Queued(r)
    ensures ReceiverOk(Pull(r)) && Settled(Pull(r)) && Pull(r).wnd == r.wnd
    decreases |r.buf|
  {
    hide Buffered, Queued;
    if r.buf != [] && r.buf[0].sn == r.nxt && |r.queue| < r.wnd {
      PullOne(r);
      PullKeeps(Receiver(Wrap(r.nxt + 1), r.wnd, r.buf[1..], r.queue + [r.buf[0]]));
    } else {
      assert Settled(r);
    }
  }

  /** Any segment, with any number, leaves the receiver within its invariant. */
  lemma ParseDataKeeps(r: Receiver, w: Wire)
    requires ReceiverOk(r)
    ensures ReceiverOk(ParseData(r, w)) && ParseData(r, w).wnd == r.wnd
    ensures Settled(r) ==> Settled(ParseData(r, w))
  {
    hide Dist, Diff, BeyondWindow, Queued, Buffered;
    assert 0 < r.wnd < 0x8000_0000 by { WndRange(r); }
    AcceptsWindow(r, w.sn);
    if Dist(r.nxt, w.sn) < r.wnd {
      InsertKeeps(r, w);
      QueuedInsert(r, w);
      PullKeeps(Insert(r, w));
    }
  }

  lemma WndRange(r: Receiver)
    requires Buffered(r)
    ensures 0 < r.wnd < 0x8000_0000
  {
  }

  lemma QueuedInsert(r: Receiver, w: Wire)
    requires Queued(r)
    ensures Queued(Insert(r, w))
  {
    hide ScanBack;
  }

  lemma QueuedDrop(r: Receiver, n: nat)
    requires Queued(r) && n <= |r.queue|
    ensures Queued(r.(queue := r.queue[n..]))
  {
    hide Wrap;
    var q := r.queue[n..];
    forall i | 0 <= i < |q|
      ensures q[i].sn == Wrap(r.nxt - |q| + i)
    {
      assert q[i] == r.queue[n + i];
      assert r.nxt - |q| + i == r.nxt - |r.queue| + (n + i);
    }
  }

  lemma RecvKeeps(r: Receiver, len: int)
    requires ReceiverOk(r)
    ensures ReceiverOk(Recv(r, len).rcv) && Recv(r, len).rcv.wnd == r.wnd
    ensures Settled(r) || Recv(r, len).code >= 0 ==> Settled(Recv(r, len).rcv)
  {
    hide Buffered, Queued, Settled, Pull, Join;
    var n := HeadCount(r.queue);
    QueuedDrop(r, n);
    var t := if len < 0 then r else r.(queue := r.queue[n..]);
    assert Buffered(t) by { BufferedQueue(r, t.queue); assert t == r.(queue := t.queue); }
    PullKeeps(t);
  }

  lemma BufferedQueue(r: Receiver, q: seq<Wire>)
    requires Buffered(r)
    ensures Buffered(r.(queue := q))
  {
  }

  /** An ascending buffer inside a window of wnd numbers has at most wnd entries. */
  lemma {:induction false} BufferFits(r: Receiver, n: nat)
    requires Buffered(r) && 0 < n <= |r.buf|
    ensures n - 1 <= Dist(r.nxt, r.buf[n - 1].sn)
    ensures n <= r.wnd
  {
    hide Dist;
    if n > 1 {
      BufferFits(r, n - 1);
      assert Dist(r.nxt, r.buf[n - 2].sn) < Dist(r.nxt, r.buf[n - 1].sn);
    }
  }

  lemma {:induction false} PullWnd(r: Receiver)
    ensures Pull(r).wnd == r.wnd
    decreases |r.buf|
  {
    if r.buf != [] && r.buf[0].sn == r.nxt && |r.queue| < r.wnd {
      PullWnd(Receiver(Wrap(r.nxt + 1), r.wnd, r.buf[1..], r.queue + [r.buf[0]]));
    }
  }

  lemma RecvWnd(r: Receiver, len: int)
    ensures Recv(r, len).rcv.wnd == r.wnd
  {
    PullWnd(r);
    PullWnd(r.(queue := r.queue[HeadCount(r.queue)..]));
    hide Pull, PeekSize, Join;
  }
}
