/** ikcp_send: cutting messages into fragments, and what the receiver's queue makes of them. */
module KcpFragments {
  import opened Numbers
  import opened LittleEndian
  import opened KcpWire
  import opened KcpSender
  import opened KcpReceiver

  const MAX_FRAGMENTS: nat := 127

  function FragmentCount(len: nat, mss: nat): (n: nat)
    requires mss > 0
    ensures n > 0
  {
    if len <= mss then 1 else Quotient(len + mss - 1, mss)
  }

  function Quotient(x: nat, d: nat): (q: nat)
    requires d > 0
    ensures q * d <= x < (q + 1) * d
    ensures x >= d ==> q > 0
  {
    QuotientBounds(x, d);
    x / d
  }

  lemma QuotientBounds(x: nat, d: nat)
    requires d > 0
    ensures 0 <= x / d && x / d * d <= x < (x / d + 1) * d
    ensures x >= d ==> x / d > 0
  {
    var q := x / d;
    assert x == q * d + x % d;
    assert (q + 1) * d == q * d + d;
  }

  /** The fragments of one call: numbered down to 0 in message mode, all 0 in stream mode. */
  function Fragments(data: Bytes, mss: nat, count: nat, stream: bool): (cs: seq<Chunk>)
    requires mss > 0 && count <= 256
    ensures |cs| == count
  {
    if count == 0 then []
    else
      var size := Min(|data|, mss);
      [Chunk(if stream then 0 else count - 1, data[..size])] + Fragments(data[size..], mss, count - 1, stream)
  }

  /** Stream mode first fills the last queued segment, which becomes a segment of its own. */
  function TopUp(queue: seq<Chunk>, mss: nat, data: Bytes): (r: (seq<Chunk>, Bytes))
    ensures |r.0| == |queue|
  {
    if queue == [] || |queue[|queue| - 1].data| >= mss then (queue, data)
    else
      var last := queue[|queue| - 1];
      var extend := Min(|data|, mss - |last.data|);
      (queue[..|queue| - 1] + [Chunk(0, last.data + data[..extend])], data[extend..])
  }

  datatype Sent = Sent(code: int, queue: seq<Chunk>)

  function Append(queue: seq<Chunk>, mss: nat, stream: bool, data: Bytes): Sent
    requires mss > 0
  {
    var count := FragmentCount(|data|, mss);
    if count > MAX_FRAGMENTS then Sent(-2, queue) else Sent(0, queue + Fragments(data, mss, count, stream))
  }

  /** ikcp_send on a message of |data| bytes. */
  function Send(queue: seq<Chunk>, mss: nat, stream: bool, data: Bytes): Sent
    requires mss > 0
  {
    if !stream then Append(queue, mss, false, data)
    else
      var (q, rest) := TopUp(queue, mss, data);
      if rest == [] then Sent(0, q) else Append(q, mss, true, rest)
  }

  // ---------- what the fragments of one call are ----------

  function JoinChunks(cs: seq<Chunk>): Bytes {
    if cs == [] then [] else cs[0].data + JoinChunks(cs[1..])
  }

  /** The fragments of one message, numbered down to 0. */
  ghost predicate IsMessage(cs: seq<Chunk>, data: Bytes) {
    && 0 < |cs| <= MAX_FRAGMENTS
    && (forall i | 0 <= i < |cs| :: cs[i].frg == |cs| - 1 - i)
    && JoinChunks(cs) == data
  }

  ghost predicate AtMost(cs: seq<Chunk>, mss: nat) {
    forall c <- cs :: |c.data| <= mss
  }

  /** A call fails exactly when the message does not fit in 127 fragments. */
  lemma CountLimit(len: nat, mss: nat)
    requires mss > 0
    ensures FragmentCount(len, mss) <= MAX_FRAGMENTS <==> len <= 127 * mss
    ensures len <= FragmentCount(len, mss) * mss
  {
    var n := FragmentCount(len, mss);
    if len > mss {
      hide FragmentCount, Quotient;
      CountBounds(len, mss);
      if n <= 127 {
        MulMono(n, 127, mss);
      } else {
        MulMono(128, n, mss);
      }
    }
  }

  lemma CountBounds(len: nat, mss: nat)
    requires 0 < mss < len
    ensures var m := FragmentCount(len, mss) * mss; m <= len + mss - 1 < m + mss
  {
    var n := Quotient(len + mss - 1, mss);
    hide Quotient;
    assert (n + 1) * mss == n * mss + mss;
  }

  lemma {:induction false} FragmentsAre(data: Bytes, mss: nat, count: nat, stream: bool)
    requires mss > 0 && count <= 256 && |data| <= count * mss
    ensures var cs := Fragments(data, mss, count, stream);
      && JoinChunks(cs) == data
      && AtMost(cs, mss)
      && (forall i | 0 <= i < count :: cs[i].frg == if stream then 0 else count - 1 - i)
    decreases count
  {
    if count == 0 {
      assert 0 * mss == 0;
    } else {
      var size := Min(|data|, mss);
      assert (count - 1) * mss == count * mss - mss;
      FragmentsAre(data[size..], mss, count - 1, stream);
      assert data[..size] + data[size..] == data;
    }
  }

  /** No fragment is longer than mss, and only the last one may be shorter. */
  ghost predicate Full(cs: seq<Chunk>, mss: nat) {
    AtMost(cs, mss) && forall i | 0 <= i < |cs| - 1 :: |cs[i].data| == mss
  }

  lemma CountLeast(len: nat, mss: nat)
    requires mss > 0
    ensures len > 0 ==> (FragmentCount(len, mss) - 1) * mss < len
    ensures len == 0 ==> FragmentCount(len, mss) == 1
  {
    var n := FragmentCount(len, mss);
    if len > mss {
      CountBounds(len, mss);
      hide FragmentCount;
      assert (n - 1) * mss == n * mss - mss;
    } else {
      assert (n - 1) * mss == 0;
    }
  }

  lemma Products(count: int, mss: nat)
    requires count >= 2
    ensures count * mss == (count - 1) * mss + mss && (count - 1) * mss == (count - 2) * mss + mss
    ensures (count - 2) * mss >= 0
  {
  }

  lemma {:induction false} FragmentsFill(data: Bytes, mss: nat, count: nat, stream: bool)
    requires mss > 0 && 0 < count <= 256 && |data| <= count * mss && (data != [] ==> (count - 1) * mss < |data|)
    requires data == [] ==> count == 1
    ensures var cs := Fragments(data, mss, count, stream);
      (forall i | 0 <= i < count - 1 :: |cs[i].data| == mss) && (data != [] ==> cs[count - 1].data != [])
    decreases count
  {
    if count > 1 {
      Products(count, mss);
      assert |data| > mss;
      FragmentsFill(data[mss..], mss, count - 1, stream);
      var rest := Fragments(data[mss..], mss, count - 1, stream);
      assert Fragments(data, mss, count, stream) == [Chunk(if stream then 0 else count - 1, data[..mss])] + rest;
    }
  }

  lemma {:induction false} FragmentsFull(data: Bytes, mss: nat, count: nat, stream: bool)
    requires mss > 0 && 0 < count <= 256 && |data| <= count * mss && (data != [] ==> (count - 1) * mss < |data|)
    requires data == [] ==> count == 1
    ensures var cs := Fragments(data, mss, count, stream);
      Full(cs, mss) && (data != [] ==> cs[count - 1].data != [])
  {
    FragmentsAre(data, mss, count, stream);
    FragmentsFill(data, mss, count, stream);
    hide Fragments, AtMost, JoinChunks;
  }

  /** An accepted message is queued as its fragments, as few as there can be, and a refused one leaves the queue alone. */
  lemma SendMessage(queue: seq<Chunk>, mss: nat, data: Bytes)
    requires mss > 0
    ensures var s := Send(queue, mss, false, data);
      && (s.code == 0 <==> |data| <= 127 * mss)
      && (s.code == 0 ==>
            && |queue| < |s.queue| && s.queue[..|queue|] == queue
            && IsMessage(s.queue[|queue|..], data) && Full(s.queue[|queue|..], mss)
            && (data != [] ==> s.queue[|s.queue| - 1].data != [])
            && (data == [] ==> |s.queue| == |queue| + 1))
      && (s.code != 0 ==> s == Sent(-2, queue))
  {
    CountLimit(|data|, mss);
    CountLeast(|data|, mss);
    var n := FragmentCount(|data|, mss);
    if n <= MAX_FRAGMENTS {
      FragmentsAre(data, mss, n, false);
      FragmentsFull(data, mss, n, false);
      var s := Send(queue, mss, false, data);
      assert s.queue[|queue|..] == Fragments(data, mss, n, false);
      assert s.queue[..|queue|] == queue;
    }
    hide FragmentCount, Full, IsMessage, Fragments;
  }

  // ---------- stream mode ----------

  lemma {:induction false} JoinAppend(a: seq<Chunk>, b: seq<Chunk>)
    ensures JoinChunks(a + b) == JoinChunks(a) + JoinChunks(b)
  {
    if a == [] {
      assert a + b == b;
    } else {
      JoinAppend(a[1..], b);
      assert (a + b)[1..] == a[1..] + b;
      Assoc(a[0].data, JoinChunks(a[1..]), JoinChunks(b));
    }
  }

  lemma Assoc(x: Bytes, y: Bytes, z: Bytes)
    ensures x + (y + z) == x + y + z
  {
  }

  lemma JoinLast(init: seq<Chunk>, c: Chunk)
    ensures JoinChunks(init + [c]) == JoinChunks(init) + c.data
  {
    JoinAppend(init, [c]);
    assert JoinChunks([c][1..]) == [];
    assert JoinChunks([c]) == c.data;
  }

  lemma TopUpKeeps(queue: seq<Chunk>, mss: nat, data: Bytes)
    ensures var (q, rest) := TopUp(queue, mss, data);
      JoinChunks(q) + rest == JoinChunks(queue) + data
  {
    hide JoinChunks;
    if queue != [] && |queue[|queue| - 1].data| < mss {
      var init, last := queue[..|queue| - 1], queue[|queue| - 1];
      var extend := Min(|data|, mss - |last.data|);
      assert queue == init + [last];
      JoinLast(init, last);
      JoinLast(init, Chunk(0, last.data + data[..extend]));
      assert data == data[..extend] + data[extend..];
      Regroup(JoinChunks(init), last.data, data[..extend], data[extend..]);
    }
  }

  lemma Regroup(a: Bytes, b: Bytes, c: Bytes, d: Bytes)
    ensures a + (b + c) + d == a + b + (c + d)
  {
  }

  lemma TopUpAtMost(queue: seq<Chunk>, mss: nat, data: Bytes, size: nat)
    requires AtMost(queue, size) && mss <= size
    ensures AtMost(TopUp(queue, mss, data).0, size)
  {
  }

  lemma AppendAtMost(queue: seq<Chunk>, mss: nat, stream: bool, data: Bytes, size: nat)
    requires AtMost(queue, size) && 0 < mss <= size
    ensures AtMost(Append(queue, mss, stream, data).queue, size)
  {
    CountLimit(|data|, mss);
    var n := FragmentCount(|data|, mss);
    if n <= MAX_FRAGMENTS {
      FragmentsAre(data, mss, n, stream);
    }
  }

  lemma SendLonger(queue: seq<Chunk>, mss: nat, stream: bool, data: Bytes)
    requires mss > 0
    ensures |queue| <= |Send(queue, mss, stream, data).queue|
  {
    hide TopUp;
  }

  /** In either mode no segment becomes longer than the larger of what was there and the segment size. */
  lemma SendAtMost(queue: seq<Chunk>, mss: nat, stream: bool, data: Bytes, size: nat)
    requires AtMost(queue, size) && 0 < mss <= size
    ensures AtMost(Send(queue, mss, stream, data).queue, size)
  {
    if stream {
      TopUpAtMost(queue, mss, data, size);
      AppendAtMost(TopUp(queue, mss, data).0, mss, true, TopUp(queue, mss, data).1, size);
    } else {
      AppendAtMost(queue, mss, false, data, size);
    }
    hide TopUp, AtMost;
  }

  /** A successful send in stream mode adds exactly the new bytes to the stream, in segments of at most mss, unless
      longer ones were queued before. */
  lemma SendStream(queue: seq<Chunk>, mss: nat, data: Bytes)
    requires mss > 0
    ensures var s := Send(queue, mss, true, data);
      && (AtMost(queue, mss) ==> AtMost(s.queue, mss))
      && (s.code == 0 ==> JoinChunks(s.queue) == JoinChunks(queue) + data)
      && (s.code != 0 ==> s.code == -2 && s.queue == TopUp(queue, mss, data).0)
      && (s.code != 0 <==> |TopUp(queue, mss, data).1| > 127 * mss)
  {
    TopUpKeeps(queue, mss, data);
    var (q, rest) := TopUp(queue, mss, data);
    if AtMost(queue, mss) {
      TopUpAtMost(queue, mss, data, mss);
    }
    if rest != [] {
      CountLimit(|rest|, mss);
      var n := FragmentCount(|rest|, mss);
      if n <= MAX_FRAGMENTS {
        FragmentsAre(rest, mss, n, true);
        JoinAppend(q, Fragments(rest, mss, n, true));
        assert JoinChunks(queue) + data == JoinChunks(q) + rest;
      }
    } else {
      assert JoinChunks(q) + rest == JoinChunks(q);
    }
  }

  /** In stream mode segments are filled up: if only the last one in the queue is not full, this is so after every call. */
  lemma StreamFills(queue: seq<Chunk>, mss: nat, data: Bytes)
    requires mss > 0 && Full(queue, mss)
    ensures Full(Send(queue, mss, true, data).queue, mss)
  {
    var (q, rest) := TopUp(queue, mss, data);
    TopUpFills(queue, mss, data);
    CountLimit(|rest|, mss);
    CountLeast(|rest|, mss);
    var n := FragmentCount(|rest|, mss);
    if rest != [] && n <= MAX_FRAGMENTS {
      FragmentsFull(rest, mss, n, true);
      hide FragmentCount, TopUp;
      FullAppend(q, Fragments(rest, mss, n, true), mss);
    }
  }

  lemma TopUpFills(queue: seq<Chunk>, mss: nat, data: Bytes)
    requires mss > 0 && Full(queue, mss)
    ensures var (q, rest) := TopUp(queue, mss, data);
      Full(q, mss) && (rest != [] ==> forall c <- q :: |c.data| == mss)
  {
    var (q, rest) := TopUp(queue, mss, data);
    assert forall i | 0 <= i < |q| - 1 :: q[i] == queue[i];
    if q != [] {
      assert queue[|queue| - 1] in queue;
    }
  }

  lemma FullAppend(a: seq<Chunk>, b: seq<Chunk>, mss: nat)
    requires (forall c <- a :: |c.data| == mss) && Full(b, mss)
    ensures Full(a + b, mss)
  {
  }

  /** A refused send in stream mode has still put bytes on the stream exactly when the last queued segment
      had room left. */
  lemma RefusedStreamSend(queue: seq<Chunk>, mss: nat, data: Bytes)
    requires mss > 0 && Send(queue, mss, true, data).code != 0
    ensures JoinChunks(Send(queue, mss, true, data).queue) == JoinChunks(queue)
            <==> queue == [] || |queue[|queue| - 1].data| >= mss
  {
    hide JoinChunks, AtMost;
    SendStream(queue, mss, data);
    TopUpKeeps(queue, mss, data);
    TopUpMoves(queue, mss, data);
    hide Send, TopUp;
    var (q, rest) := TopUp(queue, mss, data);
    assert |JoinChunks(q) + rest| == |JoinChunks(q)| + |rest|;
    assert |JoinChunks(queue) + data| == |JoinChunks(queue)| + |data|;
  }

  /** Topping up uses bytes exactly when there are bytes and the last segment has room. */
  lemma TopUpMoves(queue: seq<Chunk>, mss: nat, data: Bytes)
    ensures var (q, rest) := TopUp(queue, mss, data);
      if data != [] && queue != [] && |queue[|queue| - 1].data| < mss then |rest| < |data| else q == queue || data == []
    ensures |TopUp(queue, mss, data).1| <= |data|
  {
  }

  // ---------- the receiver's side ----------

  function ChunkOfWire(w: Wire): Chunk {
    Chunk(w.frg, w.data)
  }

  function Carried(ws: seq<Wire>): (cs: seq<Chunk>)
    ensures |cs| == |ws|
  {
    seq(|ws|, i requires 0 <= i < |ws| => ChunkOfWire(ws[i]))
  }

  lemma {:induction false} JoinCarried(ws: seq<Wire>)
    ensures Join(ws) == JoinChunks(Carried(ws))
  {
    if ws != [] {
      JoinCarried(ws[1..]);
      assert Carried(ws)[1..] == Carried(ws[1..]);
    }
  }

  lemma {:induction false} HeadCountIs(q: seq<Wire>, n: nat)
    requires 0 < n <= |q| && q[n - 1].frg == 0
    requires forall i | 0 <= i < n - 1 :: q[i].frg != 0
    ensures HeadCount(q) == n
  {
    if n > 1 {
      HeadCountIs(q[1..], n - 1);
    }
  }

  /** A queue that starts with a whole message hands out that message and its length, boundary for boundary. */
  lemma WholeMessage(q: seq<Wire>, cs: seq<Chunk>, data: Bytes)
    requires IsMessage(cs, data) && |cs| <= |q| && Carried(q)[..|cs|] == cs
    ensures HeadCount(q) == |cs|
    ensures Join(q[..|cs|]) == data
    ensures PeekSize(q) == |data|
  {
    var n := |cs|;
    forall i | 0 <= i < n
      ensures q[i].frg as int == n - 1 - i
    {
      assert Carried(q)[..n][i] == cs[i];
    }
    HeadCountIs(q, n);
    JoinCarried(q[..n]);
    assert Carried(q[..n]) == Carried(q)[..n];
    if n == 1 {
      assert q[..1][1..] == [];
      assert Join(q[..1]) == q[..1][0].data + Join([]);
    }
  }

  /** A queue that ends inside its first message hands out nothing. */
  lemma PartMessage(q: seq<Wire>, cs: seq<Chunk>, data: Bytes)
    requires IsMessage(cs, data) && 0 < |q| < |cs| && Carried(q) == cs[..|q|]
    ensures PeekSize(q) == -1
  {
    assert Carried(q)[0] == cs[0];
  }

  // ---------- round trip over a whole series of messages ----------

  /** The fragments of a series of messages, each cut with the mss in force when it was sent. */
  datatype Post = Post(data: Bytes, mss: nat)

  predicate Acceptable(p: Post) {
    0 < p.mss < 0x8000_0000 && |p.data| <= 127 * p.mss
  }

  function Cut(p: Post): (cs: seq<Chunk>)
    requires Acceptable(p)
  {
    CountLimit(|p.data|, p.mss);
    Fragments(p.data, p.mss, FragmentCount(|p.data|, p.mss), false)
  }

  function Log(posts: seq<Post>): seq<Chunk>
    requires forall p <- posts :: Acceptable(p)
  {
    if posts == [] then [] else Cut(posts[0]) + Log(posts[1..])
  }

  lemma CutIsMessage(p: Post)
    requires Acceptable(p)
    ensures IsMessage(Cut(p), p.data)
  {
    CountLimit(|p.data|, p.mss);
    FragmentsAre(p.data, p.mss, FragmentCount(|p.data|, p.mss), false);
  }

  lemma {:induction false} LogAppend(a: seq<Post>, b: seq<Post>)
    requires forall p <- a + b :: Acceptable(p)
    ensures (forall p <- a :: Acceptable(p)) && (forall p <- b :: Acceptable(p))
    ensures Log(a + b) == Log(a) + Log(b)
  {
    assert forall p <- a :: p in a + b;
    assert forall p <- b :: p in a + b;
    if a == [] {
      assert a + b == b;
    } else {
      assert (a + b)[1..] == a[1..] + b;
      LogAppend(a[1..], b);
    }
  }

  /** Calling ikcp_recv with room for `room` bytes until it fails. */
  function TakeAll(r: Receiver, room: nat): seq<Bytes>
    decreases |r.queue| + |r.buf|
  {
    var v := Recv(r, room);
    if v.code < 0 then []
    else
      RecvConserves(r, room);
      assert |r.queue[..HeadCount(r.queue)]| > 0;
      assert |v.rcv.queue + v.rcv.buf| < |r.queue + r.buf|;
      [v.data] + TakeAll(v.rcv, room)
  }

  /** Everything has arrived: the buffer continues the queue without a gap, and is used only while the queue is full. */
  ghost predicate Complete(r: Receiver) {
    && r.wnd >= 128
    && (forall i | 0 <= i < |r.buf| :: r.buf[i].sn == Wrap(r.nxt + i))
    && (r.buf != [] ==> |r.queue| >= r.wnd)
  }

  lemma {:induction false} PullComplete(r: Receiver)
    requires r.wnd >= 128 && forall i | 0 <= i < |r.buf| :: r.buf[i].sn == Wrap(r.nxt + i)
    ensures Complete(Pull(r))
    decreases |r.buf|
  {
    if r.buf != [] {
      assert r.buf[0].sn == Wrap(r.nxt + 0);
      WrapSmall(r.nxt);
      if |r.queue| < r.wnd {
        var p := Receiver(Wrap(r.nxt + 1), r.wnd, r.buf[1..], r.queue + [r.buf[0]]);
        forall i | 0 <= i < |p.buf| ensures p.buf[i].sn == Wrap(p.nxt + i) {
          WrapAdd(r.nxt + 1, i);
          assert p.buf[i] == r.buf[i + 1];
        }
        hide Wrap;
        PullComplete(p);
      }
    }
  }

  /** Sending a series of messages and, once all fragments have arrived, calling ikcp_recv until it fails gives the
      same messages, empty ones included, however many more there are than the queue holds. */
  lemma {:induction false} RoundTrip(posts: seq<Post>, r: Receiver, room: nat)
    requires forall p <- posts :: Acceptable(p) && |p.data| <= room
    requires Complete(r) && Carried(r.queue + r.buf) == Log(posts)
    ensures TakeAll(r, room) == seq(|posts|, i requires 0 <= i < |posts| => posts[i].data)
    decreases |posts|
  {
    if posts == [] {
      assert |r.queue + r.buf| == 0;
    } else {
      var v := Recv(r, room);
      FirstComes(posts, r, room);
      RoundTrip(posts[1..], v.rcv, room);
      hide Recv;
      assert TakeAll(r, room) == [posts[0].data] + TakeAll(v.rcv, room);
    }
  }

  /** The first message of a complete receiver lies in the queue with all its fragments. */
  lemma {:induction false} FirstIsQueued(r: Receiver, cs: seq<Chunk>, data: Bytes)
    requires Complete(r) && IsMessage(cs, data) && cs <= Carried(r.queue + r.buf)
    ensures |cs| <= |r.queue| && Carried(r.queue)[..|cs|] == cs
    ensures HeadCount(r.queue) == |cs| && PeekSize(r.queue) == |data| && Join(r.queue[..|cs|]) == data
  {
    assert |cs| <= 127;
    hide IsMessage, HeadCount, PeekSize, Join;
    assert Carried(r.queue) == Carried(r.queue + r.buf)[..|r.queue|];
    WholeMessage(r.queue, cs, data);
  }

  lemma {:induction false} FirstComes(posts: seq<Post>, r: Receiver, room: nat)
    requires posts != [] && forall p <- posts :: Acceptable(p) && |p.data| <= room
    requires Complete(r) && Carried(r.queue + r.buf) == Log(posts)
    ensures var v := Recv(r, room);
      && v.code >= 0 && v.data == posts[0].data
      && Complete(v.rcv) && Carried(v.rcv.queue + v.rcv.buf) == Log(posts[1..])
  {
    var cs, data := Cut(posts[0]), posts[0].data;
    CutIsMessage(posts[0]);
    assert Carried(r.queue + r.buf) == cs + Log(posts[1..]);
    hide Log, Cut, IsMessage;
    FirstIsQueued(r, cs, data);
    RecvTakes(r, room, cs, data, Log(posts[1..]));
  }

  lemma {:induction false} RecvTakes(r: Receiver, room: nat, cs: seq<Chunk>, data: Bytes, rest: seq<Chunk>)
    requires Complete(r) && |data| <= room && |cs| <= |r.queue| && Carried(r.queue + r.buf) == cs + rest
    requires 0 < |cs| == HeadCount(r.queue) && PeekSize(r.queue) == |data| && Join(r.queue[..|cs|]) == data
    ensures var v := Recv(r, room);
      v.code >= 0 && v.data == data && Complete(v.rcv) && Carried(v.rcv.queue + v.rcv.buf) == rest
  {
    RecvConserves(r, room);
    var q := r.(queue := r.queue[|cs|..]);
    assert Complete(Pull(q)) by { PullComplete(q); }
    var v := Recv(r, room);
    hide Pull, PeekSize, HeadCount, Join, Complete;
    var all, left := r.queue + r.buf, v.rcv.queue + v.rcv.buf;
    assert all == r.queue[..|cs|] + left;
    assert left == all[|cs|..];
    CarriedFrom(all, |cs|);
  }

  lemma CarriedFrom(ws: seq<Wire>, n: nat)
    requires n <= |ws|
    ensures Carried(ws[n..]) == Carried(ws)[n..]
  {
  }
}
