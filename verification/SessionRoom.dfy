/** What a session takes out of its control block. Each datagram is passed to ikcp_input, and then ikcp_recv is called
    once, with room for 4096 bytes; an update calls it with the active size of a buffer that is empty at that time. */
module SessionRoom {
  import opened Numbers
  import opened LittleEndian
  import opened KcpWire
  import opened KcpSender
  import opened KcpReceiver
  import opened KcpControl
  import opened KcpFragments
  import opened KcpEngine
  import opened KcpRuns
  import KcpFailures

  const ROOM: nat := 4096

  /** A control block and the messages passed on to the read handler. */
  datatype Session = Session(k: State, given: seq<Bytes>)

  /** A datagram of the session's own conversation, a send, which may update at once, and an update, which may not yet
      be due. */
  datatype Event = Datagram(d: Bytes) | Sends(data: Bytes, now: bool) | Ticks(current: u32, due: bool)

  /** ikcp_recv, and passing on what it copied. */
  function Take(s: Session, room: nat): Session {
    var v := Recv(s.k.rcv, room);
    Session(RecvFrom(s.k, room), if v.code > 0 then s.given + [v.data] else s.given)
  }

  /** KcpSession::OnReceive */
  function OnReceive(s: Session, d: Bytes): Session
    requires s.k.cfg.mss > 0
  {
    Take(s.(k := Input(s.k, d).state), ROOM)
  }

  /** KcpSession::Send */
  function SendNow(k: State, data: Bytes, now: bool): State
    requires k.cfg.mss > 0
  {
    var k1 := SendTo(k, data).state;
    if now then Update(k1, Wrap(k1.current + k1.cfg.interval)).state else k1
  }

  /** KcpSession::Update; the read buffer is empty then, and its active size is the room given to ikcp_recv. */
  function Tick(s: Session, current: u32, due: bool): Session {
    var s1 := if due then s.(k := Update(s.k, current).state) else s;
    if PeekSize(s1.k.rcv.queue) > 0 then Take(s1, 0) else s1
  }

  function Handle(s: Session, e: Event): (s': Session)
    requires s.k.cfg.mss > 0
    ensures s'.k.cfg == s.k.cfg
  {
    match e
    case Datagram(d) => InputConfig(s.k, d); OnReceive(s, d)
    case Sends(data, now) => SendFrame(s.k, data, now); s.(k := SendNow(s.k, data, now))
    case Ticks(current, due) => TickFrame(s, current, due); Tick(s, current, due)
  }

  lemma UpdateFrame(k: State, current: u32)
    ensures Update(k, current).state.cfg == k.cfg && Update(k, current).state.rcv == k.rcv
  {
    hide NextFlush, AdmitAll, SweepAll, AfterFlush, ProbeTick, TickOf, Pack, FlushWires;
  }

  lemma SendFrame(k: State, data: Bytes, now: bool)
    requires k.cfg.mss > 0
    ensures SendNow(k, data, now).cfg == k.cfg && SendNow(k, data, now).rcv == k.rcv
  {
    var k1 := SendTo(k, data).state;
    UpdateFrame(k1, Wrap(k1.current + k1.cfg.interval));
    hide Update, Send;
  }

  /** An update never takes a message out of the queue. */
  lemma TickFrame(s: Session, current: u32, due: bool)
    ensures var s' := Tick(s, current, due);
      s'.k.cfg == s.k.cfg && s'.k.rcv == s.k.rcv && s'.given == s.given
  {
    UpdateFrame(s.k, current);
    hide Update, PeekSize, Pull;
  }

  function Serve(s: Session, es: seq<Event>): (s': Session)
    requires s.k.cfg.mss > 0
    ensures s'.k.cfg == s.k.cfg
    decreases |es|
  {
    if es == [] then s else Serve(Handle(s, es[0]), es[1..])
  }

  lemma {:induction false} ServeAppend(s: Session, a: seq<Event>, b: seq<Event>)
    requires s.k.cfg.mss > 0
    ensures Serve(s, a + b) == Serve(Serve(s, a), b)
    decreases |a|
  {
    hide Handle;
    if a == [] {
      assert a + b == b;
    } else {
      ServeAppend(Handle(s, a[0]), a[1..], b);
      assert (a + b)[1..] == a[1..] + b;
    }
  }

  // ---------- the message at the head of the queue ----------

  /** The queue starts with all fragments of the message. */
  ghost predicate Heads(r: Receiver, cs: seq<Chunk>, data: Bytes) {
    IsMessage(cs, data) && cs <= Carried(r.queue)
  }

  lemma {:induction false} HeadStays(r: Receiver, r': Receiver, cs: seq<Chunk>, data: Bytes)
    requires Heads(r, cs, data) && r.queue <= r'.queue
    ensures Heads(r', cs, data)
  {
    hide IsMessage;
    assert Carried(r.queue) == Carried(r'.queue)[..|r.queue|];
  }

  lemma ReceiverOnGrows(r: Receiver, w: Wire)
    ensures r.queue <= ReceiverOn(r, w).queue
  {
    PullConserves(Insert(r, w));
    hide Pull, ScanBack, Diff, BeyondWindow;
  }

  lemma {:induction false} OnWiresGrows(k: State, ws: seq<Wire>)
    ensures k.rcv.queue <= OnWires(k, ws).rcv.queue
    decreases |ws|
  {
    if ws != [] {
      ReceiverOnGrows(k.rcv, ws[0]);
      hide ReceiverOn, SenderOn, AcksOn, RttOn;
      OnWiresGrows(OnWire(k, ws[0]), ws[1..]);
    }
  }

  /** No datagram takes anything out of the queue. */
  lemma InputGrows(k: State, d: Bytes)
    requires k.cfg.mss > 0
    ensures k.rcv.queue <= Input(k, d).state.rcv.queue
  {
    KcpFailures.InputRcvIs(k, d);
    OnWiresGrows(k, Parse(k.cfg.conv, d).ws);
    hide Input, OnWires, Parse;
  }

  /** A whole message at the head of the queue is handed out exactly when it fits; if not, nothing changes. */
  lemma {:induction false} RoomDecides(r: Receiver, cs: seq<Chunk>, data: Bytes, room: nat)
    requires Heads(r, cs, data)
    ensures var v := Recv(r, room);
      if |data| <= room then v.code == |data| && v.data == data else v.code == -3 && v.data == [] && v.rcv == r
  {
    WholeMessage(r.queue, cs, data);
    hide IsMessage, PeekSize, HeadCount, Join, Pull, Carried;
  }

  ghost predicate NoDatagram(es: seq<Event>) {
    forall e <- es :: !e.Datagram?
  }

  lemma {:induction false} HandleWaits(s: Session, e: Event, cs: seq<Chunk>, data: Bytes)
    requires s.k.cfg.mss > 0 && Heads(s.k.rcv, cs, data) && (|data| > ROOM || !e.Datagram?)
    ensures Heads(Handle(s, e).k.rcv, cs, data) && Handle(s, e).given == s.given
  {
    hide Heads, Recv, Input, SendNow, Tick;
    match e
    case Datagram(d) =>
      var k := Input(s.k, d).state;
      InputGrows(s.k, d);
      HeadStays(s.k.rcv, k.rcv, cs, data);
      RoomDecides(k.rcv, cs, data, ROOM);
    case Sends(m, now) =>
      SendFrame(s.k, m, now);
    case Ticks(current, due) =>
      TickFrame(s, current, due);
  }

  lemma {:induction false} Waits(s: Session, es: seq<Event>, cs: seq<Chunk>, data: Bytes)
    requires s.k.cfg.mss > 0 && Heads(s.k.rcv, cs, data) && (|data| > ROOM || NoDatagram(es))
    ensures Heads(Serve(s, es).k.rcv, cs, data) && Serve(s, es).given == s.given
    decreases |es|
  {
    hide Heads, Handle;
    if es != [] {
      assert es[0] in es;
      HandleWaits(s, es[0], cs, data);
      Waits(Handle(s, es[0]), es[1..], cs, data);
    }
  }

  lemma {:induction false} NextBrings(s: Session, d: Bytes, cs: seq<Chunk>, data: Bytes)
    requires s.k.cfg.mss > 0 && Heads(s.k.rcv, cs, data) && 0 < |data| <= ROOM
    ensures OnReceive(s, d).given == s.given + [data]
  {
    hide Heads, Recv, Input;
    var k := Input(s.k, d).state;
    InputGrows(s.k, d);
    HeadStays(s.k.rcv, k.rcv, cs, data);
    RoomDecides(k.rcv, cs, data, ROOM);
  }

  /** A message waits complete at the head of the queue. No update and no send brings it out. The next datagram does,
      whatever it holds, if the message fits; if not, no series of events ever brings anything out again. */
  lemma {:induction false} HeadDecides(s: Session, cs: seq<Chunk>, data: Bytes, es: seq<Event>, d: Bytes)
    requires s.k.cfg.mss > 0 && Heads(s.k.rcv, cs, data) && data != []
    ensures NoDatagram(es) || |data| > ROOM ==> Serve(s, es).given == s.given
    ensures NoDatagram(es) && |data| <= ROOM ==> Serve(s, es + [Datagram(d)]).given == s.given + [data]
  {
    hide Heads, OnReceive, Serve;
    if |data| > ROOM || NoDatagram(es) {
      Waits(s, es, cs, data);
      if |data| <= ROOM {
        NextBrings(Serve(s, es), d, cs, data);
        ServeAppend(s, es, [Datagram(d)]);
        ServeOne(Serve(s, es), Datagram(d));
      }
    }
  }

  lemma ServeOne(s: Session, e: Event)
    requires s.k.cfg.mss > 0
    ensures Serve(s, [e]) == Handle(s, e)
  {
    assert [e][1..] == [];
    hide Handle;
    assert Serve(Handle(s, e), []) == Handle(s, e);
  }

  // ---------- a run in which it happens ----------

  /** The fragments from number i on, one datagram each. */
  function Arrivals(conv: u32, cs: seq<Chunk>, i: nat): (es: seq<Event>)
    requires i <= |cs| <= 0xFFFF
    ensures |es| == |cs| - i
    decreases |cs| - i
  {
    if i == |cs| then [] else [Datagram(EncodeAll(conv, [FragmentWire(cs, i)]))] + Arrivals(conv, cs, i + 1)
  }

  function FragmentWire(cs: seq<Chunk>, i: nat): Wire
    requires i < |cs| <= 0xFFFF
  {
    Wire(CMD_PUSH, cs[i].frg, 128, 0, i, 0, cs[i].data)
  }

  /** The first i fragments have arrived. */
  ghost predicate Arrived(s: Session, cs: seq<Chunk>, i: nat) {
    && s.k.cfg.mss > 0 && s.given == [] && i <= |cs|
    && s.k.rcv.wnd == 128 && s.k.rcv.buf == [] && s.k.rcv.nxt as int == i == |s.k.rcv.queue|
    && Carried(s.k.rcv.queue) == cs[..i]
  }

  lemma InputOne(k: State, w: Wire)
    requires k.cfg.mss > 0 && Sendable(w)
    ensures Input(k, EncodeAll(k.cfg.conv, [w])).state.rcv == ReceiverOn(k.rcv, w)
  {
    hide Input, EncodeAll, Parse, ReceiverOn, SenderOn, AcksOn, RttOn;
    ParseEncodeAll(k.cfg.conv, [w]);
    KcpFailures.InputRcvIs(k, EncodeAll(k.cfg.conv, [w]));
    assert [w][1..] == [] && OnWires(k, [w]) == OnWire(k, w);
  }

  lemma {:induction false} OneMore(s: Session, cs: seq<Chunk>, data: Bytes, i: nat)
    requires IsMessage(cs, data) && AtMost(cs, 0x7FFF_FFFF) && Arrived(s, cs, i) && i < |cs|
    ensures var k := Input(s.k, EncodeAll(s.k.cfg.conv, [FragmentWire(cs, i)])).state;
      Arrived(s.(k := k), cs, i + 1)
  {
    hide Input, EncodeAll, ReceiverOn;
    var w, b := FragmentWire(cs, i), EncodeAll(s.k.cfg.conv, [FragmentWire(cs, i)]);
    assert cs[i] in cs && Sendable(w);
    InputOne(s.k, w);
    InputConfig(s.k, b);
    assert i < 127 by { assert |cs| <= 127; }
    hide IsMessage, AtMost;
    KcpFailures.OneArrives(s.k.rcv, w);
    WrapSmall(i + 1);
    assert ChunkOfWire(w) == cs[i];
  }

  lemma {:induction false} NotYet(s: Session, cs: seq<Chunk>, data: Bytes, i: nat)
    requires IsMessage(cs, data) && Arrived(s, cs, i) && 0 < i < |cs|
    ensures Recv(s.k.rcv, ROOM).code < 0 && Recv(s.k.rcv, ROOM).rcv == s.k.rcv
  {
    PartMessage(s.k.rcv.queue, cs, data);
    hide IsMessage, PeekSize;
  }

  lemma {:induction false} AllArrived(s: Session, cs: seq<Chunk>, data: Bytes)
    requires IsMessage(cs, data) && Arrived(s, cs, |cs|)
    ensures Heads(s.k.rcv, cs, data)
  {
    hide IsMessage;
    assert cs[..|cs|] == cs;
  }

  /** One fragment arrives: before the last nothing comes out, and with the last the message, if it fits. */
  lemma {:induction false} OneServed(s: Session, cs: seq<Chunk>, data: Bytes, i: nat)
    requires IsMessage(cs, data) && AtMost(cs, 0x7FFF_FFFF) && Arrived(s, cs, i) && i < |cs|
    ensures var s' := Handle(s, Datagram(EncodeAll(s.k.cfg.conv, [FragmentWire(cs, i)])));
      && (i + 1 < |cs| ==> Arrived(s', cs, i + 1))
      && (i + 1 == |cs| && 0 < |data| <= ROOM ==> s'.given == [data])
      && (i + 1 == |cs| && |data| > ROOM ==> s'.given == [] && Heads(s'.k.rcv, cs, data))
  {
    var d := EncodeAll(s.k.cfg.conv, [FragmentWire(cs, i)]);
    OneMore(s, cs, data, i);
    hide Input, Recv, EncodeAll, IsMessage, FragmentWire, Heads;
    var s1 := s.(k := Input(s.k, d).state);
    InputConfig(s.k, d);
    if i + 1 < |cs| {
      NotYet(s1, cs, data, i + 1);
    } else {
      AllArrived(s1, cs, data);
      RoomDecides(s1.k.rcv, cs, data, ROOM);
    }
  }

  /** The message comes out with its last fragment, if it fits. */
  lemma {:induction false} ArrivalsServe(s: Session, cs: seq<Chunk>, data: Bytes, i: nat)
    requires IsMessage(cs, data) && AtMost(cs, 0x7FFF_FFFF) && Arrived(s, cs, i) && i < |cs|
    ensures var s' := Serve(s, Arrivals(s.k.cfg.conv, cs, i));
      && (0 < |data| <= ROOM ==> s'.given == [data])
      && (|data| > ROOM ==> s'.given == [] && Heads(s'.k.rcv, cs, data))
    decreases |cs| - i
  {
    var es := Arrivals(s.k.cfg.conv, cs, i);
    OneServed(s, cs, data, i);
    hide Handle, EncodeAll, IsMessage, FragmentWire, Heads;
    assert es[1..] == Arrivals(s.k.cfg.conv, cs, i + 1);
    if i + 1 < |cs| {
      ArrivalsServe(Handle(s, es[0]), cs, data, i + 1);
    } else {
      hide Arrived;
      assert es[1..] == [] && Serve(s, es) == Handle(s, es[0]);
    }
  }

  /** A sender accepts a message of up to 127 segments. A fresh session that gets its fragments in order, one datagram
      each, hands it out if it has at most 4096 bytes; otherwise it hands out nothing, whatever happens afterwards. */
  lemma {:induction false} LongMessageBlocks(conv: u32, mss: nat, data: Bytes, es: seq<Event>)
    requires 0 < mss < 0x8000_0000 && 0 < |data| <= 127 * mss
    ensures Send([], mss, false, data).code == 0
    ensures var cs, s := Send([], mss, false, data).queue, Session(Create(conv), []);
      && |cs| <= 127
      && (if |data| <= ROOM then Serve(s, Arrivals(conv, cs, 0)).given == [data]
          else Serve(s, Arrivals(conv, cs, 0) + es).given == [])
  {
    SendMessage([], mss, data);
    hide Send;
    var cs, s := Send([], mss, false, data).queue, Session(Create(conv), []);
    assert cs[0..] == cs;
    assert IsMessage(cs, data) && |cs| <= 127;
    hide IsMessage, Serve;
    assert AtMost(cs, 0x7FFF_FFFF);
    assert Arrived(s, cs, 0);
    ArrivalsServe(s, cs, data, 0);
    ServeAppend(s, Arrivals(conv, cs, 0), es);
    hide Arrivals;
    if |data| > ROOM {
      Waits(Serve(s, Arrivals(conv, cs, 0)), es, cs, data);
    }
  }

  // ---------- two messages in one datagram ----------

  function Single(i: u32, data: Bytes): Wire {
    Wire(CMD_PUSH, 0, 128, 0, i, 0, data)
  }

  lemma InputTwo(k: State, w: Wire, v: Wire)
    requires k.cfg.mss > 0 && Sendable(w) && Sendable(v)
    ensures Input(k, EncodeAll(k.cfg.conv, [w, v])).state.rcv == ReceiverOn(ReceiverOn(k.rcv, w), v)
  {
    hide Input, EncodeAll, Parse, ReceiverOn, SenderOn, AcksOn, RttOn;
    ParseEncodeAll(k.cfg.conv, [w, v]);
    KcpFailures.InputRcvIs(k, EncodeAll(k.cfg.conv, [w, v]));
    assert [w, v][1..] == [v] && [v][1..] == [];
    assert OnWires(OnWire(k, w), [v]) == OnWire(OnWire(k, w), v);
  }

  lemma TwoArrive(k: State, a: Bytes, b: Bytes)
    requires k.cfg.mss > 0 && k.rcv == Receiver(0, 128, [], []) && |a| < 0x8000_0000 && |b| < 0x8000_0000
    ensures Input(k, EncodeAll(k.cfg.conv, [Single(0, a), Single(1, b)])).state.rcv
            == Receiver(2, 128, [], [Single(0, a), Single(1, b)])
  {
    var w, v := Single(0, a), Single(1, b);
    hide Input, EncodeAll, ReceiverOn, Wrap;
    InputTwo(k, w, v);
    WrapSmall(1);
    WrapSmall(2);
    KcpFailures.OneArrives(k.rcv, w);
    assert [] + [w] == [w] && [w] + [v] == [w, v];
    KcpFailures.OneArrives(Receiver(1, 128, [], [w]), v);
  }

  lemma TakesFirst(r: Receiver, a: Bytes, v: Wire)
    requires r.wnd == 128 && r.buf == [] && |r.queue| == 2 && r.queue[0].frg == 0 && r.queue[0].data == a && r.queue[1] == v
    requires 0 < |a| <= ROOM
    ensures Recv(r, ROOM).code == |a| && Recv(r, ROOM).data == a && Recv(r, ROOM).rcv.queue == [v]
  {
    var q := r.queue[..1];
    assert Join(q) == q[0].data + Join(q[1..]) && q[1..] == [];
    assert r.queue[1..] == [v];
  }

  lemma {:induction false} SingleHeads(r: Receiver, v: Wire)
    requires r.queue == [v] && v.frg == 0
    ensures Heads(r, [Chunk(0, v.data)], v.data)
  {
    var cs := [Chunk(0, v.data)];
    assert cs[1..] == [];
    assert JoinChunks(cs) == v.data + JoinChunks([]);
    assert Carried(r.queue) == cs;
  }

  /** Two whole messages arrive in one datagram: the session hands out the first. The second waits through any sends and
      updates, and comes with the next datagram, whatever that holds, if it fits. */
  lemma {:induction false} SecondWaits(conv: u32, a: Bytes, b: Bytes, es: seq<Event>, d: Bytes)
    requires 0 < |a| <= ROOM && 0 < |b| <= ROOM && NoDatagram(es)
    ensures var s := OnReceive(Session(Create(conv), []), EncodeAll(conv, [Single(0, a), Single(1, b)]));
      && s.k.cfg.mss > 0
      && Serve(s, es).given == [a]
      && Serve(s, es + [Datagram(d)]).given == [a, b]
  {
    var s0, first := Session(Create(conv), []), EncodeAll(conv, [Single(0, a), Single(1, b)]);
    TwoArrive(s0.k, a, b);
    InputConfig(s0.k, first);
    var k := Input(s0.k, first).state;
    assert k.cfg.mss > 0;
    hide Input, EncodeAll, Recv, Create, Serve, NoDatagram, Heads;
    TakesFirst(k.rcv, a, Single(1, b));
    var s := OnReceive(s0, first);
    SingleHeads(s.k.rcv, Single(1, b));
    HeadDecides(s, [Chunk(0, b)], b, es, d);
  }
}
