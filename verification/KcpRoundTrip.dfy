/** One round trip without losses: a flush on one side, its datagrams read on the other, a flush there, and its datagrams
    read on the first. It does what the protocol is for: what was sent has arrived, and the sender knows. */
module KcpRoundTrip {
  import opened Numbers
  import opened LittleEndian
  import opened KcpWire
  import opened KcpSender
  import opened KcpReceiver
  import opened KcpControl
  import opened KcpEngine
  import R = KcpRuns
  import opened KcpDatagrams
  import opened KcpFlow
  import opened KcpNetwork
  import opened KcpAcks
  import opened KcpStream
  import KcpTimers
  import KcpFailures

  /** A side reads datagrams one after the other. */
  function InputAll(k: State, ds: seq<Bytes>): (k': State)
    requires k.cfg.mss > 0
    ensures k'.cfg == k.cfg
    decreases |ds|
  {
    if ds == [] then k
    else
      R.InputConfig(k, ds[0]);
      InputAll(Input(k, ds[0]).state, ds[1..])
  }

  function RcvOn(r: Receiver, ws: seq<Wire>): Receiver
    decreases |ws|
  {
    if ws == [] then r else RcvOn(ReceiverOn(r, ws[0]), ws[1..])
  }

  // ---------- the receiving side ----------

  lemma {:induction false} OnWiresRcv(k: State, ws: seq<Wire>)
    ensures OnWires(k, ws).rcv == RcvOn(k.rcv, ws)
    decreases |ws|
  {
    hide ReceiverOn, SenderOn, AcksOn, RttOn;
    if ws != [] {
      OnWiresRcv(OnWire(k, ws[0]), ws[1..]);
    }
  }

  lemma {:induction false} OwedAppend(r: Receiver, a: seq<Wire>, b: seq<Wire>)
    ensures RcvOn(r, a + b) == RcvOn(RcvOn(r, a), b)
    ensures Owed(r, a + b) == Owed(r, a) + Owed(RcvOn(r, a), b)
    decreases |a|
  {
    hide ReceiverOn, OwedFor;
    if a == [] {
      assert a + b == b;
    } else {
      OwedAppend(ReceiverOn(r, a[0]), a[1..], b);
      assert (a + b)[1..] == a[1..] + b;
      Regroup(OwedFor(r, a[0]), Owed(ReceiverOn(r, a[0]), a[1..]), Owed(RcvOn(r, a), b));
    }
  }

  /** Reading datagrams one by one does to the receiver, and owes the peer, what the segments in them do in turn. */
  lemma {:induction false} InputAllReads(k: State, ds: seq<Bytes>)
    requires k.cfg.mss > 0
    ensures var ws := ParseAll(k.cfg.conv, ds);
      InputAll(k, ds).rcv == RcvOn(k.rcv, ws) && InputAll(k, ds).acks == k.acks + Owed(k.rcv, ws)
    decreases |ds|
  {
    hide Input, Parse, ReceiverOn, OwedFor;
    if ds == [] {
      assert k.acks + [] == k.acks;
    } else {
      var k1 := Input(k, ds[0]).state;
      var ws := Parse(k.cfg.conv, ds[0]).ws;
      var rest := ParseAll(k.cfg.conv, ds[1..]);
      R.InputConfig(k, ds[0]);
      KcpFailures.InputRcvIs(k, ds[0]);
      OnWiresRcv(k, ws);
      InputOwes(k, ds[0]);
      InputAllReads(k1, ds[1..]);
      OwedAppend(k.rcv, ws, rest);
      Regroup(k.acks, Owed(k.rcv, ws), Owed(k1.rcv, rest));
    }
  }

  /** A truthful data segment inside the window is owed an acknowledgement, wherever it stands among others. */
  lemma {:induction false} TruthIsOwed(log: seq<Chunk>, r: Receiver, top: int, ws: seq<Wire>, w: Wire)
    requires RcvFlow(log, r, top) && (forall v <- ws :: DataTrue(log, top, v))
    requires w in ws && w.cmd == CMD_PUSH && w.sn < r.nxt + r.wnd
    ensures Ack(w.sn, w.ts) in Owed(r, ws)
    decreases |ws|
  {
    assert ws[0] in ws;
    if w == ws[0] {
      GuardIsOrder(log, r, top, w.sn);
      assert OwedFor(r, w) == [Ack(w.sn, w.ts)];
      hide Diff, ReceiverOn;
    } else {
      assert w in ws[1..];
      ReceiverOnFlow(log, r, top, [], ws[0]);
      hide RcvFlow, DataTrue, Got, ReceiverOn, Diff;
      TruthIsOwed(log, ReceiverOn(r, ws[0]), top, ws[1..], w);
    }
  }

  // ---------- the sending side ----------

  /** An acknowledgement in any of the datagrams frees the window of its number for good. */
  lemma {:induction false} InputAllReleases(k: State, ds: seq<Bytes>, sn: u32)
    requires R.EndpointOk(k)
    ensures Kept(InputAll(k, ds).snd, sn) ==> Kept(k.snd, sn)
    ensures (exists w :: w in ParseAll(k.cfg.conv, ds) && w.cmd == CMD_ACK && w.sn == sn) ==> !Kept(InputAll(k, ds).snd, sn)
    decreases |ds|
  {
    assert k.cfg.mss > 0;
    hide Input, Parse, Kept, AllPast, R.EndpointOk;
    if ds != [] {
      var k1 := Input(k, ds[0]).state;
      R.InputConfig(k, ds[0]);
      R.InputKeeps(k, ds[0]);
      InputReleases(k, ds[0]);
      InputAllReleases(k1, ds[1..], sn);
      var conv := k.cfg.conv;
      assert forall w :: w in ParseAll(conv, ds) <==> w in Parse(conv, ds[0]).ws || w in ParseAll(conv, ds[1..]);
    }
  }

  // ---------- the round trip ----------

  /** Both sides after a flush at x has been read at y. */
  function Reached(x: State, y: State): (y': State)
    requires y.cfg.mss > 0
    ensures y'.cfg == y.cfg
  {
    InputAll(y, Flush(x).out)
  }

  /** And x after the flush that follows at y has been read there. */
  function Returned(x: State, y: State): State
    requires x.cfg.mss > 0 && y.cfg.mss > 0
  {
    FlushFrame(x);
    InputAll(Flush(x).state, Flush(Reached(x, y)).out)
  }

  lemma {:induction false} WiresTrue(log: seq<Chunk>, x: State, y: State, fwd: set<Bytes>, bwd: set<Bytes>)
    requires Flow(log, x, y, fwd, bwd) && AllGot(x.rcv, x.acks)
    ensures forall w <- FlushWires(x) :: DataTrue(log, AdmitAll(x).nxt, w) && Sendable(w)
    ensures RcvFlow(log, y.rcv, AdmitAll(x).nxt)
  {
    FlushNeeds(log, x, y, fwd, bwd);
    AdmittedTop(log, x);
    assert x.snd.nxt <= AdmitAll(x).nxt by {
      hide SndFlow, RcvFlow, NothingLost, FwdTrue, BwdTrue, Small, AllGot, AdmitAll, FlushState;
      AdmitAllFlow(log, x, y.rcv);
    }
    hide SndFlow, RcvFlow, NothingLost, FwdTrue, BwdTrue, AllGot, AdmitAll, FlushWires, DataTrue;
    TopGrows(log, y.rcv, x.snd.nxt, AdmitAll(x).nxt);
    forall w | w in FlushWires(x) ensures DataTrue(log, AdmitAll(x).nxt, w) && Sendable(w) {
      FlushWireTrue(log, x, w);
      WireSmall(log, AdmitAll(x).nxt, w);
    }
  }

  lemma WireSmall(log: seq<Chunk>, top: int, w: Wire)
    requires DataTrue(log, top, w) && Small(log) && KnownCmd(w.cmd) && (w.cmd != CMD_PUSH ==> w.data == [])
    ensures Sendable(w)
  {
    if w.cmd == CMD_PUSH {
      assert log[w.sn] in log;
    }
  }

  /** What was sent inside the receive window is on the list of acknowledgements of the other side. */
  lemma {:induction false} SentIsOwed(log: seq<Chunk>, x: State, y: State, fwd: set<Bytes>, bwd: set<Bytes>, i: nat)
    requires Flow(log, x, y, fwd, bwd) && AllGot(x.rcv, x.acks) && x.cfg.conv == y.cfg.conv
    requires x.updated && y.cfg.mss > 0 && i < |AdmitAll(x).buf| && Due(x, AdmitAll(x).buf[i])
    requires AdmitAll(x).buf[i].sn < y.rcv.nxt + y.rcv.wnd
    ensures exists a :: a in Reached(x, y).acks && a.sn == AdmitAll(x).buf[i].sn
  {
    var o, ws := AdmitAll(x).buf[i], FlushWires(x);
    var top := AdmitAll(x).nxt;
    var w := DataWire(x, o);
    assert w.cmd == CMD_PUSH && w.sn == o.sn;
    WiresTrue(log, x, y, fwd, bwd);
    KcpTimers.DueGoesOut(x, i);
    hide Flow, AllGot, AdmitAll, FlushWires, Due, DataWire, Pack, FlushState, RcvFlow, DataTrue;
    PackParse(x.cfg.conv, x.cfg.mtu, ws);
    InputAllReads(y, Flush(x).out);
    TruthIsOwed(log, y.rcv, top, ws, w);
    assert Ack(w.sn, w.ts) in Reached(x, y).acks;
  }

  /** The other side keeps to the log. */
  lemma {:induction false} ReachedKeeps(log: seq<Chunk>, x: State, y: State, ds: seq<Bytes>, fwd: set<Bytes>, bwd: set<Bytes>)
    requires Flow(log, x, y, fwd, bwd) && y.cfg.mss > 0 && x.cfg.conv == y.cfg.conv && forall d <- ds :: d in fwd
    ensures Flow(log, x, InputAll(y, ds), fwd, bwd)
    decreases |ds|
  {
    hide Flow, Input;
    if ds != [] {
      R.InputConfig(y, ds[0]);
      DeliverAsReceiver(log, x, y, fwd, bwd, ds[0]);
      ReachedKeeps(log, x, Input(y, ds[0]).state, ds[1..], fwd, bwd);
    }
  }

  /** An acknowledgement on the list goes out with the next flush and frees the number at the other side. */
  lemma {:induction false} ListedIsReleased(x: State, y: State, a: Ack)
    requires R.EndpointOk(x) && x.cfg.conv == y.cfg.conv && y.updated && a in y.acks
    requires forall w <- FlushWires(y) :: Sendable(w)
    ensures !Kept(InputAll(x, Flush(y).out).snd, a.sn)
  {
    var ws := FlushWires(y);
    PendingGoOut(y);
    var i :| 0 <= i < |y.acks| && y.acks[i] == a;
    assert ws[i] in ws && ws[i].cmd == CMD_ACK && ws[i].sn == a.sn;
    hide FlushWires, Pack, FlushState, R.EndpointOk, Kept;
    PackParse(y.cfg.conv, y.cfg.mtu, ws);
    InputAllReleases(x, Flush(y).out, a.sn);
  }

  // ---------- as a run of the two sides ----------

  function AtYAll(ds: seq<Bytes>): seq<Move> {
    seq(|ds|, i requires 0 <= i < |ds| => AtY(Deliver(ds[i])))
  }

  function AtXAll(ds: seq<Bytes>): seq<Move> {
    seq(|ds|, i requires 0 <= i < |ds| => AtX(Deliver(ds[i])))
  }

  /** Side x flushes and y reads all of it. */
  function There(s: Sys): seq<Move> {
    [AtX(Call(R.OpFlush))] + AtYAll(Flush(s.x.k).out)
  }

  /** Then y flushes and x reads all of that. */
  function Back(s: Sys): seq<Move>
    requires s.y.k.cfg.mss > 0
  {
    [AtY(Call(R.OpFlush))] + AtXAll(Flush(Reached(s.x.k, s.y.k)).out)
  }

  lemma {:induction false} RunConcat(s: Sys, a: seq<Move>, b: seq<Move>)
    requires s.x.k.cfg.mss > 0 && s.y.k.cfg.mss > 0
    ensures Run(s, a + b) == Run(Run(s, a), b)
    decreases |a|
  {
    hide Next;
    if a == [] {
      assert a + b == b;
    } else {
      NextMss(s, a[0]);
      RunConcat(Next(s, a[0]), a[1..], b);
      assert (a + b)[1..] == a[1..] + b;
    }
  }

  lemma {:induction false} RunAtY(s: Sys, ds: seq<Bytes>)
    requires s.x.k.cfg.mss > 0 && s.y.k.cfg.mss > 0 && forall d <- ds :: d in s.toY
    ensures Run(s, AtYAll(ds)) == s.(y := s.y.(k := InputAll(s.y.k, ds)))
    decreases |ds|
  {
    hide Input;
    if ds == [] {
      assert AtYAll(ds) == [];
    } else {
      var ms := AtYAll(ds);
      assert ms[0] == AtY(Deliver(ds[0])) && ms[1..] == AtYAll(ds[1..]);
      R.InputConfig(s.y.k, ds[0]);
      RunAtY(s.(y := s.y.(k := Input(s.y.k, ds[0]).state)), ds[1..]);
    }
  }

  lemma {:induction false} RunAtX(s: Sys, ds: seq<Bytes>)
    requires s.x.k.cfg.mss > 0 && s.y.k.cfg.mss > 0 && forall d <- ds :: d in s.toX
    ensures Run(s, AtXAll(ds)) == s.(x := s.x.(k := InputAll(s.x.k, ds)))
    decreases |ds|
  {
    hide Input;
    if ds == [] {
      assert AtXAll(ds) == [];
    } else {
      var ms := AtXAll(ds);
      assert ms[0] == AtX(Deliver(ds[0])) && ms[1..] == AtXAll(ds[1..]);
      R.InputConfig(s.x.k, ds[0]);
      RunAtX(s.(x := s.x.(k := Input(s.x.k, ds[0]).state)), ds[1..]);
    }
  }

  lemma {:induction false} FlushAtX(s: Sys)
    requires s.x.k.cfg.mss > 0 && s.y.k.cfg.mss > 0
    ensures var f := Flush(s.x.k);
      && f.state.cfg == s.x.k.cfg
      && Run(s, [AtX(Call(R.OpFlush))]) == s.(x := s.x.(k := f.state), toY := s.toY + SetOf(f.out))
  {
    var m := AtX(Call(R.OpFlush));
    assert [m][1..] == [];
    FlushFrame(s.x.k);
    hide FlushState, Pack, FlushWires;
    assert Run(Next(s, m), []) == Next(s, m);
  }

  lemma {:induction false} FlushAtY(s: Sys)
    requires s.x.k.cfg.mss > 0 && s.y.k.cfg.mss > 0
    ensures var f := Flush(s.y.k);
      && f.state.cfg == s.y.k.cfg
      && Run(s, [AtY(Call(R.OpFlush))]) == s.(y := s.y.(k := f.state), toX := s.toX + SetOf(f.out))
  {
    var m := AtY(Call(R.OpFlush));
    assert [m][1..] == [];
    FlushFrame(s.y.k);
    hide FlushState, Pack, FlushWires;
    assert Run(Next(s, m), []) == Next(s, m);
  }

  lemma {:induction false} ThereIs(s: Sys)
    requires s.x.k.cfg.mss > 0 && s.y.k.cfg.mss > 0
    ensures var f := Flush(s.x.k);
      Run(s, There(s)) == s.(x := s.x.(k := f.state), y := s.y.(k := Reached(s.x.k, s.y.k)), toY := s.toY + SetOf(f.out))
  {
    FlushAtX(s);
    var f := Flush(s.x.k);
    var s1 := s.(x := s.x.(k := f.state), toY := s.toY + SetOf(f.out));
    hide Flush;
    RunConcat(s, [AtX(Call(R.OpFlush))], AtYAll(f.out));
    RunAtY(s1, f.out);
  }

  lemma {:induction false} BackIs(s: Sys, t: Sys)
    requires s.x.k.cfg.mss > 0 && s.y.k.cfg.mss > 0 && t.y.k == Reached(s.x.k, s.y.k)
    requires t.x.k.cfg.mss > 0 && t.x.k == Flush(s.x.k).state
    ensures var f := Flush(t.y.k);
      Run(t, Back(s)) == t.(x := t.x.(k := Returned(s.x.k, s.y.k)), y := t.y.(k := f.state), toX := t.toX + SetOf(f.out))
  {
    FlushAtY(t);
    var f := Flush(t.y.k);
    var t1 := t.(y := t.y.(k := f.state), toX := t.toX + SetOf(f.out));
    assert Returned(s.x.k, s.y.k) == InputAll(t.x.k, f.out);
    hide Flush, Reached, Returned;
    RunConcat(t, [AtY(Call(R.OpFlush))], AtXAll(f.out));
    RunAtX(t1, f.out);
  }

  /** Where the round trip ends. */
  lemma {:induction false} TripEnds(s: Sys)
    requires s.x.k.cfg.mss > 0 && s.y.k.cfg.mss > 0
    ensures var t := Run(s, There(s) + Back(s));
      && t.x == s.x.(k := Returned(s.x.k, s.y.k))
      && t.y == s.y.(k := Flush(Reached(s.x.k, s.y.k)).state)
  {
    ThereIs(s);
    FlushFrame(s.x.k);
    RunConcat(s, There(s), Back(s));
    hide FlushState, FlushWires, Pack, There, Back, Reached, Returned;
    BackIs(s, Run(s, There(s)));
  }

  lemma LegalTrip(ds: seq<Bytes>, wnd: nat)
    ensures AllLegal(AtXAll(ds), wnd) && AllLegal(AtYAll(ds), wnd)
  {
  }

  lemma {:induction false} ThereKeeps(s: Sys, wnd: nat)
    requires Inv(s) && Narrow(s, wnd) && Short(s, wnd)
    ensures s.x.k.cfg.mss > 0 && s.y.k.cfg.mss > 0 && Inv(Run(s, There(s)))
  {
    ThereIs(s);
    LegalTrip(Flush(s.x.k).out, wnd);
    assert AllLegal(There(s), wnd) by { hide Flush, AtYAll, AtXAll; }
    hide Flush, Flow, There, Narrow, Reached;
    RunKeeps(s, There(s), wnd);
  }

  lemma {:induction false} InvParts(s: Sys)
    requires Inv(s)
    ensures s.x.k.cfg.mss > 0 && s.y.k.cfg.mss > 0 && s.x.k.cfg.conv == s.y.k.cfg.conv
    ensures Flow(s.x.log, s.x.k, s.y.k, s.toY, s.toX) && Flow(s.y.log, s.y.k, s.x.k, s.toX, s.toY)
    ensures AllGot(s.x.k.rcv, s.x.k.acks) && AllGot(s.y.k.rcv, s.y.k.acks)
  {
    FlushNeedsAcks(s.x.log, s.x.k, s.y.k, s.toY, s.toX);
    FlushNeedsAcks(s.y.log, s.y.k, s.x.k, s.toX, s.toY);
    hide Flow, AllGot;
  }

  lemma FlushEndpoint(k: State)
    requires R.EndpointOk(k)
    ensures R.EndpointOk(Flush(k).state)
  {
    R.FlushKeeps(k);
    hide R.EndpointOk, FlushState, Pack, FlushWires;
  }

  /** One round trip without losses: what is sent in it inside the receive window has arrived at the other side, and the
      sender no longer holds it. */
  lemma {:induction false} RoundTripReleases(s: Sys, wnd: nat, i: nat)
    requires Inv(s) && Narrow(s, wnd) && Short(s, wnd) && R.EndpointOk(s.x.k)
    requires s.x.k.updated && s.y.k.updated
    requires i < |AdmitAll(s.x.k).buf| && Due(s.x.k, AdmitAll(s.x.k).buf[i])
    requires AdmitAll(s.x.k).buf[i].sn < s.y.k.rcv.nxt + s.y.k.rcv.wnd
    ensures s.x.k.cfg.mss > 0 && s.y.k.cfg.mss > 0
    ensures var t := Run(s, There(s) + Back(s));
      var sn := AdmitAll(s.x.k).buf[i].sn;
      Got(t.y.k.rcv, sn) && !Kept(t.x.k.snd, sn)
  {
    InvParts(s);
    var x, y := s.x.k, s.y.k;
    TripEnds(s);
    ThereIs(s);
    ThereKeeps(s, wnd);
    SentIsOwed(s.x.log, x, y, s.toY, s.toX, i);
    FlushFrame(x);
    ReachedUpdated(x, y);
    FlushEndpoint(x);
    var sn := AdmitAll(x).buf[i].sn;
    hide Flow, Inv, AdmitAll, There, Back, Due, Kept, Got, Run, R.EndpointOk, AllGot, Narrow, Short, FlushState, Pack,
         FlushWires;
    TripOf(s, Run(s, There(s)), sn);
  }

  lemma {:induction false} ReachedUpdated(x: State, y: State)
    requires y.cfg.mss > 0
    ensures Reached(x, y).updated == y.updated
  {
    hide Flush;
    UpdatedStays(y, Flush(x).out);
  }

  lemma {:induction false} UpdatedStays(k: State, ds: seq<Bytes>)
    requires k.cfg.mss > 0
    ensures InputAll(k, ds).updated == k.updated
    decreases |ds|
  {
    if ds != [] {
      R.InputConfig(k, ds[0]);
      InputUpdated(k, ds[0]);
      hide Input;
      UpdatedStays(Input(k, ds[0]).state, ds[1..]);
    }
  }

  lemma InputUpdated(k: State, d: Bytes)
    requires k.cfg.mss > 0
    ensures Input(k, d).state.updated == k.updated
  {
    OnWiresUpdated(k, Parse(k.cfg.conv, d).ws);
    OnWiresConfig(k, Parse(k.cfg.conv, d).ws);
    hide Parse, OnWires, CollectAll, FastAck, Diff;
  }

  lemma {:induction false} OnWiresUpdated(k: State, ws: seq<Wire>)
    ensures OnWires(k, ws).updated == k.updated
    decreases |ws|
  {
    hide ReceiverOn, SenderOn, AcksOn, RttOn;
    if ws != [] {
      OnWiresUpdated(OnWire(k, ws[0]), ws[1..]);
    }
  }

  /** The second half, from the state `t` in which the number is on the list of y. */
  lemma {:induction false} TripOf(s: Sys, t: Sys, sn: u32)
    requires s.x.k.cfg.mss > 0 && s.y.k.cfg.mss > 0
    requires Inv(t) && t.x.k == Flush(s.x.k).state && t.y.k == Reached(s.x.k, s.y.k) && t.y.k.updated
    requires R.EndpointOk(t.x.k) && exists a :: a in t.y.k.acks && a.sn == sn
    ensures Got(Flush(t.y.k).state.rcv, sn) && !Kept(Returned(s.x.k, s.y.k).snd, sn)
  {
    InvParts(t);
    var a :| a in t.y.k.acks && a.sn == sn;
    WiresTrue(t.y.log, t.y.k, t.x.k, t.toX, t.toY);
    assert Got(t.y.k.rcv, a.sn) by { hide Got; assert AllGot(t.y.k.rcv, t.y.k.acks); }
    FlushFrame(t.y.k);
    hide Flow, Inv, Reached, FlushState, FlushWires, Pack, R.EndpointOk, Kept, Got, AllGot, DataTrue, RcvFlow;
    ListedIsReleased(t.x.k, t.y.k, a);
  }

  // ---------- everything delivered ----------

  /** Everything in the window of x after admission goes out now and fits the receive window of y; nothing else is left. */
  ghost predicate AllGoes(x: State, y: State) {
    && AdmitAll(x).queue == []
    && forall o <- AdmitAll(x).buf :: Due(x, o) && o.sn < y.rcv.nxt + y.rcv.wnd
  }

  lemma {:induction false} OnWiresQueue(k: State, ws: seq<Wire>)
    ensures OnWires(k, ws).snd.queue == k.snd.queue
    decreases |ws|
  {
    if ws != [] {
      assert SenderOn(k.snd, ws[0]).queue == k.snd.queue by { hide Outside, ParseUna, RemoveSn; }
      hide ReceiverOn, SenderOn, AcksOn, RttOn;
      OnWiresQueue(OnWire(k, ws[0]), ws[1..]);
    }
  }

  lemma {:induction false} InputAllQueue(k: State, ds: seq<Bytes>)
    requires k.cfg.mss > 0
    ensures InputAll(k, ds).snd.queue == k.snd.queue
    decreases |ds|
  {
    if ds != [] {
      var p := Parse(k.cfg.conv, ds[0]);
      R.InputConfig(k, ds[0]);
      OnWiresQueue(k, p.ws);
      OnWiresConfig(k, p.ws);
      assert Input(k, ds[0]).state.snd.queue == k.snd.queue by { hide Parse, OnWires, CollectAll, CountSkips, Outside, Diff; }
      hide Input;
      InputAllQueue(Input(k, ds[0]).state, ds[1..]);
    }
  }

  lemma {:induction false} InputAllSettles(k: State, ds: seq<Bytes>)
    requires R.EndpointOk(k) && Settled(k.rcv)
    ensures R.EndpointOk(InputAll(k, ds)) && Settled(InputAll(k, ds).rcv)
    decreases |ds|
  {
    assert k.cfg.mss > 0;
    hide R.EndpointOk, Settled, Input;
    if ds != [] {
      R.InputConfig(k, ds[0]);
      R.InputKeeps(k, ds[0]);
      InputAllSettles(Input(k, ds[0]).state, ds[1..]);
    }
  }

  lemma HeadIsNext(r: Receiver, i: nat)
    requires Buffered(r) && i < |r.buf| && r.buf[i].sn == r.nxt
    ensures r.buf[0].sn == r.nxt
  {
    DistSelf(r.nxt);
    hide Dist;
    assert forall j | 0 < j < |r.buf| :: Dist(r.nxt, r.buf[0].sn) < Dist(r.nxt, r.buf[j].sn);
  }

  lemma HeadBelow(log: seq<Chunk>, r: Receiver, top: int)
    requires RcvFlow(log, r, top) && Buffered(r) && r.buf != []
    ensures r.nxt < top
  {
    var w := r.buf[0];
    assert w in r.buf && Dist(r.nxt, w.sn) < r.wnd;
    if w.sn < r.nxt {
      WrapSmall(w.sn - r.nxt + 0x1_0000_0000);
      WrapAdd(w.sn - r.nxt, 0);
    }
  }

  /** A receiver that has every number and room in its queue waits for nothing. */
  lemma {:induction false} NothingWaits(log: seq<Chunk>, r: Receiver, top: int)
    requires RcvFlow(log, r, top) && Buffered(r) && Settled(r) && |r.queue| < r.wnd
    requires forall n | 0 <= n < top :: Got(r, n)
    ensures r.buf == []
  {
    hide RcvFlow, Buffered;
    if r.buf != [] {
      HeadBelow(log, r, top);
      var i := Find(r, r.nxt);
      HeadIsNext(r, i);
    }
  }

  lemma Find(r: Receiver, n: u32) returns (i: nat)
    requires Got(r, n) && n >= r.nxt
    ensures i < |r.buf| && r.buf[i].sn == n
  {
    i :| 0 <= i < |r.buf| && r.buf[i].sn == n;
  }

  lemma FlushSame(k: State)
    requires k.updated
    ensures Flush(k).state.snd.queue == AdmitAll(k).queue && SameSegs(AdmitAll(k).buf, Flush(k).state.snd.buf)
  {
    R.SweepSame(AdmitAll(k).buf, TickOf(k));
    hide AdmitAll, TickOf, SweepAll, AfterFlush, ProbeTick, Pack, FlushWires;
  }

  /** No number at all is left with the sender. */
  lemma {:induction false} AllFreed(s: Sys, wnd: nat, sn: u32)
    requires Inv(s) && Narrow(s, wnd) && Short(s, wnd) && R.EndpointOk(s.x.k)
    requires s.x.k.updated && s.y.k.updated && AllGoes(s.x.k, s.y.k)
    ensures s.x.k.cfg.mss > 0 && s.y.k.cfg.mss > 0
    ensures !Kept(Returned(s.x.k, s.y.k).snd, sn)
  {
    InvParts(s);
    FlushFrame(s.x.k);
    FlushEndpoint(s.x.k);
    FlushSame(s.x.k);
    var f, g := Flush(s.x.k).state, Flush(Reached(s.x.k, s.y.k)).out;
    hide Flush, Run, There, Back, Reached, Flow, Inv, R.EndpointOk, AllGot, Due, SameSegs, Kept, AdmitAll, Narrow, Short;
    InputAllReleases(f, g, sn);
    if Kept(f.snd, sn) {
      var i := SameSn(AdmitAll(s.x.k).buf, f.snd, sn);
      RoundTripReleases(s, wnd, i);
      TripEnds(s);
    }
  }

  lemma {:induction false} TripEmpties(s: Sys, wnd: nat)
    requires Inv(s) && Narrow(s, wnd) && Short(s, wnd) && R.EndpointOk(s.x.k)
    requires s.x.k.updated && s.y.k.updated && AllGoes(s.x.k, s.y.k)
    ensures s.x.k.cfg.mss > 0 && s.y.k.cfg.mss > 0
    ensures var t := Run(s, There(s) + Back(s)); t.x.k.snd.buf == [] && t.x.k.snd.queue == []
  {
    InvParts(s);
    TripEnds(s);
    FlushFrame(s.x.k);
    FlushSame(s.x.k);
    var r := Returned(s.x.k, s.y.k);
    hide Flush, Run, There, Back, Reached, Flow, Inv, R.EndpointOk, AllGot, Due, SameSegs, AdmitAll, Narrow, Short;
    InputAllQueue(Flush(s.x.k).state, Flush(Reached(s.x.k, s.y.k)).out);
    if r.snd.buf != [] {
      AllFreed(s, wnd, r.snd.buf[0].sn);
    }
  }

  lemma SameSn(buf: seq<OutSeg>, f: Sender, sn: u32) returns (i: nat)
    requires SameSegs(buf, f.buf) && Kept(f, sn)
    ensures i < |buf| && buf[i].sn == sn
  {
    i :| 0 <= i < |f.buf| && f.buf[i].sn == sn;
  }

  lemma {:induction false} TripKeeps(s: Sys, wnd: nat)
    requires Inv(s) && Streams(s) && Narrow(s, wnd) && Short(s, wnd)
    ensures s.x.k.cfg.mss > 0 && s.y.k.cfg.mss > 0
    ensures var t := Run(s, There(s) + Back(s)); Inv(t) && Streams(t)
  {
    InvParts(s);
    TripEnds(s);
    LegalTrip(Flush(s.x.k).out, wnd);
    LegalTrip(Flush(Reached(s.x.k, s.y.k)).out, wnd);
    assert AllLegal(There(s) + Back(s), wnd) by { hide Flush, AtYAll, AtXAll, Reached; }
    hide Flush, Flow, Streamed, There, Back, Narrow, Reached, Returned;
    RunStreams(s, There(s) + Back(s), wnd);
  }

  lemma {:induction false} AllArrived(x: Node, y: Node)
    requires SndFlow(x.log, x.k.snd) && RcvFlow(x.log, y.k.rcv, x.k.snd.nxt) && NothingLost(x.k.snd, y.k.rcv)
    requires Buffered(y.k.rcv) && Settled(y.k.rcv) && |y.k.rcv.queue| < y.k.rcv.wnd && x.k.snd.buf == []
    ensures y.k.rcv.buf == []
  {
    hide RcvFlow, SndFlow, Buffered, Settled, Got;
    assert forall n | 0 <= n < x.k.snd.nxt :: !Kept(x.k.snd, n);
    NothingWaits(x.log, y.k.rcv, x.k.snd.nxt);
  }

  lemma BufferedOf(k: State)
    requires R.EndpointOk(k)
    ensures Buffered(k.rcv)
  {
  }

  /** If all that is left at one side goes out now and fits the other's receive window, one round trip without losses is
      enough: the sender is done, and while the other's queue is not full, every byte put on the stream has been handed out
      or can be taken out at once. */
  lemma {:induction false} RoundTripDelivers(s: Sys, wnd: nat)
    requires Inv(s) && Streams(s) && Narrow(s, wnd) && Short(s, wnd)
    requires R.EndpointOk(s.x.k) && R.EndpointOk(s.y.k) && Settled(s.y.k.rcv)
    requires s.x.k.updated && s.y.k.updated && AllGoes(s.x.k, s.y.k)
    ensures s.x.k.cfg.mss > 0 && s.y.k.cfg.mss > 0
    ensures var t := Run(s, There(s) + Back(s));
      && t.x.k.snd.buf == [] && t.x.k.snd.queue == [] && t.x.bytes == s.x.bytes && t.y.got == s.y.got
      && (|t.y.k.rcv.queue| < t.y.k.rcv.wnd ==> Concat(t.y.got) + Join(t.y.k.rcv.queue) == t.x.bytes)
  {
    InvParts(s);
    TripEnds(s);
    TripKeeps(s, wnd);
    TripEmpties(s, wnd);
    InputAllSettles(s.y.k, Flush(s.x.k).out);
    BufferedOf(Reached(s.x.k, s.y.k));
    FlushFrame(Reached(s.x.k, s.y.k));
    var t := Run(s, There(s) + Back(s));
    assert t.y.k.rcv == Reached(s.x.k, s.y.k).rcv by { hide Reached, FlushState, Pack, FlushWires, Returned, Run; }
    hide Run, There, Back, Flush, Reached, Returned, R.EndpointOk, Narrow, Short, AllGoes, Buffered, Settled, Flow, AllGot;
    FlowParts(t.x.log, t.x.k, t.y.k, t.toY, t.toX);
    hide SndFlow, RcvFlow, NothingLost, Inv;
    if |t.y.k.rcv.queue| < t.y.k.rcv.wnd {
      AllArrived(t.x, t.y);
      IdleHasAll(t.x, t.y);
    }
  }
}
