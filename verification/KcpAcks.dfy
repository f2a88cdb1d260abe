/** Acknowledgements on both sides: which data segments are acknowledged, and which segments an acknowledgement releases,
    counts as skipped, or lets the congestion window grow for. */
module KcpAcks {
  import opened Numbers
  import opened LittleEndian
  import opened KcpWire
  import opened KcpSender
  import opened KcpReceiver
  import opened KcpControl
  import opened KcpEngine
  import opened KcpRuns
  import opened KcpFlow

  // ---------- what is owed to the peer ----------

  /** What one segment calls for: its number and time stamp, if it carries data and lies before the end of the receive
      window. What has been delivered or is held already counts too. */
  function OwedFor(r: Receiver, w: Wire): seq<Ack> {
    if w.cmd == CMD_PUSH && Diff(w.sn, Wrap(r.nxt + r.wnd)) < 0 then [Ack(w.sn, w.ts)] else []
  }

  /** What a series of segments calls for, with the receive window as it stands when each of them is read. */
  function Owed(r: Receiver, ws: seq<Wire>): seq<Ack>
    decreases |ws|
  {
    if ws == [] then [] else OwedFor(r, ws[0]) + Owed(ReceiverOn(r, ws[0]), ws[1..])
  }

  lemma OnWireOwes(k: State, w: Wire)
    ensures OnWire(k, w).acks == k.acks + OwedFor(k.rcv, w) && OnWire(k, w).rcv == ReceiverOn(k.rcv, w)
  {
    hide SenderOn, ReceiverOn, RttOn, Diff, Wrap;
    assert k.acks + [] == k.acks;
  }

  lemma Regroup(a: seq<Ack>, b: seq<Ack>, c: seq<Ack>)
    ensures a + b + c == a + (b + c)
  {
  }

  lemma {:induction false} OnWiresOwes(k: State, ws: seq<Wire>)
    ensures OnWires(k, ws).acks == k.acks + Owed(k.rcv, ws)
    decreases |ws|
  {
    hide OnWire, OwedFor, ReceiverOn;
    if ws == [] {
      assert k.acks + [] == k.acks;
    } else {
      var k1 := OnWire(k, ws[0]);
      OnWireOwes(k, ws[0]);
      OnWiresOwes(k1, ws[1..]);
      Regroup(k.acks, OwedFor(k.rcv, ws[0]), Owed(k1.rcv, ws[1..]));
    }
  }

  /** A datagram adds exactly these acknowledgements to the list, in the order of its segments. */
  lemma InputOwes(k: State, b: Bytes)
    requires k.cfg.mss > 0
    ensures Input(k, b).state.acks == k.acks + Owed(k.rcv, Parse(k.cfg.conv, b).ws)
  {
    var ws := Parse(k.cfg.conv, b).ws;
    assert |b| < OVERHEAD ==> ws == [];
    OnWiresConfig(k, ws);
    OnWiresOwes(k, ws);
    hide Parse, OnWires, CollectAll, FastAck, Grow, Diff, Owed;
    assert OnWires(k, []) == k by { assert OnWires(k, []) == k; }
  }

  /** The next flush announces each of them with its number and time stamp, after those that were pending, and none is
      left for the flush after it. */
  lemma OwedIsAnnounced(k: State, ws: seq<Wire>, now: u32)
    requires k.cfg.mss > 0 && forall w <- ws :: Sendable(w)
    ensures var j := Input(k, EncodeAll(k.cfg.conv, ws)).state.(current := now);
      var owed := k.acks + Owed(k.rcv, ws);
      && |owed| <= |FlushWires(j)| && FlushState(j).acks == []
      && forall i | 0 <= i < |owed| ::
           FlushWires(j)[i] == Wire(CMD_ACK, 0, Unused(j.rcv), owed[i].ts, owed[i].sn, j.rcv.nxt, [])
  {
    var b := EncodeAll(k.cfg.conv, ws);
    ParseEncodeAll(k.cfg.conv, ws);
    hide Input, EncodeAll, Parse, Owed;
    InputOwes(k, b);
    PendingGoOut(Input(k, b).state.(current := now));
    hide FlushWires, FlushState, Unused;
  }

  /** A flush begins with the pending acknowledgements and leaves none. */
  lemma PendingGoOut(k: State)
    ensures |k.acks| <= |FlushWires(k)| && FlushState(k).acks == []
    ensures forall i | 0 <= i < |k.acks| ::
      FlushWires(k)[i] == Wire(CMD_ACK, 0, Unused(k.rcv), k.acks[i].ts, k.acks[i].sn, k.rcv.nxt, [])
  {
    hide AdmitAll, SweepAll, Unused, ProbeTick, AfterFlush, LastAck;
  }

  // ---------- what an acknowledgement releases ----------

  lemma UnaReleases(s: Sender, una: u32)
    requires SenderOk(s)
    ensures forall p <- OnUna(s, una).buf :: p in s.buf
    ensures forall o <- s.buf :: Diff(una, o.sn) <= 0 ==> o in OnUna(s, una).buf
  {
    var k := ParseUnaDrops(s.buf, una);
    hide Diff, SenderOk;
    assert s.buf == s.buf[..k] + s.buf[k..];
    assert forall i | 0 <= i < k :: Diff(una, s.buf[..k][i].sn) > 0;
  }

  /** The cumulative acknowledgement is past this segment and all before it. */
  ghost predicate AllPast(s: Sender, una: u32, o: OutSeg) {
    forall p <- s.buf :: Diff(p.sn, o.sn) <= 0 ==> Diff(una, p.sn) > 0
  }

  lemma OrderIs(s: Sender, i: nat, j: nat)
    requires SenderOk(s) && i < |s.buf| && j < |s.buf|
    ensures Diff(s.buf[i].sn, s.buf[j].sn) <= 0 <==> i <= j
    ensures s.buf[i].sn == s.buf[j].sn <==> i == j
  {
    DiffIsDist(s.una, s.buf[i].sn, s.buf[j].sn);
    hide Dist, Diff;
  }

  lemma UnaDrops(s: Sender, una: u32, o: OutSeg)
    requires SenderOk(s) && o in s.buf && AllPast(s, una, o)
    ensures !Kept(OnUna(s, una), o.sn)
  {
    var k := ParseUnaDrops(s.buf, una);
    var i :| 0 <= i < |s.buf| && s.buf[i] == o;
    hide Diff, SenderOk;
    if k < |s.buf| {
      OrderIs(s, k, i);
      assert s.buf[k] in s.buf;
    }
    assert i < k;
    forall n | k <= n < |s.buf| ensures s.buf[n].sn != o.sn {
      OrderIs(s, i, n);
    }
  }

  /** One segment of a datagram: an acknowledgement leaves no segment with its number in the window, whatever number that
      is; a segment that the cumulative acknowledgement is not past and the number does not name stays as it is. */
  lemma WireReleases(s: Sender, w: Wire)
    requires SenderOk(s)
    ensures forall p <- SenderOn(s, w).buf :: p in s.buf
    ensures w.cmd == CMD_ACK ==> !Kept(SenderOn(s, w), w.sn)
    ensures forall o <- s.buf :: AllPast(s, w.una, o) ==> !Kept(SenderOn(s, w), o.sn)
    ensures forall o <- s.buf :: Diff(w.una, o.sn) <= 0 && !(w.cmd == CMD_ACK && w.sn == o.sn) ==> o in SenderOn(s, w).buf
  {
    var t := OnUna(s, w.una);
    UnaReleases(s, w.una);
    OnUnaKeeps(s, w.una);
    var k := RemoveSnDrops(t.buf, w.sn);
    OnAckExact(t, w.sn);
    hide OnUna, Outside, Diff, Dist, SenderOk, AllPast;
    assert forall p <- OnAck(t, w.sn).buf :: p in t.buf;
    assert w.cmd == CMD_ACK ==> !Kept(OnAck(t, w.sn), w.sn) by { AckedLeaves(t, w.sn); }
    forall o | o in s.buf && AllPast(s, w.una, o) ensures !Kept(SenderOn(s, w), o.sn) {
      UnaDrops(s, w.una, o);
    }
  }

  lemma AckedLeaves(s: Sender, sn: u32)
    requires SenderOk(s)
    ensures !Kept(OnAck(s, sn), sn)
  {
    OnAckExact(s, sn);
    hide OnAck;
  }

  lemma {:induction false} WiresRelease(k: State, ws: seq<Wire>)
    requires EndpointOk(k)
    ensures EndpointOk(OnWires(k, ws))
    ensures forall p <- OnWires(k, ws).snd.buf :: p in k.snd.buf
    ensures forall w <- ws :: w.cmd == CMD_ACK ==> !Kept(OnWires(k, ws).snd, w.sn)
    ensures forall o <- k.snd.buf :: (forall w <- ws :: Diff(w.una, o.sn) <= 0 && !(w.cmd == CMD_ACK && w.sn == o.sn)) ==>
      o in OnWires(k, ws).snd.buf
    ensures forall w, o | w in ws && o in k.snd.buf && AllPast(k.snd, w.una, o) :: !Kept(OnWires(k, ws).snd, o.sn)
    decreases |ws|
  {
    hide EndpointOk, SenderOk, Diff, SenderOn, ReceiverOn, AcksOn, RttOn;
    if ws != [] {
      var k1 := OnWire(k, ws[0]);
      OnWireKeeps(k, ws[0]);
      assert SenderOk(k.snd) by { SenderOf(k); }
      WireReleases(k.snd, ws[0]);
      WiresRelease(k1, ws[1..]);
      assert forall w <- ws :: w == ws[0] || w in ws[1..];
      assert forall n :: !Kept(k1.snd, n) ==> !Kept(OnWires(k1, ws[1..]).snd, n);
      forall w, o | w in ws && o in k.snd.buf && AllPast(k.snd, w.una, o) ensures !Kept(OnWires(k, ws).snd, o.sn) {
        if w != ws[0] && o in k1.snd.buf {
          assert AllPast(k1.snd, w.una, o);
        }
      }
    }
  }

  lemma SenderOf(k: State)
    requires EndpointOk(k)
    ensures SenderOk(k.snd) && k.cfg.mss > 0 && k.rmtWnd <= 0xFFFF
  {
  }

  // ---------- what it counts as skipped ----------

  /** Along a window the scan counts exactly the segments before the number. */
  lemma {:induction false} CountsBefore(from: u32, buf: seq<OutSeg>, sn: u32, i: nat)
    requires i < |buf| && Dist(from, sn) < 0x8000_0000
    requires forall n | 0 <= n < |buf| :: Dist(from, buf[n].sn) < 0x8000_0000
    requires forall n, m | 0 <= n < m < |buf| :: Dist(from, buf[n].sn) < Dist(from, buf[m].sn)
    ensures |CountSkips(buf, sn)| == |buf|
    ensures CountSkips(buf, sn)[i] ==
      if Dist(from, buf[i].sn) < Dist(from, sn) then buf[i].(fastack := Wrap(buf[i].fastack + 1)) else buf[i]
  {
    CountSkipsSame(buf, sn);
    DiffIsDist(from, sn, buf[0].sn);
    DistInjective(from, sn, buf[0].sn);
    hide Dist, Diff, Wrap;
    if i > 0 {
      assert Dist(from, buf[0].sn) < Dist(from, buf[i].sn);
      if Diff(sn, buf[0].sn) >= 0 {
        CountsBefore(from, buf[1..], sn, i - 1);
      }
    }
  }

  /** The greatest number acknowledged, reckoned from a place that all of them come after. */
  ghost predicate IsGreatest(from: u32, m: MaxAck, ws: seq<Wire>) {
    && (m.NoAck? ==> forall w <- ws :: w.cmd != CMD_ACK)
    && (m.MaxAck? ==> forall w <- ws :: w.cmd == CMD_ACK ==> Dist(from, w.sn) <= Dist(from, m.sn))
    && (m.MaxAck? ==> exists w :: w in ws && w.cmd == CMD_ACK && w.sn == m.sn)
  }

  lemma CollectGreatest(from: u32, m: MaxAck, ws: seq<Wire>, w: Wire)
    requires IsGreatest(from, m, ws)
    requires forall v <- ws + [w] :: v.cmd == CMD_ACK ==> Dist(from, v.sn) < 0x8000_0000
    ensures IsGreatest(from, Collect(m, w), ws + [w])
  {
    assert w in ws + [w] && forall v <- ws :: v in ws + [w];
    if w.cmd == CMD_ACK && m.MaxAck? {
      DiffIsDist(from, w.sn, m.sn);
    }
    hide Dist, Diff;
    assert forall v <- ws + [w] :: v in ws || v == w;
  }

  lemma {:induction false} CollectAllGreatest(from: u32, m: MaxAck, done: seq<Wire>, ws: seq<Wire>)
    requires IsGreatest(from, m, done)
    requires forall v <- done + ws :: v.cmd == CMD_ACK ==> Dist(from, v.sn) < 0x8000_0000
    ensures IsGreatest(from, CollectAll(m, ws), done + ws)
    decreases |ws|
  {
    hide IsGreatest, Dist, Collect;
    if ws == [] {
      assert done + ws == done;
    } else {
      var d := done + [ws[0]];
      assert d + ws[1..] == done + ws;
      assert forall v <- d :: v in d + ws[1..];
      CollectGreatest(from, m, done, ws[0]);
      CollectAllGreatest(from, Collect(m, ws[0]), d, ws[1..]);
    }
  }

  /** The datagram acknowledges a number after this one, as reckoned from a place before both. */
  ghost predicate Passed(from: u32, ws: seq<Wire>, sn: u32) {
    exists w :: w in ws && w.cmd == CMD_ACK && Dist(from, sn) < Dist(from, w.sn)
  }

  lemma PassedIs(from: u32, m: MaxAck, ws: seq<Wire>, sn: u32)
    requires IsGreatest(from, m, ws)
    ensures Passed(from, ws, sn) <==> m.MaxAck? && Dist(from, sn) < Dist(from, m.sn)
  {
    hide Dist;
  }

  /** Distances from a place up to 2^30 before the window. */
  lemma FarBase(from: u32, una: u32, x: u32)
    requires Dist(from, una) <= 0x4000_0000
    ensures Dist(from, x) >= Dist(from, una) ==> Dist(una, x) == Dist(from, x) - Dist(from, una)
    ensures Dist(una, x) <= 0xFFFF ==> Dist(from, x) == Dist(from, una) + Dist(una, x)
    ensures Dist(from, x) < Dist(from, una) ==> Dist(una, x) > 0xFFFF
  {
    if Dist(from, x) >= Dist(from, una) {
      Rebase(from, una, x);
    }
    if Dist(una, x) <= 0xFFFF {
      DistAdd(from, una, x);
    }
    hide Dist;
  }

  /** Along the window that is left, the segments before an acknowledged number count one more skip. */
  lemma FastAckCounts(from: u32, s: Sender, ws: seq<Wire>, i: nat)
    requires SenderOk(s) && i < |s.buf| && Dist(from, s.una) <= 0x4000_0000
    requires forall w <- ws :: w.cmd == CMD_ACK ==> Dist(from, w.sn) < Dist(from, s.una) + InFlight(s)
    ensures var m := CollectAll(NoAck, ws);
      var t := if m.NoAck? then s else FastAck(s, m.sn);
      && |t.buf| == |s.buf| && t == s.(buf := t.buf)
      && t.buf[i] == if Passed(from, ws, s.buf[i].sn) then s.buf[i].(fastack := Wrap(s.buf[i].fastack + 1)) else s.buf[i]
  {
    var m := CollectAll(NoAck, ws);
    assert [] + ws == ws;
    assert IsGreatest(from, NoAck, []);
    CollectAllGreatest(from, NoAck, [], ws);
    PassedIs(from, m, ws, s.buf[i].sn);
    if m.MaxAck? {
      CountSkipsSame(s.buf, m.sn);
      OutsideIsDist(s, m.sn);
      FarBase(from, s.una, m.sn);
      FarBase(from, s.una, s.buf[i].sn);
      assert InFlight(s) <= 0xFFFF && Dist(s.una, s.buf[i].sn) < InFlight(s);
      if !Outside(s, m.sn) {
        CountsBefore(s.una, s.buf, m.sn, i);
      }
    }
    hide Dist, Diff, Outside, IsGreatest, Passed, CollectAll, Wrap, SenderOk;
  }

  // ---------- a datagram as a whole ----------

  lemma InputSndIs(k: State, b: Bytes)
    requires EndpointOk(k)
    ensures var p := Parse(k.cfg.conv, b);
      var m := CollectAll(NoAck, p.ws);
      var s := OnWires(k, p.ws).snd;
      Input(k, b).state.snd == if p.code != 0 || m.NoAck? then s else FastAck(s, m.sn)
  {
    var p := Parse(k.cfg.conv, b);
    assert |b| < OVERHEAD ==> p == Parsed([], 0);
    OnWiresConfig(k, p.ws);
    hide Parse, OnWires, CollectAll, FastAck, Grow, Diff;
    assert OnWires(k, []) == k by { assert OnWires(k, []) == k; }
    assert CollectAll(NoAck, []) == NoAck;
  }

  /** After a datagram of any bytes no segment is left whose number it acknowledged, and none that its cumulative
      acknowledgements are past; a segment that they are not past and that is not named stays, with its contents. */
  lemma InputReleases(k: State, b: Bytes)
    requires EndpointOk(k)
    ensures var ws, t := Parse(k.cfg.conv, b).ws, Input(k, b).state.snd;
      && (forall n :: Kept(t, n) ==> Kept(k.snd, n))
      && (forall w <- ws :: w.cmd == CMD_ACK ==> !Kept(t, w.sn))
      && (forall w, o | w in ws && o in k.snd.buf && AllPast(k.snd, w.una, o) :: !Kept(t, o.sn))
      && (forall o <- k.snd.buf :: (forall w <- ws :: Diff(w.una, o.sn) <= 0 && !(w.cmd == CMD_ACK && w.sn == o.sn)) ==>
            Kept(t, o.sn))
  {
    var ws := Parse(k.cfg.conv, b).ws;
    InputSndIs(k, b);
    WiresRelease(k, ws);
    var m := CollectAll(NoAck, ws);
    var s, t := OnWires(k, ws).snd, Input(k, b).state.snd;
    hide Parse, OnWires, CollectAll, Input, Diff, EndpointOk, Outside, AllPast;
    if m.MaxAck? {
      CountSkipsSame(s.buf, m.sn);
    }
    assert SameSegs(s.buf, t.buf);
    SameKept(s, t);
  }

  lemma SameKept(s: Sender, t: Sender)
    requires SameSegs(s.buf, t.buf)
    ensures forall n :: Kept(s, n) <==> Kept(t, n)
  {
    forall n ensures Kept(s, n) <==> Kept(t, n) {
      if Kept(s, n) {
        var i :| 0 <= i < |s.buf| && s.buf[i].sn == n;
        assert t.buf[i] in t.buf;
      }
      if Kept(t, n) {
        var i :| 0 <= i < |t.buf| && t.buf[i].sn == n;
        assert s.buf[i] in s.buf;
      }
    }
  }

  /** A segment with one more skip if the datagram acknowledged a later one. */
  ghost function Skip(from: u32, ws: seq<Wire>, o: OutSeg): OutSeg {
    if Passed(from, ws, o.sn) then o.(fastack := Wrap(o.fastack + 1)) else o
  }

  ghost predicate Counted(s: Sender, from: u32, ws: seq<Wire>, p: OutSeg) {
    exists o :: o in s.buf && p == Skip(from, ws, o)
  }

  lemma FastAckAll(from: u32, s: Sender, ws: seq<Wire>)
    requires SenderOk(s) && Dist(from, s.una) <= 0x4000_0000
    requires forall w <- ws :: w.cmd == CMD_ACK ==> Dist(from, w.sn) < Dist(from, s.una) + InFlight(s)
    ensures var m := CollectAll(NoAck, ws);
      forall p <- (if m.NoAck? then s else FastAck(s, m.sn)).buf :: Counted(s, from, ws, p)
  {
    var m := CollectAll(NoAck, ws);
    var t := if m.NoAck? then s else FastAck(s, m.sn);
    if m.MaxAck? {
      CountSkipsSame(s.buf, m.sn);
    }
    hide CollectAll, FastAck, Dist, InFlight, SenderOk, Passed;
    forall p | p in t.buf ensures Counted(s, from, ws, p) {
      var i :| 0 <= i < |t.buf| && t.buf[i] == p;
      assert |t.buf| == |s.buf| by { if m.MaxAck? { FastAckLength(s, m.sn); } }
      FastAckCounts(from, s, ws, i);
      assert s.buf[i] in s.buf && p == Skip(from, ws, s.buf[i]);
    }
  }

  lemma FastAckLength(s: Sender, sn: u32)
    ensures |FastAck(s, sn).buf| == |s.buf|
  {
    CountSkipsSame(s.buf, sn);
    hide Outside, CountSkips;
  }

  lemma WindowMoves(from: u32, k: State, ws: seq<Wire>)
    requires EndpointOk(k) && Dist(from, k.snd.una) <= 0x3FFF_0000
    ensures var s := OnWires(k, ws).snd;
      && SenderOk(s) && Dist(from, s.una) <= 0x4000_0000
      && Dist(from, s.una) + InFlight(s) == Dist(from, k.snd.una) + InFlight(k.snd)
  {
    OnWiresKeeps(k, ws);
    SenderOf(OnWires(k, ws));
    var s := OnWires(k, ws).snd;
    assert InFlight(k.snd) <= 0xFFFF;
    hide OnWires, EndpointOk, SenderOk;
    FarBase(from, k.snd.una, s.una);
    hide Dist, InFlight;
  }

  /** A datagram whose acknowledgements are of numbers in flight, or of numbers up to 2^30 before: each segment that stays
      counts one more skip if a later number was acknowledged, and is otherwise as it was. */
  lemma InputCounts(k: State, b: Bytes, from: u32)
    requires EndpointOk(k) && Parse(k.cfg.conv, b).code == 0 && Dist(from, k.snd.una) <= 0x3FFF_0000
    requires forall w <- Parse(k.cfg.conv, b).ws :: w.cmd == CMD_ACK ==>
      Dist(from, w.sn) < Dist(from, k.snd.una) + InFlight(k.snd)
    ensures forall p <- Input(k, b).state.snd.buf :: Counted(k.snd, from, Parse(k.cfg.conv, b).ws, p)
  {
    var ws := Parse(k.cfg.conv, b).ws;
    InputSndIs(k, b);
    WiresRelease(k, ws);
    WindowMoves(from, k, ws);
    var s := OnWires(k, ws).snd;
    hide Parse, OnWires, CollectAll, Input, Dist, EndpointOk, SenderOk, InFlight, Skip, FastAck, Kept, AllPast, Diff;
    FastAckAll(from, s, ws);
    assert forall p :: Counted(s, from, ws, p) ==> Counted(k.snd, from, ws, p);
  }

  /** The result of ikcp_input: -1 for fewer bytes than a header, and otherwise what the loop stopped with, be it before or
      after whole segments. */
  lemma InputStops(k: State, ws: seq<Wire>, tail: Bytes)
    requires k.cfg.mss > 0 && forall w <- ws :: Sendable(w)
    ensures var b := EncodeAll(k.cfg.conv, ws) + tail;
      Input(k, b).code == if |b| < OVERHEAD then -1 else Parse(k.cfg.conv, tail).code
    ensures |EncodeAll(k.cfg.conv, ws) + tail| < OVERHEAD ==> Input(k, EncodeAll(k.cfg.conv, ws) + tail).state == k
  {
    ParsePrefix(k.cfg.conv, ws, tail);
    OnWiresConfig(k, Parse(k.cfg.conv, EncodeAll(k.cfg.conv, ws) + tail).ws);
    hide Parse, EncodeAll, OnWires, CollectAll, Conclude;
  }
}
