/** The sending half of a control block: the window of segments in flight. Sequence numbers are 32-bit words,
    so every order below is the order of distances from snd_una modulo 2^32. */
module KcpSender {
  import opened Numbers
  import opened LittleEndian

  /** A fragment waiting in snd_queue: only its number and its bytes are set. */
  datatype Chunk = Chunk(frg: u8, data: Bytes)

  /** A segment in snd_buf. */
  datatype OutSeg = OutSeg(frg: u8, data: Bytes, sn: u32, ts: u32, wnd: u16, una: u32,
                           resendts: u32, rto: u32, fastack: u32, xmit: u32)

  datatype Sender = Sender(una: u32, nxt: u32, buf: seq<OutSeg>, queue: seq<Chunk>)

  function ChunkOf(o: OutSeg): Chunk {
    Chunk(o.frg, o.data)
  }

  // ---------- acknowledgements ----------

  /** ikcp_parse_una: drop from the front while `una` is past the segment. */
  function ParseUna(buf: seq<OutSeg>, una: u32): seq<OutSeg> {
    if buf == [] || Diff(una, buf[0].sn) <= 0 then buf else ParseUna(buf[1..], una)
  }

  function RemoveSn(buf: seq<OutSeg>, sn: u32): seq<OutSeg> {
    if buf == [] then []
    else if buf[0].sn == sn then buf[1..]
    else if Diff(sn, buf[0].sn) < 0 then buf
    else [buf[0]] + RemoveSn(buf[1..], sn)
  }

  predicate Outside(s: Sender, sn: u32) {
    Diff(sn, s.una) < 0 || Diff(sn, s.nxt) >= 0
  }

  /** ikcp_parse_ack */
  function ParseAck(s: Sender, sn: u32): Sender {
    if Outside(s, sn) then s else s.(buf := RemoveSn(s.buf, sn))
  }

  /** ikcp_shrink_buf */
  function Shrink(s: Sender): Sender {
    s.(una := if s.buf == [] then s.nxt else s.buf[0].sn)
  }

  function CountSkips(buf: seq<OutSeg>, sn: u32): seq<OutSeg> {
    if buf == [] || Diff(sn, buf[0].sn) < 0 then buf
    else [if sn != buf[0].sn then buf[0].(fastack := Wrap(buf[0].fastack + 1)) else buf[0]] + CountSkips(buf[1..], sn)
  }

  /** ikcp_parse_fastack */
  function FastAck(s: Sender, sn: u32): Sender {
    if Outside(s, sn) then s else s.(buf := CountSkips(s.buf, sn))
  }

  /** What every received segment does to the sender before its command is looked at. */
  function OnUna(s: Sender, una: u32): Sender {
    Shrink(s.(buf := ParseUna(s.buf, una)))
  }

  function OnAck(s: Sender, sn: u32): Sender {
    Shrink(ParseAck(s, sn))
  }

  // ---------- admission of queued fragments ----------

  /** Values ikcp_flush stamps on a segment it admits. */
  datatype Stamp = Stamp(current: u32, wnd: u16, una: u32, rto: u32)

  function Fresh(c: Chunk, sn: u32, t: Stamp): OutSeg {
    OutSeg(c.frg, c.data, sn, t.current, t.wnd, t.una, t.current, t.rto, 0, 0)
  }

  /** Move fragments into the window while snd_nxt is before snd_una + cwnd. */
  function Admit(s: Sender, cwnd: u32, t: Stamp): Sender
    decreases |s.queue|
  {
    if Diff(s.nxt, Wrap(s.una + cwnd)) < 0 && s.queue != [] then
      Admit(Sender(s.una, Wrap(s.nxt + 1), s.buf + [Fresh(s.queue[0], s.nxt, t)], s.queue[1..]), cwnd, t)
    else s
  }

  // ---------- the window invariant ----------

  function InFlight(s: Sender): (n: int)
    ensures 0 <= n < 0x1_0000_0000
  {
    Dist(s.una, s.nxt)
  }

  /** Strictly ascending inside [una, nxt), at most 65535 numbers apart. */
  ghost predicate Window(s: Sender) {
    && InFlight(s) <= 0xFFFF
    && (forall i | 0 <= i < |s.buf| :: Dist(s.una, s.buf[i].sn) < InFlight(s))
    && (forall i, j | 0 <= i < j < |s.buf| :: Dist(s.una, s.buf[i].sn) < Dist(s.una, s.buf[j].sn))
  }

  /** Between two calls snd_una is also the first number still in the window. */
  ghost predicate SenderOk(s: Sender) {
    Window(s) && s.una == if s.buf == [] then s.nxt else s.buf[0].sn
  }

  /** Moving snd_una up to the first remaining segment: it never moves back, and the window is kept. */
  lemma ShrinkKeeps(s: Sender)
    requires Window(s)
    ensures SenderOk(Shrink(s))
    ensures InFlight(Shrink(s)) == InFlight(s) - Dist(s.una, Shrink(s).una)
  {
    hide Dist;
    var t := Shrink(s);
    assert Dist(s.una, t.una) <= InFlight(s);
    Rebase(s.una, t.una, s.nxt);
    forall i | 0 <= i < |s.buf|
      ensures Dist(t.una, s.buf[i].sn) == Dist(s.una, s.buf[i].sn) - Dist(s.una, t.una)
    {
      assert Dist(s.una, t.una) <= Dist(s.una, s.buf[i].sn) by {
        if i > 0 { assert Dist(s.una, s.buf[0].sn) < Dist(s.una, s.buf[i].sn); }
      }
      Rebase(s.una, t.una, s.buf[i].sn);
    }
  }

  /** ikcp_parse_una removes exactly the leading segments that `una` is past. */
  lemma {:induction false} ParseUnaDrops(buf: seq<OutSeg>, una: u32) returns (k: nat)
    ensures k <= |buf| && ParseUna(buf, una) == buf[k..]
    ensures forall i | 0 <= i < k :: Diff(una, buf[i].sn) > 0
    ensures k < |buf| ==> Diff(una, buf[k].sn) <= 0
  {
    hide Diff;
    k := 0;
    if buf != [] && Diff(una, buf[0].sn) > 0 {
      var m := ParseUnaDrops(buf[1..], una);
      k := m + 1;
      assert buf[1..][m..] == buf[k..];
      forall i | 0 <= i < k ensures Diff(una, buf[i].sn) > 0 {
        if i > 0 { assert buf[i] == buf[1..][i - 1]; }
      }
    }
  }

  /** RemoveSn takes out at most one segment, and only one that carries the number. */
  lemma {:induction false} RemoveSnDrops(buf: seq<OutSeg>, sn: u32) returns (k: nat)
    ensures k <= |buf|
    ensures RemoveSn(buf, sn) == if k < |buf| then buf[..k] + buf[k + 1..] else buf
    ensures k < |buf| ==> buf[k].sn == sn
  {
    hide Diff;
    if buf == [] || (Diff(sn, buf[0].sn) < 0 && buf[0].sn != sn) {
      k := |buf|;
    } else if buf[0].sn == sn {
      k := 0;
    } else {
      var m := RemoveSnDrops(buf[1..], sn);
      k := m + 1;
      RemoveShift(buf, m);
    }
  }

  lemma RemoveShift(buf: seq<OutSeg>, m: nat)
    requires buf != [] && m <= |buf[1..]|
    ensures [buf[0]] + buf[1..] == buf
    ensures m < |buf[1..]| ==> [buf[0]] + (buf[1..][..m] + buf[1..][m + 1..]) == buf[..m + 1] + buf[m + 2..]
  {
  }

  /** In a window the scan cannot stop early: the segment with this number, if any, is gone afterwards. */
  lemma {:induction false} RemoveSnFinds(from: u32, buf: seq<OutSeg>, sn: u32)
    requires Dist(from, sn) < 0x8000_0000
    requires forall i | 0 <= i < |buf| :: Dist(from, buf[i].sn) < 0x8000_0000
    requires forall i, j | 0 <= i < j < |buf| :: Dist(from, buf[i].sn) < Dist(from, buf[j].sn)
    ensures forall o <- RemoveSn(buf, sn) :: o.sn != sn
  {
    hide Dist, Diff;
    if buf != [] {
      DiffIsDist(from, sn, buf[0].sn);
      if buf[0].sn == sn {
        assert forall o <- buf[1..] :: Dist(from, buf[0].sn) < Dist(from, o.sn);
      } else if Diff(sn, buf[0].sn) < 0 {
        assert forall i | 0 < i < |buf| :: Dist(from, buf[0].sn) < Dist(from, buf[i].sn);
      } else {
        RemoveSnFinds(from, buf[1..], sn);
      }
    }
  }

  /** A window stays one when segments leave it. */
  lemma WindowSub(s: Sender, k: nat, m: nat)
    requires Window(s) && k <= m <= |s.buf|
    ensures Window(s.(buf := s.buf[..k] + s.buf[m..]))
  {
    hide Dist;
    var b := s.buf[..k] + s.buf[m..];
    assert forall i | 0 <= i < |b| :: b[i] == if i < k then s.buf[i] else s.buf[i - k + m];
  }

  /** The cumulative acknowledgement, whatever number it carries, keeps the window and never moves snd_una back. */
  lemma OnUnaKeeps(s: Sender, una: u32)
    requires SenderOk(s)
    ensures SenderOk(OnUna(s, una))
    ensures InFlight(OnUna(s, una)) == InFlight(s) - Dist(s.una, OnUna(s, una).una)
  {
    hide Dist, Diff;
    var k := ParseUnaDrops(s.buf, una);
    WindowSub(s, 0, k);
    assert s.buf[..0] + s.buf[k..] == s.buf[k..];
    ShrinkKeeps(s.(buf := s.buf[k..]));
  }

  lemma OnAckKeeps(s: Sender, sn: u32)
    requires SenderOk(s)
    ensures SenderOk(OnAck(s, sn))
    ensures InFlight(OnAck(s, sn)) == InFlight(s) - Dist(s.una, OnAck(s, sn).una)
  {
    hide Dist, Diff, Outside;
    if Outside(s, sn) {
      ShrinkKeeps(s);
    } else {
      var k := RemoveSnDrops(s.buf, sn);
      if k < |s.buf| {
        WindowSub(s, k, k + 1);
      }
      ShrinkKeeps(ParseAck(s, sn));
    }
  }

  /** An acknowledgement of a number in flight takes that number, and no other, out of the window. */
  lemma OnAckExact(s: Sender, sn: u32)
    requires SenderOk(s)
    ensures forall o <- s.buf :: o.sn != sn ==> o in OnAck(s, sn).buf
    ensures Dist(s.una, sn) < InFlight(s) ==> forall o <- OnAck(s, sn).buf :: o.sn != sn
    ensures Dist(s.una, sn) >= InFlight(s) ==> OnAck(s, sn) == s
  {
    hide Dist, Diff;
    var k := RemoveSnDrops(s.buf, sn);
    assert forall o <- s.buf :: o.sn != sn ==> o in RemoveSn(s.buf, sn);
    OutsideIsDist(s, sn);
    DistSelf(s.una);
    if Dist(s.una, sn) < InFlight(s) {
      RemoveSnFinds(s.una, s.buf, sn);
    }
  }

  /** The two comparisons that guard ikcp_parse_ack and ikcp_parse_fastack test membership in [snd_una, snd_nxt). */
  lemma OutsideIsDist(s: Sender, sn: u32)
    requires InFlight(s) <= 0xFFFF
    ensures Outside(s, sn) <==> Dist(s.una, sn) >= InFlight(s)
  {
    assert Signed(sn - s.una) < 0 <==> Dist(s.una, sn) >= 0x8000_0000;
    if Dist(s.una, sn) < 0x8000_0000 {
      DiffIsDist(s.una, sn, s.nxt);
    }
  }

  // ---------- counters that do not touch the window ----------

  /** Same segments in the same order, whatever their timers and counters. */
  ghost predicate SameSegs(a: seq<OutSeg>, b: seq<OutSeg>) {
    |a| == |b| && forall i | 0 <= i < |a| :: a[i].sn == b[i].sn && ChunkOf(a[i]) == ChunkOf(b[i])
  }

  lemma {:induction false} CountSkipsSame(buf: seq<OutSeg>, sn: u32)
    ensures SameSegs(buf, CountSkips(buf, sn))
  {
    hide Diff;
    if !(buf == [] || Diff(sn, buf[0].sn) < 0) {
      CountSkipsSame(buf[1..], sn);
      assert buf == [buf[0]] + buf[1..];
    }
  }

  lemma SameSegsKeeps(s: Sender, b: seq<OutSeg>)
    requires SenderOk(s) && SameSegs(s.buf, b)
    ensures SenderOk(s.(buf := b))
  {
    hide Dist;
  }

  lemma FastAckKeeps(s: Sender, sn: u32)
    requires SenderOk(s)
    ensures SenderOk(FastAck(s, sn)) && SameSegs(s.buf, FastAck(s, sn).buf)
  {
    hide Dist, Outside;
    CountSkipsSame(s.buf, sn);
    SameSegsKeeps(s, FastAck(s, sn).buf);
  }

  // ---------- admission ----------

  lemma AdmitOne(s: Sender, t: Stamp)
    requires SenderOk(s) && InFlight(s) < 0xFFFF && s.queue != []
    ensures var r := Sender(s.una, Wrap(s.nxt + 1), s.buf + [Fresh(s.queue[0], s.nxt, t)], s.queue[1..]);
            SenderOk(r) && InFlight(r) == InFlight(s) + 1
  {
    var r := Sender(s.una, Wrap(s.nxt + 1), s.buf + [Fresh(s.queue[0], s.nxt, t)], s.queue[1..]);
    DistNext(s.una, s.nxt);
    hide Dist;
    assert Dist(s.una, s.nxt) == InFlight(s);
  }

  lemma AdmitGuard(s: Sender, cwnd: u32)
    requires InFlight(s) <= 0xFFFF && cwnd <= 0xFFFF
    ensures Diff(s.nxt, Wrap(s.una + cwnd)) < 0 <==> InFlight(s) < cwnd
  {
    WrapAdd(s.una + cwnd, -(s.una as int));
    DiffIsDist(s.una, s.nxt, Wrap(s.una + cwnd));
  }

  /** The first n queued fragments under consecutive numbers from nxt on. */
  function Stamped(q: seq<Chunk>, n: nat, nxt: u32, t: Stamp): seq<OutSeg>
    requires n <= |q|
  {
    seq(n, i requires 0 <= i < n => Fresh(q[i], Wrap(nxt + i), t))
  }

  /** The sender with the first n queued fragments admitted. */
  function Filled(s: Sender, n: nat, t: Stamp): Sender
    requires n <= |s.queue|
  {
    Sender(s.una, Wrap(s.nxt + n), s.buf + Stamped(s.queue, n, s.nxt, t), s.queue[n..])
  }

  lemma StampedStep(q: seq<Chunk>, n: nat, nxt: u32, t: Stamp)
    requires 0 < n <= |q|
    ensures Stamped(q, n, nxt, t) == [Fresh(q[0], nxt, t)] + Stamped(q[1..], n - 1, Wrap(nxt + 1), t)
  {
    hide Fresh;
    var a, b := Stamped(q, n, nxt, t), [Fresh(q[0], nxt, t)] + Stamped(q[1..], n - 1, Wrap(nxt + 1), t);
    assert Wrap(nxt + 0) == nxt;
    hide Wrap;
    forall i | 0 <= i < n
      ensures a[i] == b[i]
    {
      WrapAdd(nxt + 1, i - 1);
    }
  }

  lemma FilledStep(s: Sender, n: nat, t: Stamp)
    requires 0 < n <= |s.queue|
    ensures Filled(Filled(s, 1, t), n - 1, t) == Filled(s, n, t)
  {
    FilledOne(s, t);
    WrapAdd(s.nxt + 1, n - 1);
    StampedStep(s.queue, n, s.nxt, t);
    hide Stamped, Fresh, Wrap;
  }

  lemma FilledOne(s: Sender, t: Stamp)
    requires s.queue != []
    ensures Filled(s, 1, t) == Sender(s.una, Wrap(s.nxt + 1), s.buf + [Fresh(s.queue[0], s.nxt, t)], s.queue[1..])
    ensures Filled(s, 0, t) == s
  {
    assert s.queue[0..] == s.queue;
  }

  /** How many fragments a window of cwnd has room for. */
  function Admitted(s: Sender, cwnd: u32): nat {
    Min(|s.queue|, Max(0, cwnd - InFlight(s)))
  }

  /** Admission fills the window as far as cwnd and the queue allow, and keeps it a window. */
  lemma {:induction false} AdmitFills(s: Sender, cwnd: u32, t: Stamp)
    requires SenderOk(s) && cwnd <= 0xFFFF
    ensures Admit(s, cwnd, t) == Filled(s, Admitted(s, cwnd), t)
    ensures SenderOk(Admit(s, cwnd, t))
    ensures InFlight(Admit(s, cwnd, t)) == InFlight(s) + Admitted(s, cwnd)
    decreases |s.queue|, 1
  {
    AdmitGuard(s, cwnd);
    hide Diff, Dist, InFlight, Filled, SenderOk, Fresh, Wrap;
    if s.queue == [] {
      FilledNone(s, t);
    } else {
      FilledOne(s, t);
      if InFlight(s) < cwnd {
        AdmitOne(s, t);
        AdmitRest(s, cwnd, t);
      }
    }
  }

  lemma {:induction false} AdmitRest(s: Sender, cwnd: u32, t: Stamp)
    requires s.queue != [] && cwnd <= 0xFFFF && InFlight(s) < cwnd
    requires SenderOk(Filled(s, 1, t)) && InFlight(Filled(s, 1, t)) == InFlight(s) + 1
    ensures var m := Filled(s, 1, t);
      && Admit(m, cwnd, t) == Filled(s, Admitted(s, cwnd), t)
      && SenderOk(Admit(m, cwnd, t)) && InFlight(Admit(m, cwnd, t)) == InFlight(s) + Admitted(s, cwnd)
    decreases |s.queue|, 0
  {
    var m := Filled(s, 1, t);
    assert m.queue == s.queue[1..];
    hide Diff, Dist, InFlight, Filled, SenderOk, Fresh, Wrap;
    AdmitFills(m, cwnd, t);
    assert Admitted(s, cwnd) == Admitted(m, cwnd) + 1;
    FilledStep(s, Admitted(s, cwnd), t);
  }

  lemma FilledNone(s: Sender, t: Stamp)
    requires s.queue == []
    ensures Filled(s, 0, t) == s
  {
  }
}
