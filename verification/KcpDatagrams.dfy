/** What one ikcp_flush puts on the wire, read back by the decode loop of ikcp_input. */
module KcpDatagrams {
  import opened Numbers
  import opened KcpWire
  import opened KcpSender
  import opened KcpReceiver
  import opened KcpEngine

  predicate Unsent(o: OutSeg) {
    o.xmit == 0
  }

  predicate TimedOut(k: State, o: OutSeg) {
    o.xmit != 0 && Diff(k.current, o.resendts) >= 0
  }

  /** Number of skips after which a segment is sent again without waiting. */
  function ResendLimit(k: State): u32 {
    if k.cfg.fastresend > 0 then Wrap(k.cfg.fastresend) else 0xFFFF_FFFF
  }

  predicate Skipped(k: State, o: OutSeg) {
    o.xmit != 0 && Diff(k.current, o.resendts) < 0 && o.fastack >= ResendLimit(k)
  }

  /** A segment is transmitted when it never was, when its time has come, or when enough later ones were acked. */
  predicate Due(k: State, o: OutSeg) {
    Unsent(o) || TimedOut(k, o) || Skipped(k, o)
  }

  function DueOf(k: State, buf: seq<OutSeg>): seq<OutSeg> {
    if buf == [] then [] else (if Due(k, buf[0]) then [buf[0]] else []) + DueOf(k, buf[1..])
  }

  /** The header of a data segment: number, fragment and bytes of the segment, everything else of this flush. */
  function DataWire(k: State, o: OutSeg): Wire {
    Wire(CMD_PUSH, o.frg, Unused(k.rcv), k.current, o.sn, k.rcv.nxt, o.data)
  }

  function DataWires(k: State, os: seq<OutSeg>): seq<Wire> {
    seq(|os|, i requires 0 <= i < |os| => DataWire(k, os[i]))
  }

  lemma {:induction false} SweepSendsDue(k: State, buf: seq<OutSeg>)
    ensures SweepAll(buf, TickOf(k)).ws == DataWires(k, DueOf(k, buf))
  {
    if buf != [] {
      SweepSendsDue(k, buf[1..]);
      var h := Transmit(buf[0], TickOf(k));
      assert h.send <==> Due(k, buf[0]);
      assert h.send ==> PushWire(h.seg) == DataWire(k, buf[0]);
      hide Transmit, Diff, Due, DataWire, TickOf;
    }
  }

  ghost predicate Sized(s: Sender, mss: int) {
    (forall c <- s.queue :: |c.data| <= mss) && (forall o <- s.buf :: |o.data| <= mss)
  }

  lemma {:induction false} AdmitSized(s: Sender, cwnd: u32, t: Stamp, mss: int)
    requires Sized(s, mss)
    ensures Sized(Admit(s, cwnd, t), mss)
    decreases |s.queue|
  {
    hide Diff, Wrap;
    if Diff(s.nxt, Wrap(s.una + cwnd)) < 0 && s.queue != [] {
      AdmitSized(Sender(s.una, Wrap(s.nxt + 1), s.buf + [Fresh(s.queue[0], s.nxt, t)], s.queue[1..]), cwnd, t, mss);
    }
  }

  lemma {:induction false} DueFrom(k: State, buf: seq<OutSeg>)
    ensures forall o <- DueOf(k, buf) :: o in buf
  {
    if buf != [] {
      DueFrom(k, buf[1..]);
    }
    hide Due;
  }

  /** One acknowledgement for each number in the list, with the time stamp that came with it. */
  function Acknowledged(k: State): seq<Wire> {
    seq(|k.acks|, i requires 0 <= i < |k.acks| =>
      Wire(CMD_ACK, 0, Unused(k.rcv), k.acks[i].ts, k.acks[i].sn, k.rcv.nxt, []))
  }

  /** Whether this flush asks the peer for its window: it was to be asked, or a closed window has lasted until the time
      that was set for a probe. */
  predicate Asks(k: State) {
    k.probe.askSend || (k.rmtWnd == 0 && k.probe.wait != 0 && Diff(k.current, k.probe.ts) >= 0)
  }

  /** A question or an answer about the window; number and time stamp are left over from the last acknowledgement. */
  function WindowWire(k: State, cmd: u8): Wire {
    var last := if k.acks == [] then Ack(0, 0) else k.acks[|k.acks| - 1];
    Wire(cmd, 0, Unused(k.rcv), last.ts, last.sn, k.rcv.nxt, [])
  }

  /** The acknowledgements in the order they were pushed, then the probes, then the due data segments. */
  function Announced(k: State): seq<Wire> {
    Acknowledged(k)
    + (if Asks(k) then [WindowWire(k, CMD_WASK)] else [])
    + (if k.probe.askTell then [WindowWire(k, CMD_WINS)] else [])
    + DataWires(k, DueOf(k, AdmitAll(k).buf))
  }

  lemma AnnouncedIs(k: State)
    ensures FlushWires(k) == Announced(k)
  {
    SweepSendsDue(k, AdmitAll(k).buf);
    assert AckWires(k.acks, Unused(k.rcv), k.rcv.nxt) == Acknowledged(k);
    hide SweepAll, AdmitAll, TickOf, DueOf, Unused;
  }

  lemma AnnouncedFits(k: State, size: nat)
    requires Sized(k.snd, size) && size < 0x8000_0000
    ensures forall w <- Announced(k) :: Sendable(w) && |w.data| <= size
  {
    AdmitSized(k.snd, WindowSize(k), Stamp(k.current, Unused(k.rcv), k.rcv.nxt, k.rtt.rto), size);
    var buf := AdmitAll(k).buf;
    DueFrom(k, buf);
    hide AdmitAll, Due, DueOf, Unused;
    assert forall o <- buf :: |o.data| <= size;
    forall w | w in Announced(k)
      ensures Sendable(w) && |w.data| <= size
    {
      if w in DataWires(k, DueOf(k, buf)) {
        var i :| 0 <= i < |DueOf(k, buf)| && w == DataWire(k, DueOf(k, buf)[i]);
        assert DueOf(k, buf)[i] in buf;
      }
    }
  }

  /** When the mtu and the queued segments with their headers are at most `top`, a flush emits datagrams of at most
      `top` bytes made of whole segments, and the decode loop reads from them exactly what was announced, in order. */
  lemma FlushReadsBack(k: State, top: nat)
    requires k.updated && Sized(k.snd, top - OVERHEAD) && OVERHEAD <= top < 0x8000_0000 && k.cfg.mtu as int <= top
    ensures var out := Flush(k).out;
      && (forall d <- out :: 0 < |d| <= top && Whole(k.cfg.conv, d))
      && ParseAll(k.cfg.conv, out) == Announced(k)
  {
    AnnouncedIs(k);
    AnnouncedFits(k, top - OVERHEAD);
    hide FlushWires, Announced, Parse;
    PackParse(k.cfg.conv, k.cfg.mtu, FlushWires(k));
    PackFits(k.cfg.conv, k.cfg.mtu, top, FlushWires(k));
    hide Pack, FlushState;
  }

  /** The advertised window is the number of free places while rcv_wnd fits in 16 bits. */
  lemma AdvertisesFree(r: Receiver)
    requires r.wnd <= 0xFFFF
    ensures Unused(r) as int == Max(r.wnd - |r.queue|, 0)
  {
  }
}
