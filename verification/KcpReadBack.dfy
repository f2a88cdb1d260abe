/** Over every run each flush reads back: what is queued stays within the greatest segment size there was, so that no
    datagram is longer than the greatest mtu, and none is cut. */
module KcpReadBack {
  import opened Numbers
  import opened LittleEndian
  import opened KcpWire
  import opened KcpSender
  import opened KcpReceiver
  import opened KcpControl
  import opened KcpEngine
  import opened KcpRuns
  import opened KcpDatagrams
  import F = KcpFragments

  // ---------- the sizes of queued segments ----------

  lemma OnUnaSized(s: Sender, una: u32, mss: int)
    requires Sized(s, mss)
    ensures Sized(OnUna(s, una), mss)
  {
    var k := ParseUnaDrops(s.buf, una);
  }

  lemma OnAckSized(s: Sender, sn: u32, mss: int)
    requires Sized(s, mss)
    ensures Sized(OnAck(s, sn), mss)
  {
    var k := RemoveSnDrops(s.buf, sn);
  }

  lemma {:induction false} OnWiresSized(k: State, ws: seq<Wire>, mss: int)
    requires Sized(k.snd, mss)
    ensures Sized(OnWires(k, ws).snd, mss)
    decreases |ws|
  {
    if ws != [] {
      OnUnaSized(k.snd, ws[0].una, mss);
      OnAckSized(OnUna(k.snd, ws[0].una), ws[0].sn, mss);
      hide Sized, OnUna, OnAck, ReceiverOn, AcksOn, RttOn;
      OnWiresSized(OnWire(k, ws[0]), ws[1..], mss);
    }
  }

  lemma SameSized(s: Sender, b: seq<OutSeg>, mss: int)
    requires Sized(s, mss) && SameSegs(s.buf, b)
    ensures Sized(s.(buf := b), mss)
  {
    forall o | o in b ensures |o.data| <= mss {
      var i :| 0 <= i < |b| && b[i] == o;
      assert ChunkOf(s.buf[i]) == ChunkOf(b[i]);
    }
  }

  lemma InputSized(k: State, b: Bytes, mss: int)
    requires k.cfg.mss > 0 && Sized(k.snd, mss)
    ensures Sized(Input(k, b).state.snd, mss)
  {
    var ws := Parse(k.cfg.conv, b).ws;
    OnWiresConfig(k, ws);
    OnWiresSized(k, ws, mss);
    var k1 := OnWires(k, ws);
    var m := CollectAll(NoAck, ws);
    if m.MaxAck? {
      CountSkipsSame(k1.snd.buf, m.sn);
      SameSized(k1.snd, CountSkips(k1.snd.buf, m.sn), mss);
    }
    hide Sized, Parse, OnWires, CollectAll, CountSkips, Diff;
  }

  lemma FlushSized(k: State, mss: int)
    requires Sized(k.snd, mss)
    ensures Sized(FlushState(k).snd, mss)
  {
    AdmitSized(k.snd, WindowSize(k), Stamp(k.current, Unused(k.rcv), k.rcv.nxt, k.rtt.rto), mss);
    SweepSame(AdmitAll(k).buf, TickOf(k));
    hide SweepAll, TickOf, AfterFlush, Sized;
    SameSized(AdmitAll(k), SweepAll(AdmitAll(k).buf, TickOf(k)).buf, mss);
  }

  lemma SendSized(k: State, data: Bytes, size: int)
    requires k.cfg.mss > 0 && Sized(k.snd, size) && k.cfg.mss as int <= size
    ensures Sized(SendTo(k, data).state.snd, size)
  {
    assert F.AtMost(k.snd.queue, size);
    F.SendAtMost(k.snd.queue, k.cfg.mss, k.cfg.stream, data, size);
    hide F.Send;
  }

  // ---------- runs ----------

  /** What is queued, with its headers, and the mtu are within `top`. */
  ghost predicate Fitting(k: State, top: nat) {
    && 50 <= k.cfg.mtu as int <= top < 0x8000_0000 && k.cfg.mss as int == k.cfg.mtu - OVERHEAD
    && Sized(k.snd, top - OVERHEAD)
  }

  predicate MtuWithin(op: Op, top: nat) {
    op.OpSetMtu? ==> op.mtu <= top
  }

  lemma StepFits(k: State, op: Op, top: nat)
    requires Fitting(k, top) && MtuWithin(op, top)
    ensures Fitting(Step(k, op), top)
  {
    var size := top - OVERHEAD;
    match op {
      case OpSend(data) => SendSized(k, data, size);
      case OpInput(b) => InputSized(k, b, size); InputConfig(k, b);
      case OpUpdate(c) => ClockKeeps(k, c); FlushSized(Clock(k, c).0, size); FlushConfig(Clock(k, c).0);
      case OpFlush => FlushSized(k, size); FlushConfig(k);
      case _ =>
    }
    hide Input, FlushState, Clock, F.Send, Pack, FlushWires;
  }

  lemma {:induction false} RunFits(k: State, ops: seq<Op>, top: nat)
    requires k.cfg.mss > 0 && Fitting(k, top) && forall op <- ops :: MtuWithin(op, top)
    ensures Fitting(Run(k, ops), top)
    decreases |ops|
  {
    if ops != [] {
      StepMss(k, ops[0]);
      assert MtuWithin(ops[0], top);
      StepFits(k, ops[0], top);
      RunFits(Step(k, ops[0]), ops[1..], top);
    }
    hide Fitting, Step, MtuWithin;
  }

  /** Every datagram of a flush is at most `top` bytes of whole segments, and the decode loop reads from them the
      pending acknowledgements, the probes and the due segments, in order, under the true number of free places. */
  ghost predicate ReadsBack(k: State, top: nat) {
    var out := Flush(k).out;
    && (forall d <- out :: 0 < |d| <= top && Whole(k.cfg.conv, d))
    && ParseAll(k.cfg.conv, out) == Announced(k)
    && (k.rcv.wnd <= 0xFFFF ==> Unused(k.rcv) as int == Max(k.rcv.wnd - |k.rcv.queue|, 0))
  }

  lemma FittingReadsBack(k: State, top: nat)
    requires Fitting(k, top) && k.updated
    ensures ReadsBack(k, top)
  {
    FlushReadsBack(k, top);
    if k.rcv.wnd <= 0xFFFF {
      AdvertisesFree(k.rcv);
    }
    hide Flush, Announced, Unused;
  }

  /** From any control block that has nothing queued, after any run in which no mtu above `top` was set: a call of
      ikcp_flush reads back from datagrams of at most `top` bytes, and so does the flush of ikcp_update at any time. */
  lemma EmptyReadsBack(k0: State, ops: seq<Op>, top: nat)
    requires k0.snd.queue == [] && k0.snd.buf == []
    requires 50 <= k0.cfg.mtu as int <= top < 0x8000_0000 && k0.cfg.mss as int == k0.cfg.mtu - OVERHEAD
    requires forall op <- ops :: MtuWithin(op, top)
    ensures var k := Run(k0, ops);
      && (k.updated ==> ReadsBack(k, top))
      && forall now :: ReadsBack(Clock(k, now).0, top)
  {
    assert Fitting(k0, top);
    RunFits(k0, ops, top);
    var k := Run(k0, ops);
    hide Run, ReadsBack;
    if k.updated {
      FittingReadsBack(k, top);
    }
    forall now ensures ReadsBack(Clock(k, now).0, top) {
      ClockKeeps(k, now);
      FittingReadsBack(Clock(k, now).0, top) by { hide Clock; }
    }
  }

  /** From any fresh control block with any windows and any mtu, over every run: while no greater mtu is set, no datagram
      is longer than that mtu, and if one is set, none is longer than the greatest. */
  lemma ReachableReadsBack(conv: u32, sndWnd: int32, rcvWnd: int32, mtu: int32, ops: seq<Op>, top: nat)
    requires 50 <= mtu <= top < 0x8000_0000 && forall op <- ops :: MtuWithin(op, top)
    ensures var k := Run(SetMtu(Configured(conv, sndWnd, rcvWnd), mtu).state, ops);
      && (k.updated ==> ReadsBack(k, top))
      && forall now :: ReadsBack(Clock(k, now).0, top)
  {
    var k0 := SetMtu(Configured(conv, sndWnd, rcvWnd), mtu).state;
    assert k0.snd.queue == [] && k0.snd.buf == [] && k0.cfg.mtu as int == mtu && k0.cfg.mss as int == mtu - OVERHEAD;
    hide Run, Configured, SetMtu, ReadsBack, Clock;
    EmptyReadsBack(k0, ops, top);
  }

  // ---------- the output buffer ----------

  /** A flush stays inside the output buffer exactly when each segment that is due now fits it. */
  lemma FlushStaysInside(k: State)
    requires 50 <= k.cfg.mtu <= BufferSize(k.cfg.mtu)
    ensures Reach(k) <= BufferSize(k.cfg.mtu)
      <==> forall o <- DueOf(k, AdmitAll(k).buf) :: OVERHEAD + |o.data| <= BufferSize(k.cfg.mtu)
  {
    var room := BufferSize(k.cfg.mtu);
    var due := DueOf(k, AdmitAll(k).buf);
    AnnouncedIs(k);
    PeakFits(k.cfg.mtu, 0, FlushWires(k), room);
    AnnouncedWithin(k, room);
    hide FlushWires, Announced, Peak, BufferSize, AdmitAll, DueOf;
  }

  lemma AnnouncedWithin(k: State, room: nat)
    requires OVERHEAD <= room
    ensures (forall w <- Announced(k) :: OVERHEAD + |w.data| <= room)
      <==> forall o <- DueOf(k, AdmitAll(k).buf) :: OVERHEAD + |o.data| <= room
  {
    var due := DueOf(k, AdmitAll(k).buf);
    hide AdmitAll, DueOf, Unused, Asks;
    var ws := DataWires(k, due);
    assert forall w <- ws :: w in Announced(k);
    forall i | 0 <= i < |due| ensures ws[i] in ws && |ws[i].data| == |due[i].data| {
    }
    if forall o <- due :: OVERHEAD + |o.data| <= room {
      forall w | w in Announced(k) ensures OVERHEAD + |w.data| <= room {
        if w in ws {
          var i :| 0 <= i < |ws| && ws[i] == w;
          assert due[i] in due;
        }
      }
    }
  }

  /** The size of the buffer is computed in 32-bit words, and covers the mtu except over one range of them. */
  lemma BufferHoldsMtu(mtu: u32)
    requires 50 <= mtu < 0x8000_0000
    ensures mtu <= BufferSize(mtu) <==> mtu < 1431655742 || mtu >= 2147483612
    ensures mtu < 1431655742 ==> BufferSize(mtu) as int == (mtu + OVERHEAD) * 3
  {
    var x := (mtu + OVERHEAD) * 3;
    if x < 0x1_0000_0000 {
      WrapSmall(x);
    } else {
      assert Wrap(x) == x - 0x1_0000_0000;
    }
  }

  lemma FittingStaysInside(k: State, top: nat)
    requires Fitting(k, top) && top <= BufferSize(k.cfg.mtu) as int
    ensures Reach(k) <= BufferSize(k.cfg.mtu)
  {
    AnnouncedIs(k);
    AnnouncedFits(k, top - OVERHEAD);
    hide FlushWires, Announced, Peak, BufferSize;
    PeakFits(k.cfg.mtu, 0, FlushWires(k), BufferSize(k.cfg.mtu));
  }

  /** Over every run in which no mtu was set that is greater than the buffer of the present one: neither ikcp_flush nor
      ikcp_update at any time writes past the buffer. */
  lemma ReachableStaysInside(conv: u32, sndWnd: int32, rcvWnd: int32, mtu: int32, ops: seq<Op>, top: nat)
    requires 50 <= mtu <= top < 0x8000_0000 && forall op <- ops :: MtuWithin(op, top)
    requires var k := Run(SetMtu(Configured(conv, sndWnd, rcvWnd), mtu).state, ops); top <= BufferSize(k.cfg.mtu) as int
    ensures var k := Run(SetMtu(Configured(conv, sndWnd, rcvWnd), mtu).state, ops);
      && Reach(k) <= BufferSize(k.cfg.mtu)
      && forall now :: Reach(Clock(k, now).0) <= BufferSize(k.cfg.mtu)
  {
    var k0 := SetMtu(Configured(conv, sndWnd, rcvWnd), mtu).state;
    assert Fitting(k0, top) && k0.cfg.mss > 0;
    hide Configured, SetMtu, Reach, BufferSize;
    RunFits(k0, ops, top);
    var k := Run(k0, ops);
    hide Run;
    FittingStaysInside(k, top);
    forall now ensures Reach(Clock(k, now).0) <= BufferSize(k.cfg.mtu) {
      ClockKeeps(k, now);
      FittingStaysInside(Clock(k, now).0, top) by { hide Clock; }
    }
  }
}
