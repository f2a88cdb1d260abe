/** The retransmission timers: what each flush sets them to, and when a segment is sent again. */
module KcpTimers {
  import opened Numbers
  import opened KcpWire
  import opened KcpSender
  import opened KcpReceiver
  import opened KcpControl
  import opened KcpEngine
  import opened KcpRuns
  import opened KcpDatagrams
  import F = KcpFragments

  // ---------- one flush ----------

  /** A segment as it is when this flush has sent it, before its timer is set. */
  function Stamped(k: State, o: OutSeg): OutSeg {
    o.(ts := k.current, wnd := Unused(k.rcv), una := k.rcv.nxt, xmit := Wrap(o.xmit + 1))
  }

  /** The timeout added to a new segment's first one, unless the block is set to nodelay. */
  function Grace(k: State): u32 {
    if k.cfg.nodelay then 0 else k.rtt.rto / 8
  }

  function Backoff(k: State): u32 {
    if k.cfg.nodelay then k.rtt.rto / 2 else k.rtt.rto
  }

  lemma {:induction false} SweepAt(buf: seq<OutSeg>, t: Tick, i: nat)
    requires i < |buf|
    ensures SweepAll(buf, t).buf[i] == Transmit(buf[i], t).seg
  {
    hide Transmit;
    if i > 0 {
      SweepAt(buf[1..], t, i - 1);
    }
  }

  /** What a flush makes of every segment in the window, those included that it has just admitted. A new one gets the
      present timeout and an eighth of it as grace; one whose time is up waits longer by that timeout, or by half of
      it; one that was skipped often enough starts its wait and its count anew; all others stay as they are. */
  lemma FlushTimers(k: State, i: nat)
    requires i < |AdmitAll(k).buf|
    ensures |FlushState(k).snd.buf| == |AdmitAll(k).buf|
    ensures var o, p := AdmitAll(k).buf[i], FlushState(k).snd.buf[i];
      && (Unsent(o) ==>
            p == Stamped(k, o).(rto := k.rtt.rto, resendts := Wrap(k.current + k.rtt.rto + Grace(k))))
      && (TimedOut(k, o) ==>
            var rto := Wrap(o.rto + Backoff(k)); p == Stamped(k, o).(rto := rto, resendts := Wrap(k.current + rto)))
      && (Skipped(k, o) ==>
            p == Stamped(k, o).(fastack := 0, resendts := Wrap(k.current + o.rto)))
      && (!Due(k, o) ==> p == o)
  {
    SweepAt(AdmitAll(k).buf, TickOf(k), i);
    hide AdmitAll, SweepAll, Unused, AfterFlush, ProbeTick, Diff, Wrap;
  }

  /** Exactly the segments that are due count one more transmission. */
  lemma FlushCounts(k: State, i: nat)
    requires i < |AdmitAll(k).buf|
    ensures |FlushState(k).snd.buf| == |AdmitAll(k).buf|
    ensures var o, p := AdmitAll(k).buf[i], FlushState(k).snd.buf[i];
      p.xmit == (if Due(k, o) then Wrap(o.xmit + 1) else o.xmit) && (Due(k, o) <==> p.xmit != o.xmit)
  {
    FlushTimers(k, i);
    WrapNext(AdmitAll(k).buf[i].xmit);
    hide AdmitAll, FlushState, Diff, Wrap, Unused;
  }

  lemma WrapNext(x: u32)
    ensures Wrap(x + 1) != x
  {
  }

  // ---------- from one flush to the next ----------

  /** Calls that bring in no datagram and leave the limit of skips alone. */
  predicate Quiet(op: Op) {
    !op.OpInput? && !op.OpNoDelay?
  }

  /** The time does not reach the timer of the segment. */
  predicate Before(op: Op, o: OutSeg) {
    op.OpUpdate? ==> Diff(op.current, o.resendts) < 0
  }

  /** The segment at place i of the window was sent and is not due. */
  ghost predicate Waits(k: State, i: nat, o: OutSeg) {
    && k.cfg.mss > 0 && i < |k.snd.buf| && k.snd.buf[i] == o
    && o.xmit != 0 && Diff(k.current, o.resendts) < 0 && o.fastack < ResendLimit(k)
  }

  lemma {:induction false} AdmitKeepsFront(s: Sender, cwnd: u32, t: Stamp)
    ensures s.buf <= Admit(s, cwnd, t).buf
    decreases |s.queue|
  {
    hide Diff, Wrap;
    if Diff(s.nxt, Wrap(s.una + cwnd)) < 0 && s.queue != [] {
      AdmitKeepsFront(Sender(s.una, Wrap(s.nxt + 1), s.buf + [Fresh(s.queue[0], s.nxt, t)], s.queue[1..]), cwnd, t);
    }
  }

  lemma FrontAdmitted(k: State, i: nat)
    requires i < |k.snd.buf|
    ensures i < |AdmitAll(k).buf| && AdmitAll(k).buf[i] == k.snd.buf[i]
  {
    AdmitKeepsFront(k.snd, WindowSize(k), Stamp(k.current, Unused(k.rcv), k.rcv.nxt, k.rtt.rto));
    hide Admit;
  }

  /** A flush leaves a segment that waits alone. */
  lemma FlushWaits(k: State, i: nat, o: OutSeg)
    requires Waits(k, i, o)
    ensures Waits(FlushState(k), i, o) && !Due(k, o)
  {
    FrontAdmitted(k, i);
    FlushTimers(k, i);
    hide AdmitAll, SweepAll, AfterFlush, ProbeTick, Diff, Unused;
  }

  lemma StepWaits(k: State, op: Op, i: nat, o: OutSeg)
    requires Waits(k, i, o) && Quiet(op) && Before(op, o)
    ensures Waits(Step(k, op), i, o)
  {
    match op {
      case OpFlush => FlushWaits(k, i, o); hide FlushState, Pack, FlushWires, Diff;
      case OpUpdate(now) =>
        ClockKeeps(k, now);
        var k1 := Clock(k, now).0;
        assert Waits(k1, i, o) by { hide Clock, Diff; }
        FlushWaits(k1, i, o);
        hide Clock, FlushState, Pack, FlushWires, Diff;
      case _ => hide AdmitAll, SweepAll, AfterFlush, F.Send, Recv, Diff;
    }
  }

  lemma {:induction false} RunWaits(k: State, ops: seq<Op>, i: nat, o: OutSeg)
    requires Waits(k, i, o) && forall op <- ops :: Quiet(op) && Before(op, o)
    ensures Waits(Run(k, ops), i, o)
    decreases |ops|
  {
    hide Waits, Step, Before, Quiet;
    if ops != [] {
      assert ops[0] in ops;
      assert k.cfg.mss > 0 by { WaitsMss(k, i, o); }
      StepWaits(k, ops[0], i, o);
      RunWaits(Step(k, ops[0]), ops[1..], i, o);
    }
  }

  lemma WaitsMss(k: State, i: nat, o: OutSeg)
    requires Waits(k, i, o)
    ensures k.cfg.mss > 0
  {
  }

  lemma {:induction false} DueIn(k: State, buf: seq<OutSeg>, i: nat)
    requires i < |buf| && Due(k, buf[i])
    ensures buf[i] in DueOf(k, buf)
  {
    hide Due;
    if i > 0 {
      DueIn(k, buf[1..], i - 1);
    }
  }

  /** What is due goes out with this flush. */
  lemma DueGoesOut(k: State, i: nat)
    requires i < |AdmitAll(k).buf| && Due(k, AdmitAll(k).buf[i])
    ensures DataWire(k, AdmitAll(k).buf[i]) in FlushWires(k)
  {
    var buf := AdmitAll(k).buf;
    AnnouncedIs(k);
    DueIn(k, buf, i);
    hide AdmitAll, FlushWires, Due, DueOf, DataWire, Asks, WindowWire;
    var n :| 0 <= n < |DueOf(k, buf)| && DueOf(k, buf)[n] == buf[i];
    assert DataWires(k, DueOf(k, buf))[n] == DataWire(k, buf[i]);
    assert DataWire(k, buf[i]) in DataWires(k, DueOf(k, buf));
  }

  /** A segment whose time is up goes out again and waits longer than before. */
  lemma SentAgain(k: State, i: nat)
    requires i < |k.snd.buf| && TimedOut(k, k.snd.buf[i])
    ensures DataWire(k, k.snd.buf[i]) in FlushWires(k) && i < |FlushState(k).snd.buf|
    ensures var o := k.snd.buf[i];
      var rto := Wrap(o.rto + Backoff(k));
      FlushState(k).snd.buf[i] == Stamped(k, o).(rto := rto, resendts := Wrap(k.current + rto))
  {
    FrontAdmitted(k, i);
    FlushTimers(k, i);
    DueGoesOut(k, i);
    hide AdmitAll, FlushState, FlushWires, Diff, Unused;
  }

  /** A segment that a flush has sent stays untouched, and is in particular not sent again, over any calls without input
      whose times lie before its timer, flushes included; and the first flush at or after that time sends it again. */
  lemma SentOncePerTimeout(k: State, i: nat, ops: seq<Op>, now: u32)
    requires k.cfg.mss > 0 && i < |FlushState(k).snd.buf|
    requires var o := FlushState(k).snd.buf[i];
      && o.xmit != 0 && Diff(k.current, o.resendts) < 0 && o.fastack < ResendLimit(k)
      && (forall op <- ops :: Quiet(op) && Before(op, o))
      && Diff(now, o.resendts) >= 0
    ensures FlushState(k).cfg.mss > 0
    ensures var o, j := FlushState(k).snd.buf[i], Run(FlushState(k), ops);
      && i < |j.snd.buf| && j.snd.buf[i] == o && !Due(j, o)
      && var l := j.(current := now);
         DataWire(l, o) in FlushWires(l) && i < |FlushState(l).snd.buf|
         && var rto := Wrap(o.rto + Backoff(l));
            FlushState(l).snd.buf[i] == Stamped(l, o).(rto := rto, resendts := Wrap(now + rto))
  {
    var o := FlushState(k).snd.buf[i];
    FlushFrames(k);
    assert Waits(FlushState(k), i, o) by { hide FlushState, Diff; }
    hide FlushState, Run, Diff, Unused, FlushWires, Wrap, Waits, Quiet, Before;
    RunWaits(FlushState(k), ops, i, o);
    WaitEnds(Run(FlushState(k), ops), i, o, now);
  }

  /** The state up to the time of the timer, and the flush at that time. */
  lemma WaitEnds(j: State, i: nat, o: OutSeg, now: u32)
    requires Waits(j, i, o) && Diff(now, o.resendts) >= 0
    ensures i < |j.snd.buf| && j.snd.buf[i] == o && !Due(j, o)
    ensures var l := j.(current := now);
      && DataWire(l, o) in FlushWires(l) && i < |FlushState(l).snd.buf|
      && var rto := Wrap(o.rto + Backoff(l));
         FlushState(l).snd.buf[i] == Stamped(l, o).(rto := rto, resendts := Wrap(now + rto))
  {
    hide FlushState, Diff, Unused, FlushWires, Wrap;
    SentAgain(j.(current := now), i);
  }

  /** After a first transmission the timer lies ahead by the timeout and the grace, after a repetition by the new timeout,
      and after a fast resend by the old one. */
  lemma TimerAhead(k: State, i: nat)
    requires i < |AdmitAll(k).buf| && Due(k, AdmitAll(k).buf[i])
    ensures |FlushState(k).snd.buf| == |AdmitAll(k).buf|
    ensures var o, p := AdmitAll(k).buf[i], FlushState(k).snd.buf[i];
      var wait := if Unsent(o) then p.rto + Grace(k) else p.rto;
      wait < 0x8000_0000 ==> Diff(p.resendts, k.current) == wait && Diff(k.current, p.resendts) == -wait
  {
    FlushTimers(k, i);
    var o, p := AdmitAll(k).buf[i], FlushState(k).snd.buf[i];
    var wait := if Unsent(o) then p.rto + Grace(k) else p.rto;
    hide AdmitAll, FlushState, Unused, Due;
    assert p.resendts == Wrap(k.current + wait) by { hide Diff, Wrap; assert Due(k, o); DueKinds(k, o); }
    if wait < 0x8000_0000 {
      WrapSmall(k.current);
      DiffExact(k.current + wait, k.current);
      DiffExact(k.current, k.current + wait);
    }
  }

  lemma DueKinds(k: State, o: OutSeg)
    requires Due(k, o)
    ensures Unsent(o) || TimedOut(k, o) || Skipped(k, o)
  {
  }

  lemma FlushFrames(k: State)
    ensures FlushState(k).cfg == k.cfg && FlushState(k).current == k.current
  {
    hide AdmitAll, SweepAll, AfterFlush, ProbeTick, TickOf;
  }
}
