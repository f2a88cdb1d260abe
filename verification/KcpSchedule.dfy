/** When to flush: ikcp_update keeps ts_flush ahead of the clock, and ikcp_check tells how long the caller
    may stay away. Times are 32-bit milliseconds that wrap. */
module KcpSchedule {
  import opened Numbers
  import opened KcpWire
  import opened KcpSender
  import opened KcpEngine

  lemma DiffNegates(x: u32, y: u32)
    requires Diff(x, y) != -0x8000_0000
    ensures Diff(y, x) == -Diff(x, y)
  {
  }

  lemma WrapSigned(x: int)
    ensures Wrap(Signed(x)) == Wrap(x)
  {
  }

  lemma SignedIs(x: int, s: int)
    requires Wrap(x) == Wrap(s) && -0x8000_0000 <= s < 0x8000_0000
    ensures Signed(x) == s
  {
  }

  lemma DiffPlus(now: u32, x: u32, d: int)
    requires -0x8000_0000 <= Diff(x, now) - d < 0x8000_0000
    ensures Diff(x, Wrap(now + d)) == Diff(x, now) - d
  {
    WrapSmall(x);
    hide Wrap, Signed;
    WrapSub(x, now + d);
    WrapAdd(x - now, -d);
    assert x - (now + d) == (x - now) + (-d);
    WrapSigned(x - now);
    WrapAdd(Signed(x - now), -d);
    SignedIs(x - Wrap(now + d), Signed(x - now) - d);
  }

  lemma DiffAhead(now: u32, d: int)
    requires -0x8000_0000 <= d < 0x8000_0000
    ensures Diff(Wrap(now + d), now) == d
  {
    WrapAdd(now + d, -(now as int));
  }

  /** After every ikcp_update the next flush lies strictly ahead, by at most the interval or ten seconds. */
  lemma UpdateSchedules(k: State, now: u32)
    requires 0 < k.cfg.interval <= 0x1000_0000
    ensures 0 < Diff(Update(k, now).state.tsFlush, now) <= Max(k.cfg.interval, 10000)
    ensures Update(k, now).state.updated && Update(k, now).state.current == now
  {
    hide Flush;
    var ts0 := if k.updated then k.tsFlush else now;
    var late := Diff(now, ts0);
    var k1 := Clock(k, now).0;
    assert Update(k, now).state.tsFlush == k1.tsFlush by { FlushTime(k1); }
    assert Update(k, now).state.updated && Update(k, now).state.current == now by { FlushTime(k1); }
    if late < 0 && late >= -10000 {
      DiffNegates(now, ts0);
      hide Diff;
    } else {
      var reset := late >= 10000 || late < -10000;
      var ts1 := if reset then now else ts0;
      var slap := if reset then 0 else late;
      assert Diff(now, ts1) == slap by { DiffAhead(now, 0); WrapSmall(now); }
      DiffPlus(ts1, now, k.cfg.interval);
      DiffAhead(now, k.cfg.interval);
      DiffNegates(now, Wrap(ts1 + k.cfg.interval));
      hide Diff;
    }
  }

  lemma FlushTime(k: State)
    ensures Flush(k).state.tsFlush == k.tsFlush && Flush(k).state.updated == k.updated && Flush(k).state.current == k.current
  {
    hide AdmitAll, SweepAll, AckWires, ProbeWires;
  }

  predicate Due(o: OutSeg, now: u32) {
    Diff(o.resendts, now) <= 0
  }

  lemma {:induction false} NearestIs(buf: seq<OutSeg>, now: u32, best: int)
    requires best > 0
    ensures Nearest(buf, now, best) == 0 <==> exists o :: o in buf && Due(o, now)
    ensures 0 <= Nearest(buf, now, best) <= best
    ensures Nearest(buf, now, best) > 0 ==> forall o <- buf :: Nearest(buf, now, best) <= Diff(o.resendts, now)
    ensures 0 < Nearest(buf, now, best) < best ==> exists o :: o in buf && Diff(o.resendts, now) == Nearest(buf, now, best)
    decreases |buf|
  {
    hide Diff;
    if buf != [] {
      assert buf == [buf[0]] + buf[1..];
      assert forall o :: o in buf <==> o == buf[0] || o in buf[1..];
      if !Due(buf[0], now) {
        NearestIs(buf[1..], now, Min(best, Diff(buf[0].resendts, now)));
      }
    }
  }

  /** Whether the next flush lies within the ten seconds that ikcp_update would wait for it. */
  predicate Pending(k: State, now: u32) {
    -10000 <= Diff(now, k.tsFlush) < 0
  }

  /** The time ikcp_check returns is at most one interval away, and is the earliest of: one interval, the next
      flush, the next retransmission. */
  lemma CheckIsEarliest(k: State, now: u32)
    requires k.updated && 0 < k.cfg.interval <= 0x1000_0000
    ensures 0 <= Diff(Check(k, now), now) <= k.cfg.interval
    ensures Check(k, now) == now <==> !Pending(k, now) || exists o :: o in k.snd.buf && Due(o, now)
    ensures Pending(k, now) ==> Diff(Check(k, now), now) <= Diff(k.tsFlush, now)
    ensures forall o <- k.snd.buf :: Diff(o.resendts, now) > 0 ==> Diff(Check(k, now), now) <= Diff(o.resendts, now)
    ensures Check(k, now) != now ==>
      || Diff(Check(k, now), now) == k.cfg.interval
      || Diff(Check(k, now), now) == Diff(k.tsFlush, now)
      || exists o :: o in k.snd.buf && Diff(o.resendts, now) == Diff(Check(k, now), now)
  {
    DiffAhead(now, 0);
    WrapSmall(now);
    NearestIs(k.snd.buf, now, 0x7FFF_FFFF);
    if Pending(k, now) {
      DiffNegates(now, k.tsFlush);
      var packet := Nearest(k.snd.buf, now, 0x7FFF_FFFF);
      var wait := Min(Min(packet, Diff(k.tsFlush, now)), k.cfg.interval);
      hide Nearest, Diff;
      DiffAhead(now, wait);
    }
    hide Nearest, Diff;
  }

  /** Calling ikcp_update before the time ikcp_check returned only moves the clock: nothing is flushed. */
  lemma CheckIsSafe(k: State, now: u32, d: nat)
    requires k.updated && 0 < k.cfg.interval <= 0x1000_0000
    requires d < Diff(Check(k, now), now)
    ensures Update(k, Wrap(now + d)) == Flushed(k.(current := Wrap(now + d)), [])
  {
    CheckIsEarliest(k, now);
    DiffAhead(now, 0);
    WrapSmall(now);
    assert Pending(k, now);
    DiffNegates(now, k.tsFlush);
    DiffPlus(now, k.tsFlush, d);
    DiffNegates(k.tsFlush, Wrap(now + d));
    hide Check, Flush, Diff;
  }

  // ---------- when it flushes ----------

  /** The flush time has come, or is so far away in either direction that it is given up. */
  predicate FlushDue(k: State, now: u32) {
    !k.updated || Diff(now, k.tsFlush) >= 0 || Diff(now, k.tsFlush) < -10000
  }

  /** ikcp_update flushes, with the new clock, exactly when the flush time has come or is out of reach; otherwise it only
      moves the clock. */
  lemma UpdateFlushes(k: State, now: u32)
    ensures Clock(k, now).0 == k.(current := now, updated := true, tsFlush := Clock(k, now).0.tsFlush)
    ensures FlushDue(k, now) ==>
      Update(k, now) == Flushed(FlushState(Clock(k, now).0), Pack(k.cfg.conv, k.cfg.mtu, FlushWires(Clock(k, now).0)))
    ensures !FlushDue(k, now) ==> Update(k, now) == Flushed(k.(current := now), [])
  {
    assert Diff(now, now) == 0;
    hide FlushState, FlushWires, Pack, Diff;
  }

  /** The flush times keep their beat: the next one is an interval after the last, unless that is past too, or the last was
      out of reach; then it is an interval from now. */
  lemma NextFlushTime(k: State, now: u32)
    requires 0 < k.cfg.interval <= 0x1000_0000 && FlushDue(k, now)
    ensures var late := Diff(now, k.tsFlush);
      Update(k, now).state.tsFlush ==
        if k.updated && 0 <= late < 10000 && late < k.cfg.interval then Wrap(k.tsFlush + k.cfg.interval)
        else Wrap(now + k.cfg.interval)
  {
    FlushTime(Clock(k, now).0);
    var late := Diff(now, k.tsFlush);
    assert Diff(now, now) == 0;
    hide Flush;
    if k.updated && 0 <= late < 10000 {
      DiffPlus(k.tsFlush, now, k.cfg.interval);
    } else {
      DiffPlus(now, now, k.cfg.interval);
    }
    hide Diff, Wrap;
  }

  /** Following ikcp_check: an update at the time it returned flushes exactly when nothing is to be waited for or that time
      is the flush time. Otherwise the time was that of a retransmission, or one interval, and nothing is sent then. */
  lemma CheckFlushes(k: State, now: u32)
    requires k.updated && 0 < k.cfg.interval <= 0x1000_0000
    ensures FlushDue(k, Check(k, now)) <==> !Pending(k, now) || Check(k, now) == k.tsFlush
    ensures !Pending(k, now) ==> Check(k, now) == now
  {
    CheckIsEarliest(k, now);
    if Pending(k, now) {
      var d := Diff(Check(k, now), now);
      DiffNegates(now, k.tsFlush);
      assert Check(k, now) == Wrap(now + d) by { DiffBack(now, Check(k, now)); }
      DiffPlus(now, k.tsFlush, d);
      DiffNegates(k.tsFlush, Check(k, now));
      DiffZero(k.tsFlush, Check(k, now));
      hide Check, Diff, Wrap;
    } else {
      hide Check;
    }
  }

  lemma DiffBack(now: u32, x: u32)
    ensures x == Wrap(now + Diff(x, now))
  {
    WrapSmall(x);
    WrapAdd(Signed(x - now), now);
    WrapSigned(x - now);
    WrapAdd(x - now, now);
  }

  lemma DiffZero(x: u32, y: u32)
    ensures Diff(x, y) == 0 <==> x == y
  {
  }

  /** A segment can be due before the flush time: ikcp_check then says to come at once, and ikcp_update does nothing. */
  lemma CheckTooEarly(k: State, now: u32)
    requires k.updated && 0 < k.cfg.interval <= 0x1000_0000 && Pending(k, now) && exists o :: o in k.snd.buf && Due(o, now)
    ensures Check(k, now) == now && Update(k, Check(k, now)) == Flushed(k.(current := now), [])
  {
    CheckIsEarliest(k, now);
    UpdateFlushes(k, now);
    hide Check, Update, Diff, Due;
  }

  /** Updates before the flush time, one after the other, and one at or after it: the first ones only move the clock, and
      the last one flushes. */
  lemma {:induction false} FirstDueFlushes(k: State, times: seq<u32>, now: u32)
    requires k.updated && FlushDue(k, now)
    requires forall t <- times :: !FlushDue(k, t)
    ensures var j := UpdateAll(k, times);
      && j == k.(current := j.current)
      && Update(j, now) == Flush(Clock(k, now).0) && Clock(k, now).0.updated
    decreases |times|
  {
    hide FlushDue, Update, Clock, Flush;
    if times == [] {
      UpdateIsFlush(k, now);
    } else {
      var t := times[0];
      assert t in times;
      UpdateFlushes(k, t);
      var k1 := k.(current := t);
      assert forall u :: FlushDue(k1, u) <==> FlushDue(k, u) by { SameDue(k, t); }
      FirstDueFlushes(k1, times[1..], now);
      SameClock(k, t, now);
    }
  }

  lemma UpdateIsFlush(k: State, now: u32)
    requires FlushDue(k, now)
    ensures Update(k, now) == Flush(Clock(k, now).0) && Clock(k, now).0.updated
  {
    UpdateFlushes(k, now);
    hide FlushState, FlushWires, Pack, NextFlush, FlushDue;
  }

  lemma SameDue(k: State, t: u32)
    ensures forall u :: FlushDue(k.(current := t), u) <==> FlushDue(k, u)
  {
  }

  lemma SameClock(k: State, t: u32, now: u32)
    ensures Clock(k.(current := t), now) == Clock(k, now)
  {
    hide NextFlush;
  }

  function UpdateAll(k: State, times: seq<u32>): State
    decreases |times|
  {
    if times == [] then k else UpdateAll(Update(k, times[0]).state, times[1..])
  }
}
