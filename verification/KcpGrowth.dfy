/** When and by how much the congestion window grows. */
module KcpGrowth {
  import opened Numbers
  import opened LittleEndian
  import opened KcpWire
  import opened KcpSender
  import opened KcpReceiver
  import opened KcpControl
  import opened KcpEngine
  import opened KcpRuns

  // ---------- one step ----------

  lemma SlowIs(c: Congestion, mss: u32, rmtWnd: u32)
    requires 0 < mss <= 0xFFFF && rmtWnd <= 0xFFFF && CongestionOk(c, mss) && c.cwnd < rmtWnd && c.cwnd < c.ssthresh
    ensures var d := Grow(c, mss, rmtWnd);
      d.cwnd as int == c.cwnd + 1 && d.incr as int == c.incr + mss && d.ssthresh == c.ssthresh
  {
    assert (c.cwnd + 2) * mss == (c.cwnd + 1) * mss + mss;
    MulMono(c.cwnd + 2, 0x1_0000, mss);
    MulMono(mss, 0xFFFF, 0x1_0000);
    WrapSmall(c.cwnd + 1);
    WrapSmall(c.incr + mss);
    hide Wrap;
  }

  lemma Square(mss: u32)
    requires mss <= 0xFFFF
    ensures Wrap(mss * mss) == mss * mss
  {
    MulMono(mss, 0xFFFF, mss);
    MulMono(mss, 0xFFFF, 0xFFFF);
    WrapSmall(mss * mss);
  }

  lemma SumSmall(w: nat, m: nat, i: nat, q: nat)
    requires w < 0xFFFF && m <= 0xFFFF && i < (w + 1) * m && q < m
    ensures i + q < 0x1_0000_0000
  {
    MulMono(w + 1, 0xFFFF, m);
    MulMono(m, 0xFFFF, 0xFFFF);
  }

  lemma AvoidanceSum(c: Congestion, mss: u32)
    requires 0 < mss <= 0xFFFF && CongestionOk(c, mss) && c.ssthresh <= c.cwnd < 0xFFFF
    ensures mss <= c.incr && Wrap(mss * mss) == mss * mss
    ensures mss * mss / c.incr >= 0
    ensures Wrap(c.incr + mss * mss / c.incr + mss / 16) == c.incr + mss * mss / c.incr + mss / 16
  {
    AvoidanceStep(c, mss);
    Square(mss);
    IncrBelow(c, mss);
    hide Wrap, CongestionOk;
    var s := mss * mss;
    Share(s, c.incr);
    SumSmall(c.cwnd, mss, c.incr, s / c.incr + mss / 16);
    WrapSmall(c.incr + s / c.incr + mss / 16);
  }

  lemma Share(x: nat, d: nat)
    requires d > 0
    ensures x / d >= 0
  {
  }

  lemma IncrBelow(c: Congestion, mss: u32)
    requires CongestionOk(c, mss)
    ensures c.cwnd * mss <= c.incr < (c.cwnd + 1) * mss
  {
  }

  lemma AvoidanceIs(c: Congestion, mss: u32, rmtWnd: u32)
    requires 0 < mss <= 0xFFFF && rmtWnd <= 0xFFFF && CongestionOk(c, mss) && c.ssthresh <= c.cwnd < rmtWnd
    ensures var d := Grow(c, mss, rmtWnd);
      && c.incr > 0 && mss * mss / c.incr >= 0 && d.incr as int == c.incr + mss * mss / c.incr + mss / 16
      && d.cwnd as int == d.incr / mss && d.ssthresh == c.ssthresh
  {
    AvoidanceSum(c, mss);
    GrowKeeps(c, mss, rmtWnd);
    var d := Grow(c, mss, rmtWnd);
    IncrBelow(d, mss);
    WrapSmall(c.cwnd + 1);
    hide Wrap, CongestionOk;
    assert d.incr as int == c.incr + mss * mss / c.incr + mss / 16;
    QuotientIs(d.incr, mss, d.cwnd);
  }

  lemma QuotientIs(x: nat, d: nat, q: nat)
    requires d > 0 && q * d <= x < (q + 1) * d
    ensures x / d == q
  {
    var r := x / d;
    assert x == r * d + x % d;
    assert (r + 1) * d == r * d + d;
    if r < q { MulMono(r + 1, q, d); }
    if r > q { MulMono(q + 1, r, d); }
  }

  /** The congestion window afterwards, without machine words: below the threshold one segment more; from there on the
      byte count grows by the square of the segment size over itself and a sixteenth of a segment, and the window is as
      many full segments as that makes; and never beyond the peer's window. */
  lemma GrowIs(c: Congestion, mss: u32, rmtWnd: u32)
    requires 0 < mss <= 0xFFFF && rmtWnd <= 0xFFFF && CongestionOk(c, mss)
    ensures var d := Grow(c, mss, rmtWnd);
      if c.cwnd >= rmtWnd then d == c
      else if c.cwnd < c.ssthresh then
        d.cwnd as int == c.cwnd + 1 && d.incr as int == c.incr + mss && d.ssthresh == c.ssthresh
      else
        && c.incr > 0 && d.incr as int == c.incr + mss * mss / c.incr + mss / 16
        && d.cwnd as int == d.incr / mss && d.ssthresh == c.ssthresh
  {
    if c.cwnd < rmtWnd {
      if c.cwnd < c.ssthresh {
        SlowIs(c, mss, rmtWnd);
      } else {
        AvoidanceIs(c, mss, rmtWnd);
      }
      hide Grow, CongestionOk;
    }
  }

  // ---------- within ikcp_input ----------

  /** A datagram lets the window grow, by this rule and once, exactly when it ends without error and has moved snd_una; in
      all other cases the window stays as it is. */
  lemma InputGrows(k: State, b: Bytes)
    requires EndpointOk(k)
    ensures var p, j := Parse(k.cfg.conv, b), Input(k, b).state;
      j.cc == if |b| >= OVERHEAD && p.code == 0 && j.snd.una != k.snd.una then Grow(k.cc, k.cfg.mss, j.rmtWnd) else k.cc
  {
    var p := Parse(k.cfg.conv, b);
    InputKeeps(k, b);
    OnWiresConfig(k, p.ws);
    OnWiresCc(k, p.ws);
    UnaMoves(k.snd.una, Input(k, b).state.snd.una);
    assert InFlight(k.snd) <= 0xFFFF;
    hide Parse, OnWires, CollectAll, FastAck, Grow, Diff, EndpointOk, Dist, InFlight;
    assert forall s: Sender, n: u32 :: FastAck(s, n).una == s.una by { FastAckUna(); }
  }

  lemma FastAckUna()
    ensures forall s: Sender, n: u32 :: FastAck(s, n).una == s.una
  {
    hide CountSkips, Outside;
  }

  lemma UnaMoves(from: u32, to: u32)
    ensures Dist(from, to) <= 0xFFFF ==> (Diff(to, from) > 0 <==> to != from)
  {
  }

  // ---------- many steps ----------

  function GrowTimes(c: Congestion, mss: u32, rmtWnd: u32, n: nat): Congestion
    requires mss > 0
  {
    if n == 0 then c else Grow(GrowTimes(c, mss, rmtWnd, n - 1), mss, rmtWnd)
  }

  lemma GrowAdds(c: Congestion, mss: u32, rmtWnd: u32)
    requires 0 < mss <= 0xFFFF && rmtWnd <= 0xFFFF && CongestionOk(c, mss)
    ensures var d := Grow(c, mss, rmtWnd);
      CongestionOk(d, mss) && d.cwnd >= c.cwnd && (d.cwnd == c.cwnd < rmtWnd ==> d.incr >= c.incr + mss / 16)
  {
    GrowKeeps(c, mss, rmtWnd);
    if c.cwnd < rmtWnd {
      if c.cwnd < c.ssthresh { SlowIs(c, mss, rmtWnd); } else { AvoidanceIs(c, mss, rmtWnd); }
    }
    hide Grow, CongestionOk;
  }

  lemma {:induction false} GrowTimesAdd(c: Congestion, mss: u32, rmtWnd: u32, n: nat, step: nat)
    requires 0 < mss <= 0xFFFF && c.cwnd < rmtWnd <= 0xFFFF && CongestionOk(c, mss) && step == mss / 16
    ensures var d := GrowTimes(c, mss, rmtWnd, n);
      CongestionOk(d, mss) && d.cwnd >= c.cwnd && (d.cwnd == c.cwnd ==> d.incr >= c.incr + n * step)
  {
    if n > 0 {
      var b := GrowTimes(c, mss, rmtWnd, n - 1);
      GrowTimesAdd(c, mss, rmtWnd, n - 1, step);
      GrowAdds(b, mss, rmtWnd);
      assert n * step == (n - 1) * step + step;
      hide CongestionOk, Grow;
    }
  }

  lemma OneMore(w: nat, mss: nat, a: nat, b: nat)
    requires w * mss <= a && a + mss <= b
    ensures (w + 1) * mss <= b
  {
  }

  /** A window below the peer's does grow: after at most 32 datagrams that move snd_una it is larger. */
  lemma WindowGrows(c: Congestion, mss: u32, rmtWnd: u32)
    requires 16 <= mss <= 0xFFFF && c.cwnd < rmtWnd <= 0xFFFF && CongestionOk(c, mss)
    ensures GrowTimes(c, mss, rmtWnd, 32).cwnd > c.cwnd
  {
    var d := GrowTimes(c, mss, rmtWnd, 32);
    hide GrowTimes, CongestionOk;
    GrowTimesAdd(c, mss, rmtWnd, 32, mss / 16);
    Sixteenths(mss);
    StaysBelow(c, d, mss);
  }

  lemma Sixteenths(mss: nat)
    requires mss >= 16
    ensures 32 * (mss / 16) >= mss
  {
  }

  lemma StaysBelow(c: Congestion, d: Congestion, mss: u32)
    requires CongestionOk(c, mss) && CongestionOk(d, mss)
    ensures d.cwnd == c.cwnd ==> d.incr < c.incr + mss
  {
    if d.cwnd == c.cwnd && d.incr >= c.incr + mss {
      OneMore(c.cwnd, mss, c.incr, d.incr);
    }
  }
}
