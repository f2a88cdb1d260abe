/** Round-trip estimation, the congestion window, window probing and flush timing: the parts of a control block
    that decide when and how much to send, never what. All stored words wrap as in the C code. */
module KcpControl {
  import opened Numbers

  const RTO_MAX: u32 := 60000
  const THRESH_MIN: u32 := 2
  const PROBE_INIT: u32 := 7000
  const PROBE_LIMIT: u32 := 120000

  // ---------- round-trip time (ikcp_update_ack) ----------

  datatype Rtt = Rtt(srtt: int, rttval: int, rto: u32)

  /** C division: toward zero. */
  function Quot(a: int, b: int): int
    requires b > 0
  {
    if a >= 0 then a / b else -((-a) / b)
  }

  function Magnitude(x: int): int {
    if x < 0 then Signed(-x) else x
  }

  /** The smoothed values for one sample; sums are 32-bit signed. */
  function Smooth(r: Rtt, sample: int): (int, int) {
    if r.srtt == 0 then (sample, Quot(sample, 2))
    else
      var delta := Magnitude(Signed(sample - r.srtt));
      var val := Quot(Signed(3 * r.rttval + delta), 4);
      var s := Quot(Signed(7 * r.srtt + sample), 8);
      (if s < 1 then 1 else s, val)
  }

  function Bound(lower: u32, middle: u32, upper: u32): u32 {
    Min(Max(lower, middle), upper)
  }

  function UpdateRtt(r: Rtt, interval: u32, minrto: u32, sample: int): Rtt {
    var (s, v) := Smooth(r, sample);
    Rtt(s, v, Bound(minrto, Wrap(s + Max(interval, Wrap(4 * v))), RTO_MAX))
  }

  function UpdateAll(r: Rtt, interval: u32, minrto: u32, samples: seq<int>): Rtt {
    if samples == [] then r
    else UpdateRtt(UpdateAll(r, interval, minrto, samples[..|samples| - 1]), interval, minrto, samples[|samples| - 1])
  }

  /** The estimator without machine words: what the formulas are meant to compute. */
  function Ideal(r: Rtt, sample: nat): (int, int)
    requires r.srtt >= 0 && r.rttval >= 0
  {
    if r.srtt == 0 then (sample, sample / 2)
    else (Max(1, (7 * r.srtt + sample) / 8), (3 * r.rttval + (if sample < r.srtt then r.srtt - sample else sample - r.srtt)) / 4)
  }

  lemma SmoothIsIdeal(r: Rtt, sample: nat, limit: nat)
    requires 1 <= limit < 0x1000_0000
    requires 0 <= r.srtt <= limit && 0 <= r.rttval <= limit && sample <= limit
    ensures Smooth(r, sample) == Ideal(r, sample)
    ensures 0 <= Smooth(r, sample).0 <= limit && 0 <= Smooth(r, sample).1 <= limit
  {
    hide Signed;
    if r.srtt != 0 {
      var gap := sample - r.srtt;
      SignedSmall(gap);
      SignedSmall(-gap);
      var delta := if gap < 0 then -gap else gap;
      assert Magnitude(Signed(gap)) == delta;
      SignedSmall(3 * r.rttval + delta);
      SignedSmall(7 * r.srtt + sample);
      assert 0 <= (3 * r.rttval + delta) / 4 <= limit;
      assert 0 <= (7 * r.srtt + sample) / 8 <= limit;
    }
  }

  lemma SignedSmall(x: int)
    requires -0x8000_0000 <= x < 0x8000_0000
    ensures Signed(x) == x
  {
  }

  /** The sum that gives the timeout does not overflow either, for an interval of up to 2^30 milliseconds. */
  lemma TimeoutIsIdeal(r: Rtt, interval: u32, minrto: u32, sample: nat, limit: nat)
    requires 1 <= limit < 0x1000_0000 && interval <= 0x4000_0000
    requires 0 <= r.srtt <= limit && 0 <= r.rttval <= limit && sample <= limit
    ensures var (s, v) := Ideal(r, sample);
      && s + Max(interval, 4 * v) < 0x8000_0000
      && UpdateRtt(r, interval, minrto, sample) == Rtt(s, v, Min(Max(minrto, s + Max(interval, 4 * v)), RTO_MAX))
  {
    SmoothIsIdeal(r, sample, limit);
    var (s, v) := Ideal(r, sample);
    hide Smooth, Ideal;
    WrapSmall(4 * v);
    WrapSmall(s + Max(interval, 4 * v));
  }

  /** With samples in [0, limit] no 32-bit sum overflows over any series of acknowledgements, the smoothed values stay
      within the limit, and every timeout is the one the formula means, between the minimum and 60 seconds. */
  lemma {:induction false} RttBounds(r: Rtt, interval: u32, minrto: u32, samples: seq<int>, limit: nat)
    requires 1 <= limit < 0x1000_0000 && minrto <= RTO_MAX
    requires 0 <= r.srtt <= limit && 0 <= r.rttval <= limit
    requires forall x <- samples :: 0 <= x <= limit
    ensures var e := UpdateAll(r, interval, minrto, samples);
      && 0 <= e.srtt <= limit && 0 <= e.rttval <= limit
      && (samples != [] ==> minrto <= e.rto <= RTO_MAX)
    ensures samples != [] ==>
      var before := UpdateAll(r, interval, minrto, samples[..|samples| - 1]);
      && before.srtt >= 0 && before.rttval >= 0
      && samples[|samples| - 1] >= 0
      && (var e := UpdateAll(r, interval, minrto, samples);
          (e.srtt, e.rttval) == Ideal(before, samples[|samples| - 1]))
    ensures samples != [] && interval <= 0x4000_0000 ==>
      var e := UpdateAll(r, interval, minrto, samples);
      && e.srtt + Max(interval, 4 * e.rttval) < 0x8000_0000
      && e.rto == Min(Max(minrto, e.srtt + Max(interval, 4 * e.rttval)), RTO_MAX)
  {
    if samples != [] {
      var n := |samples| - 1;
      assert samples[n] in samples;
      assert forall x <- samples[..n] :: x in samples;
      RttBounds(r, interval, minrto, samples[..n], limit);
      var before := UpdateAll(r, interval, minrto, samples[..n]);
      SmoothIsIdeal(before, samples[n], limit);
      if interval <= 0x4000_0000 {
        TimeoutIsIdeal(before, interval, minrto, samples[n], limit);
      }
      hide Smooth, Ideal;
    }
  }

  // ---------- congestion window ----------

  datatype Congestion = Congestion(cwnd: u32, ssthresh: u32, incr: u32)

  /** The end of ikcp_input, when snd_una has moved. */
  function Grow(c: Congestion, mss: u32, rmtWnd: u32): Congestion
    requires mss > 0
  {
    if c.cwnd >= rmtWnd then c
    else
      var d :=
        if c.cwnd < c.ssthresh then c.(cwnd := Wrap(c.cwnd + 1), incr := Wrap(c.incr + mss))
        else
          var i: u32 := Max(c.incr, mss);
          var j := Wrap(i + Wrap(mss * mss) / i + mss / 16);
          c.(cwnd := if Wrap(Wrap(c.cwnd + 1) * mss) <= j then Wrap(c.cwnd + 1) else c.cwnd, incr := j);
      if d.cwnd > rmtWnd then d.(cwnd := rmtWnd, incr := Wrap(rmtWnd * mss)) else d
  }

  /** The end of ikcp_flush: a fast resend, a timeout, or neither. */
  function AfterFlush(c: Congestion, mss: u32, change: bool, lost: bool, inflight: u32, resent: u32, cwndUsed: u32): Congestion {
    var c1 :=
      if change then
        var t: u32 := Max(inflight / 2, THRESH_MIN);
        var w := Wrap(t + resent);
        Congestion(w, t, Wrap(w * mss))
      else c;
    var c2 := if lost then Congestion(1, Max(cwndUsed / 2, THRESH_MIN), mss) else c1;
    if c2.cwnd < 1 then c2.(cwnd := 1, incr := mss) else c2
  }

  /** incr counts the window in bytes: it always lies in the cwnd-th full segment. */
  ghost predicate CongestionOk(c: Congestion, mss: u32) {
    c.cwnd * mss <= c.incr < (c.cwnd + 1) * mss && c.ssthresh >= THRESH_MIN
  }

  /** The increment of congestion avoidance is less than a segment, and the division sees incr >= mss. */
  lemma AvoidanceStep(c: Congestion, mss: u32)
    requires 0 < mss <= 0xFFFF && CongestionOk(c, mss) && c.ssthresh <= c.cwnd < 0xFFFF
    ensures mss <= c.incr
    ensures 0 <= Wrap(mss * mss) / c.incr + mss / 16 < mss
  {
    assert mss * mss <= 0xFFFF * 0xFFFF by { MulMono(mss, 0xFFFF, mss); MulMono(mss, 0xFFFF, 0xFFFF); }
    WrapSmall(mss * mss);
    MulMono(2, c.cwnd, mss);
    assert c.incr >= 2 * mss;
    HalfQuotient(mss, c.incr);
  }

  lemma HalfQuotient(m: nat, i: nat)
    requires 0 < m && 2 * m <= i
    ensures m * m / i <= m / 2
  {
    var q := m * m / i;
    assert q * i <= m * m by { assert m * m == q * i + m * m % i; }
    MulMono(2 * m, i, q);
    assert q * (2 * m) == 2 * q * m;
    Cancel(2 * q, m, m);
  }

  lemma Cancel(a: nat, b: nat, d: nat)
    requires 0 < d && a * d <= b * d
    ensures a <= b
  {
    assert (b + 1) * d == b * d + d;
    if a > b {
      MulMono(b + 1, a, d);
    }
  }

  lemma GrowKeeps(c: Congestion, mss: u32, rmtWnd: u32)
    requires 0 < mss <= 0xFFFF && rmtWnd <= 0xFFFF && CongestionOk(c, mss)
    ensures CongestionOk(Grow(c, mss, rmtWnd), mss)
    ensures c.cwnd <= Grow(c, mss, rmtWnd).cwnd <= c.cwnd + 1
    ensures Grow(c, mss, rmtWnd).cwnd <= Max(c.cwnd, rmtWnd)
  {
    if c.cwnd < rmtWnd {
      var n := c.cwnd + 1;
      assert (c.cwnd + 1) * mss == c.cwnd * mss + mss;
      assert (c.cwnd + 2) * mss == c.cwnd * mss + mss + mss;
      MulMono(c.cwnd + 2, 0x1_0000, mss);
      MulMono(mss, 0xFFFF, 0x1_0000);
      WrapSmall(c.cwnd + 1);
      WrapSmall(c.incr + mss);
      WrapSmall((c.cwnd + 1) * mss);
      if c.cwnd >= c.ssthresh {
        AvoidanceStep(c, mss);
        WrapSmall(c.incr + Wrap(mss * mss) / c.incr + mss / 16);
      }
      hide Wrap;
    }
  }

  lemma AfterFlushKeeps(c: Congestion, mss: u32, change: bool, lost: bool, inflight: u32, resent: u32, cwndUsed: u32)
    requires 0 < mss <= 0xFFFF && CongestionOk(c, mss)
    requires inflight <= 0xFFFF && (resent <= 0x8000 || resent == 0xFFFF_FFFF)
    ensures CongestionOk(AfterFlush(c, mss, change, lost, inflight, resent, cwndUsed), mss)
    ensures AfterFlush(c, mss, change, lost, inflight, resent, cwndUsed).cwnd >= 1
  {
    if change {
      var t: u32 := Max(inflight / 2, THRESH_MIN);
      var w := Wrap(t + resent);
      assert 1 <= w <= 0xFFFF;
      hide Wrap;
      MulMono(w, 0xFFFF, mss);
      MulMono(mss, 0xFFFF, 0xFFFF);
      WrapSmall(w * mss);
      assert (w + 1) * mss == w * mss + mss;
    }
    hide Wrap;
  }
}
