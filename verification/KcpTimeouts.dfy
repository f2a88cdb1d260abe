/** The round-trip estimator of a control block over every run: what acknowledgements with samples within a limit
    make of the smoothed values and the timeout. */
module KcpTimeouts {
  import opened Numbers
  import opened LittleEndian
  import opened KcpWire
  import opened KcpSender
  import opened KcpReceiver
  import opened KcpControl
  import opened KcpEngine
  import opened KcpRuns
  import F = KcpFragments

  /** The estimates are within the limit, the timeout between `least`, but at most 30 milliseconds, and a minute. */
  predicate Estimates(r: Rtt, limit: nat, least: u32) {
    0 <= r.srtt <= limit && 0 <= r.rttval <= limit && Min(least, 30) <= r.rto <= 60000
  }

  /** The ranges in which the settings keep the interval and the least timeout, which may have been set from outside. */
  predicate SettingsOk(c: Config, least: u32) {
    c.mss > 0 && 10 <= c.interval <= 5000 && (c.minrto == 30 || c.minrto == 100 || c.minrto == least)
  }

  /** The age of the packet an acknowledgement speaks of, as the control block reckons it. */
  function Sample(current: u32, w: Wire): int {
    Diff(current, w.ts)
  }

  predicate SampleWithin(current: u32, w: Wire, limit: nat) {
    w.cmd == CMD_ACK ==> Sample(current, w) <= limit
  }

  /** One acknowledgement: exactly the values the formulas mean, or none if its time stamp lies ahead. */
  lemma AckEstimates(k: State, w: Wire, limit: nat, least: u32)
    requires 1 <= limit < 0x1000_0000 && least <= 60000 && Estimates(k.rtt, limit, least) && SettingsOk(k.cfg, least)
    requires w.cmd == CMD_ACK && SampleWithin(k.current, w, limit)
    ensures var x := Sample(k.current, w);
      OnWire(k, w).rtt ==
        if x < 0 then k.rtt
        else var (s, v) := Ideal(k.rtt, x);
          Rtt(s, v, Min(Max(k.cfg.minrto, s + Max(k.cfg.interval, 4 * v)), RTO_MAX))
    ensures Estimates(OnWire(k, w).rtt, limit, least)
  {
    hide Diff, Ideal, UpdateRtt, Smooth, SenderOn, ReceiverOn, AcksOn;
    var x := Sample(k.current, w);
    if x >= 0 {
      TimeoutIsIdeal(k.rtt, k.cfg.interval, k.cfg.minrto, x, limit);
      SmoothIsIdeal(k.rtt, x, limit);
    }
  }

  lemma {:induction false} WiresEstimate(k: State, ws: seq<Wire>, limit: nat, least: u32)
    requires 1 <= limit < 0x1000_0000 && least <= 60000 && Estimates(k.rtt, limit, least) && SettingsOk(k.cfg, least)
    requires forall w <- ws :: SampleWithin(k.current, w, limit)
    ensures Estimates(OnWires(k, ws).rtt, limit, least)
    decreases |ws|
  {
    if ws != [] {
      var w := ws[0];
      assert w in ws;
      if w.cmd == CMD_ACK {
        AckEstimates(k, w, limit, least);
      }
      hide Estimates, SettingsOk, SampleWithin, SenderOn, ReceiverOn, AcksOn;
      WiresEstimate(OnWire(k, w), ws[1..], limit, least);
    }
  }

  /** Every acknowledgement in the datagram gives a sample within the limit, or one that is passed over. */
  predicate SamplesWithin(k: State, op: Op, limit: nat) {
    op.OpInput? ==> forall w <- Parse(k.cfg.conv, op.bytes).ws :: SampleWithin(k.current, w, limit)
  }

  lemma InputEstimates(k: State, b: Bytes, limit: nat, least: u32)
    requires 1 <= limit < 0x1000_0000 && least <= 60000 && Estimates(k.rtt, limit, least) && SettingsOk(k.cfg, least)
    requires SamplesWithin(k, OpInput(b), limit)
    ensures Estimates(Input(k, b).state.rtt, limit, least)
  {
    var ws := Parse(k.cfg.conv, b).ws;
    OnWiresConfig(k, ws);
    hide Parse, Estimates, CollectAll, FastAck, Grow, Diff, SampleWithin, OnWires;
    WiresEstimate(k, ws, limit, least);
  }

  lemma StepEstimates(k: State, op: Op, limit: nat, least: u32)
    requires 1 <= limit < 0x1000_0000 && least <= 60000 && Estimates(k.rtt, limit, least) && SettingsOk(k.cfg, least)
    requires SamplesWithin(k, op, limit)
    ensures Estimates(Step(k, op).rtt, limit, least) && SettingsOk(Step(k, op).cfg, least)
  {
    hide Estimates, SamplesWithin, Input;
    match op {
      case OpInput(b) => InputEstimates(k, b, limit, least); InputConfig(k, b);
      case OpUpdate(now) => RttUpdates(k, now);
      case OpFlush => FlushConfig(k); hide AdmitAll, SweepAll, AfterFlush, ProbeTick;
      case _ => hide AdmitAll, SweepAll, AfterFlush, F.Send, Recv;
    }
  }

  lemma RttUpdates(k: State, now: u32)
    ensures Update(k, now).state.rtt == k.rtt && Update(k, now).state.cfg == k.cfg
  {
    ClockKeeps(k, now);
    FlushConfig(Clock(k, now).0);
    assert Clock(k, now).0.rtt == k.rtt by { hide NextFlush; }
    hide Clock, AdmitAll, SweepAll, AfterFlush, ProbeTick;
  }

  predicate AllSamplesWithin(k: State, ops: seq<Op>, limit: nat)
    requires k.cfg.mss > 0
    decreases |ops|
  {
    ops == []
    || (SamplesWithin(k, ops[0], limit) && (StepMss(k, ops[0]); AllSamplesWithin(Step(k, ops[0]), ops[1..], limit)))
  }

  lemma {:induction false} RunEstimates(k: State, ops: seq<Op>, limit: nat, least: u32)
    requires 1 <= limit < 0x1000_0000 && least <= 60000 && Estimates(k.rtt, limit, least) && SettingsOk(k.cfg, least)
    requires AllSamplesWithin(k, ops, limit)
    ensures Estimates(Run(k, ops).rtt, limit, least) && SettingsOk(Run(k, ops).cfg, least)
    decreases |ops|
  {
    if ops != [] {
      StepMss(k, ops[0]);
      StepEstimates(k, ops[0], limit, least);
      RunEstimates(Step(k, ops[0]), ops[1..], limit, least);
    }
    hide Step, Estimates, SamplesWithin;
  }

  /** A fresh block whose least timeout is then set from outside, as the session does. */
  function Limited(conv: u32, sndWnd: int32, rcvWnd: int32, least: u32): (k: State)
    ensures k.cfg.mss > 0
  {
    var k := Configured(conv, sndWnd, rcvWnd);
    k.(cfg := k.cfg.(minrto := least))
  }

  /** Over every run in which no sample exceeds the limit, with any calls: the estimates stay within the limit and the
      timeout between the least one, but at most 30 milliseconds, and a minute; and the next acknowledgement within the
      limit is reckoned without overflow. */
  lemma ReachableEstimates(conv: u32, sndWnd: int32, rcvWnd: int32, ops: seq<Op>, limit: nat, least: u32)
    requires 1 <= limit < 0x1000_0000 && least <= 60000
    requires AllSamplesWithin(Limited(conv, sndWnd, rcvWnd, least), ops, limit)
    ensures var k := Run(Limited(conv, sndWnd, rcvWnd, least), ops);
      && Estimates(k.rtt, limit, least)
      && forall x: nat | x <= limit ::
           var (s, v) := Ideal(k.rtt, x);
           && s + Max(k.cfg.interval, 4 * v) < 0x8000_0000
           && UpdateRtt(k.rtt, k.cfg.interval, k.cfg.minrto, x)
                == Rtt(s, v, Min(Max(k.cfg.minrto, s + Max(k.cfg.interval, 4 * v)), RTO_MAX))
  {
    var k0 := Limited(conv, sndWnd, rcvWnd, least);
    assert Estimates(k0.rtt, limit, least) && SettingsOk(k0.cfg, least);
    hide Run, Limited, AllSamplesWithin;
    RunEstimates(k0, ops, limit, least);
    var k := Run(k0, ops);
    hide Ideal, UpdateRtt;
    forall x: nat | x <= limit
      ensures var (s, v) := Ideal(k.rtt, x);
        && s + Max(k.cfg.interval, 4 * v) < 0x8000_0000
        && UpdateRtt(k.rtt, k.cfg.interval, k.cfg.minrto, x)
             == Rtt(s, v, Min(Max(k.cfg.minrto, s + Max(k.cfg.interval, 4 * v)), RTO_MAX))
    {
      TimeoutIsIdeal(k.rtt, k.cfg.interval, k.cfg.minrto, x, limit);
    }
  }
}
