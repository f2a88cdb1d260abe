/** A whole control block on values: one function for each entry point of ikcp.c. */
module KcpEngine {
  import opened Numbers
  import opened LittleEndian
  import opened KcpWire
  import opened KcpSender
  import opened KcpReceiver
  import opened KcpControl
  import F = KcpFragments

  const WND_RCV: u32 := 128
  const WND_SND: u32 := 32
  const MTU_DEF: u32 := 1400

  datatype Config = Config(conv: u32, mtu: u32, mss: u32, sndWnd: u32, interval: u32, minrto: u32,
                           nodelay: bool, fastresend: int, nocwnd: bool, stream: bool)

  datatype Probe = Probe(askSend: bool, askTell: bool, ts: u32, wait: u32)

  datatype Ack = Ack(sn: u32, ts: u32)

  datatype State = State(cfg: Config, snd: Sender, rcv: Receiver, acks: seq<Ack>, rtt: Rtt, cc: Congestion,
                         probe: Probe, rmtWnd: u32, current: u32, updated: bool, tsFlush: u32)

  /** ikcp_create */
  function Create(conv: u32): State {
    State(Config(conv, MTU_DEF, MTU_DEF - OVERHEAD, WND_SND, 100, 100, false, 0, false, false),
          Sender(0, 0, [], []), Receiver(0, WND_RCV, [], []), [], Rtt(0, 0, 200), Congestion(0, 2, 0),
          Probe(false, false, 0, 0), WND_RCV, 0, false, 100)
  }

  // ---------- ikcp_input ----------

  /** One decoded segment: every segment carries una and wnd; the command decides the rest. */
  function OnWire(k: State, w: Wire): State {
    k.(rmtWnd := w.wnd,
       snd := SenderOn(k.snd, w),
       rcv := ReceiverOn(k.rcv, w),
       acks := AcksOn(k.rcv, k.acks, w),
       rtt := RttOn(k.rtt, k.current, k.cfg.interval, k.cfg.minrto, w),
       probe := if w.cmd == CMD_WASK then k.probe.(askTell := true) else k.probe)
  }

  function SenderOn(s: Sender, w: Wire): Sender {
    if w.cmd == CMD_ACK then OnAck(OnUna(s, w.una), w.sn) else OnUna(s, w.una)
  }

  function ReceiverOn(r: Receiver, w: Wire): Receiver {
    if w.cmd != CMD_PUSH || BeyondWindow(r, w.sn) || Diff(w.sn, r.nxt) < 0 then r else ParseData(r, w)
  }

  /** Everything before the end of the window is acknowledged, also what has already been delivered. */
  function AcksOn(r: Receiver, acks: seq<Ack>, w: Wire): seq<Ack> {
    if w.cmd != CMD_PUSH || BeyondWindow(r, w.sn) then acks else acks + [Ack(w.sn, w.ts)]
  }

  function RttOn(r: Rtt, current: u32, interval: u32, minrto: u32, w: Wire): Rtt {
    if w.cmd == CMD_ACK && Diff(current, w.ts) >= 0 then UpdateRtt(r, interval, minrto, Diff(current, w.ts)) else r
  }

  function OnWires(k: State, ws: seq<Wire>): State
    decreases |ws|
  {
    if ws == [] then k else OnWires(OnWire(k, ws[0]), ws[1..])
  }

  /** Greatest acknowledged number of a datagram, as the loop collects it. */
  datatype MaxAck = NoAck | MaxAck(sn: u32)

  function Collect(m: MaxAck, w: Wire): MaxAck {
    if w.cmd != CMD_ACK then m
    else if m.NoAck? || Diff(w.sn, m.sn) > 0 then MaxAck(w.sn)
    else m
  }

  function CollectAll(m: MaxAck, ws: seq<Wire>): MaxAck
    decreases |ws|
  {
    if ws == [] then m else CollectAll(Collect(m, ws[0]), ws[1..])
  }

  /** What follows the loop when it ran to the end of the datagram. */
  function Conclude(k: State, m: MaxAck, unaBefore: u32): State
    requires k.cfg.mss > 0
  {
    var k1 := if m.NoAck? then k else k.(snd := FastAck(k.snd, m.sn));
    if Diff(k1.snd.una, unaBefore) > 0 then k1.(cc := Grow(k1.cc, k1.cfg.mss, k1.rmtWnd)) else k1
  }

  datatype Result = Result(code: int, state: State)

  function Input(k: State, b: Bytes): Result
    requires k.cfg.mss > 0
  {
    if |b| < OVERHEAD then Result(-1, k)
    else
      var p := Parse(k.cfg.conv, b);
      var k1 := OnWires(k, p.ws);
      OnWiresConfig(k, p.ws);
      if p.code != 0 then Result(p.code, k1) else Result(0, Conclude(k1, CollectAll(NoAck, p.ws), k.snd.una))
  }

  lemma {:induction false} OnWiresConfig(k: State, ws: seq<Wire>)
    ensures OnWires(k, ws).cfg == k.cfg
    decreases |ws|
  {
    if ws != [] {
      OnWiresConfig(OnWire(k, ws[0]), ws[1..]);
    }
  }

  // ---------- ikcp_flush ----------

  /** Free places in the receive queue, as the header carries them. */
  function Unused(r: Receiver): u16 {
    (if |r.queue| < r.wnd then r.wnd - |r.queue| else 0) % 0x1_0000
  }

  function AckWire(a: Ack, wnd: u16, una: u32): Wire {
    Wire(CMD_ACK, 0, wnd, a.ts, a.sn, una, [])
  }

  function AckWires(acks: seq<Ack>, wnd: u16, una: u32): (ws: seq<Wire>)
    ensures |ws| == |acks|
  {
    seq(|acks|, i requires 0 <= i < |acks| => AckWire(acks[i], wnd, una))
  }

  /** The header reused for the probes still carries the numbers of the last acknowledgement. */
  function LastAck(acks: seq<Ack>): Ack {
    if acks == [] then Ack(0, 0) else acks[|acks| - 1]
  }

  function ProbeTick(p: Probe, rmtWnd: u32, current: u32): Probe {
    if rmtWnd != 0 then p.(ts := 0, wait := 0)
    else if p.wait == 0 then p.(ts := Wrap(current + PROBE_INIT), wait := PROBE_INIT)
    else if Diff(current, p.ts) < 0 then p
    else
      var w: u32 := Max(p.wait, PROBE_INIT);
      var v: u32 := Min(Wrap(w + w / 2), PROBE_LIMIT);
      p.(askSend := true, ts := Wrap(current + v), wait := v)
  }

  function ProbeWires(p: Probe, a: Ack, wnd: u16, una: u32): seq<Wire> {
    (if p.askSend then [Wire(CMD_WASK, 0, wnd, a.ts, a.sn, una, [])] else [])
    + (if p.askTell then [Wire(CMD_WINS, 0, wnd, a.ts, a.sn, una, [])] else [])
  }

  function WindowSize(k: State): u32 {
    var w: u32 := Min(k.cfg.sndWnd, k.rmtWnd);
    if k.cfg.nocwnd then w else Min(k.cc.cwnd, w)
  }

  /** What one pass over snd_buf is decided by. */
  datatype Tick = Tick(current: u32, wnd: u16, una: u32, rto: u32, rtomin: u32, nodelay: bool, resent: u32)

  function TickOf(k: State): Tick {
    Tick(k.current, Unused(k.rcv), k.rcv.nxt, k.rtt.rto, if k.cfg.nodelay then 0 else k.rtt.rto / 8, k.cfg.nodelay,
         if k.cfg.fastresend > 0 then Wrap(k.cfg.fastresend) else 0xFFFF_FFFF)
  }

  datatype Outcome = Outcome(seg: OutSeg, send: bool, change: bool, lost: bool)

  /** First transmission, timeout, fast resend, or nothing. */
  function Transmit(o: OutSeg, t: Tick): Outcome {
    var sent := o.(ts := t.current, wnd := t.wnd, una := t.una, xmit := Wrap(o.xmit + 1));
    if o.xmit == 0 then
      Outcome(sent.(rto := t.rto, resendts := Wrap(t.current + t.rto + t.rtomin)), true, false, false)
    else if Diff(t.current, o.resendts) >= 0 then
      var rto := Wrap(o.rto + (if t.nodelay then t.rto / 2 else t.rto));
      Outcome(sent.(rto := rto, resendts := Wrap(t.current + rto)), true, false, true)
    else if o.fastack >= t.resent then
      Outcome(sent.(fastack := 0, resendts := Wrap(t.current + o.rto)), true, true, false)
    else Outcome(o, false, false, false)
  }

  function PushWire(o: OutSeg): Wire {
    Wire(CMD_PUSH, o.frg, o.wnd, o.ts, o.sn, o.una, o.data)
  }

  /** The segments afterwards, those sent, and whether a fast resend or a timeout was among them. */
  datatype Sweep = Sweep(buf: seq<OutSeg>, ws: seq<Wire>, change: bool, lost: bool)

  function SweepAll(buf: seq<OutSeg>, t: Tick): (s: Sweep)
    ensures |s.buf| == |buf|
  {
    if buf == [] then Sweep([], [], false, false)
    else
      var h := Transmit(buf[0], t);
      var s := SweepAll(buf[1..], t);
      Sweep([h.seg] + s.buf, (if h.send then [PushWire(h.seg)] else []) + s.ws, h.change || s.change, h.lost || s.lost)
  }

  /** The sender once the queue has been admitted into the window, and the sweep over it. */
  function AdmitAll(k: State): Sender {
    Admit(k.snd, WindowSize(k), Stamp(k.current, Unused(k.rcv), k.rcv.nxt, k.rtt.rto))
  }

  /** All segments of one flush in the order they are written: acknowledgements, probes, data. */
  function FlushWires(k: State): seq<Wire> {
    AckWires(k.acks, Unused(k.rcv), k.rcv.nxt)
    + ProbeWires(ProbeTick(k.probe, k.rmtWnd, k.current), LastAck(k.acks), Unused(k.rcv), k.rcv.nxt)
    + SweepAll(AdmitAll(k).buf, TickOf(k)).ws
  }

  function FlushState(k: State): State {
    var s := AdmitAll(k);
    var sweep := SweepAll(s.buf, TickOf(k));
    k.(acks := [],
       probe := ProbeTick(k.probe, k.rmtWnd, k.current).(askSend := false, askTell := false),
       snd := s.(buf := sweep.buf),
       cc := AfterFlush(k.cc, k.cfg.mss, sweep.change, sweep.lost, InFlight(s), TickOf(k).resent, WindowSize(k)))
  }

  /** The size of the output buffer, computed in 32-bit words. */
  function BufferSize(mtu: u32): u32 {
    Wrap((mtu + OVERHEAD) * 3)
  }

  /** How far into that buffer a flush writes. */
  function Reach(k: State): nat {
    Peak(k.cfg.mtu, 0, FlushWires(k))
  }

  datatype Flushed = Flushed(state: State, out: seq<Bytes>)

  function Flush(k: State): Flushed {
    if !k.updated then Flushed(k, [])
    else Flushed(FlushState(k), Pack(k.cfg.conv, k.cfg.mtu, FlushWires(k)))
  }

  // ---------- ikcp_update, ikcp_check ----------

  /** The next flush time, and whether it is time to flush now. */
  function NextFlush(updated: bool, tsFlush: u32, interval: u32, now: u32): (u32, bool) {
    var ts0 := if updated then tsFlush else now;
    var late := Diff(now, ts0);
    var ts1 := if late >= 10000 || late < -10000 then now else ts0;
    var slap := if late >= 10000 || late < -10000 then 0 else late;
    if slap >= 0 then
      var ts2 := Wrap(ts1 + interval);
      (if Diff(now, ts2) >= 0 then Wrap(now + interval) else ts2, true)
    else (ts1, false)
  }

  /** The clock part of ikcp_update. */
  function Clock(k: State, now: u32): (State, bool) {
    var (ts, due) := NextFlush(k.updated, k.tsFlush, k.cfg.interval, now);
    (k.(current := now, updated := true, tsFlush := ts), due)
  }

  function Update(k: State, current: u32): Flushed {
    var (k1, due) := Clock(k, current);
    if due then Flush(k1) else Flushed(k1, [])
  }

  /** Smallest distance to a retransmission, or 0 as soon as one is due. */
  function Nearest(buf: seq<OutSeg>, current: u32, best: int): int {
    if buf == [] then best
    else
      var d := Diff(buf[0].resendts, current);
      if d <= 0 then 0 else Nearest(buf[1..], current, Min(best, d))
  }

  function Check(k: State, current: u32): u32 {
    if !k.updated then current
    else
      var late := Diff(current, k.tsFlush);
      if late >= 10000 || late < -10000 || late >= 0 then current
      else
        var packet := Nearest(k.snd.buf, current, 0x7FFF_FFFF);
        if packet == 0 then current
        else Wrap(current + Min(Min(packet, Diff(k.tsFlush, current)), k.cfg.interval))
  }

  // ---------- ikcp_send, ikcp_recv, settings ----------

  function SendTo(k: State, data: Bytes): Result
    requires k.cfg.mss > 0
  {
    var s := F.Send(k.snd.queue, k.cfg.mss, k.cfg.stream, data);
    Result(s.code, k.(snd := k.snd.(queue := s.queue)))
  }

  function RecvFrom(k: State, len: int): State {
    var r := Recv(k.rcv, len);
    k.(rcv := r.rcv, probe := k.probe.(askTell := k.probe.askTell || r.tell))
  }

  function Clamp(interval: int): u32 {
    if interval > 5000 then 5000 else if interval < 10 then 10 else interval
  }

  /** ikcp_nodelay: a negative argument leaves the setting alone. */
  function NoDelayConfig(c: Config, nodelay: int, interval: int, resend: int, nc: int): Config {
    c.(nodelay := if nodelay >= 0 then nodelay != 0 else c.nodelay,
       minrto := if nodelay > 0 then 30 else if nodelay == 0 then 100 else c.minrto,
       interval := if interval >= 0 then Clamp(interval) else c.interval,
       fastresend := if resend >= 0 then resend else c.fastresend,
       nocwnd := if nc >= 0 then nc != 0 else c.nocwnd)
  }

  function NoDelay(k: State, nodelay: int, interval: int, resend: int, nc: int): State {
    k.(cfg := NoDelayConfig(k.cfg, nodelay, interval, resend, nc))
  }

  /** ikcp_interval */
  function Interval(k: State, interval: int): State {
    k.(cfg := k.cfg.(interval := Clamp(interval)))
  }

  type int32 = x: int | -0x8000_0000 <= x < 0x8000_0000

  function WndSize(k: State, sndWnd: int32, rcvWnd: int32): State {
    var k1 := if sndWnd > 0 then k.(cfg := k.cfg.(sndWnd := sndWnd)) else k;
    if rcvWnd > 0 then k1.(rcv := k1.rcv.(wnd := Max(rcvWnd, WND_RCV))) else k1
  }

  function SetMtu(k: State, mtu: int32): Result {
    if mtu < 50 then Result(-1, k) else Result(0, k.(cfg := k.cfg.(mtu := mtu, mss := mtu - OVERHEAD)))
  }
}
