/** The control block as the C code has it: flat fields that every call updates in place, queues that are
    spliced by loops, and one output buffer. Each method is proved against the function of the same call. */
module KcpClass {
  import opened Numbers
  import opened LittleEndian
  import opened KcpWire
  import S = KcpSender
  import R = KcpReceiver
  import C = KcpControl
  import F = KcpFragments
  import E = KcpEngine
  import L = KcpClassLaws

  class Kcp {
    const conv: u32
    var mtu: u32
    var mss: u32
    var sndUna: u32
    var sndNxt: u32
    var rcvNxt: u32
    var ssthresh: u32
    var rxRttval: int
    var rxSrtt: int
    var rxRto: u32
    var rxMinrto: u32
    var sndWnd: u32
    var rcvWnd: u32
    var rmtWnd: u32
    var cwnd: u32
    var incr: u32
    var askSend: bool  // probe & IKCP_ASK_SEND
    var askTell: bool  // probe & IKCP_ASK_TELL
    var current: u32
    var tsFlush: u32
    var interval: u32
    var nrcvBuf: nat
    var nsndBuf: nat
    var nrcvQue: nat
    var nsndQue: nat
    var nodelay: bool
    var updated: bool
    var tsProbe: u32
    var probeWait: u32
    var fastresend: int
    var nocwnd: bool
    var stream: bool
    var sndQueue: seq<S.Chunk>
    var rcvQueue: seq<Wire>
    var sndBuf: seq<S.OutSeg>
    var rcvBuf: seq<Wire>
    var acklist: seq<E.Ack>
    var buffer: array<u8>
    var sent: seq<Bytes>  // what the output callback has been given

    function Value(): E.State
      reads this
    {
      E.State(ConfigValue(),
              SenderValue(), ReceiverValue(), acklist, RttValue(),
              CongestionValue(), ProbeValue(),
              rmtWnd, current, updated, tsFlush)
    }

    function SenderValue(): S.Sender
      reads this
    {
      S.Sender(sndUna, sndNxt, sndBuf, sndQueue)
    }

    function ReceiverValue(): R.Receiver
      reads this
    {
      R.Receiver(rcvNxt, rcvWnd, rcvBuf, rcvQueue)
    }

    function RttValue(): C.Rtt
      reads this
    {
      C.Rtt(rxSrtt, rxRttval, rxRto)
    }

    function ConfigValue(): E.Config
      reads this
    {
      E.Config(conv, mtu, mss, sndWnd, interval, rxMinrto, nodelay, fastresend, nocwnd, stream)
    }

    function CongestionValue(): C.Congestion
      reads this
    {
      C.Congestion(cwnd, ssthresh, incr)
    }

    function ProbeValue(): E.Probe
      reads this
    {
      E.Probe(askSend, askTell, tsProbe, probeWait)
    }

    /** The four counters are the queue lengths, and the output buffer is sized for the mtu. */
    ghost predicate Valid()
      reads this
    {
      && nsndQue == |sndQueue| && nsndBuf == |sndBuf| && nrcvQue == |rcvQueue| && nrcvBuf == |rcvBuf|
      && 50 <= mtu < 0x8000_0000 && mss as int == mtu - OVERHEAD
      && buffer.Length == E.BufferSize(mtu)
    }

    constructor (conv: u32)
      ensures Valid() && fresh(buffer)
      ensures Value() == E.Create(conv) && sent == []
      ensures mtu == 1400 && mss == 1376 && sndWnd == 32 && rcvWnd == 128 && rmtWnd == 128 && ssthresh == 2
      ensures rxRto == 200 && rxMinrto == 100 && interval == 100 && tsFlush == 100 && !nodelay && !nocwnd && !stream
      ensures sndUna == sndNxt == rcvNxt == cwnd == incr == current == 0 && !updated && buffer.Length == 4272
    {
      this.conv := conv;
      mtu, mss := E.MTU_DEF, E.MTU_DEF - OVERHEAD;
      sndUna, sndNxt, rcvNxt := 0, 0, 0;
      ssthresh, cwnd, incr := 2, 0, 0;
      rxRttval, rxSrtt, rxRto, rxMinrto := 0, 0, 200, 100;
      sndWnd, rcvWnd, rmtWnd := E.WND_SND, E.WND_RCV, E.WND_RCV;
      askSend, askTell, tsProbe, probeWait := false, false, 0, 0;
      current, tsFlush, interval := 0, 100, 100;
      nrcvBuf, nsndBuf, nrcvQue, nsndQue := 0, 0, 0, 0;
      nodelay, updated, fastresend, nocwnd, stream := false, false, 0, false, false;
      sndQueue, rcvQueue, sndBuf, rcvBuf, acklist, sent := [], [], [], [], [], [];
      buffer := new u8[E.BufferSize(E.MTU_DEF)];
    }

    // ---------- receiving ----------

    method PeekSize() returns (length: int)
      requires Valid()
      ensures length == R.PeekSize(rcvQueue)
    {
      if rcvQueue == [] { return -1; }
      if rcvQueue[0].frg == 0 { return |rcvQueue[0].data|; }
      if nrcvQue < rcvQueue[0].frg as int + 1 { return -1; }
      length := 0;
      var p := 0;
      while p < |rcvQueue|
        invariant p <= |rcvQueue|
        invariant length + |R.Join(rcvQueue[p..][..R.HeadCount(rcvQueue[p..])])| == |R.Join(rcvQueue[..R.HeadCount(rcvQueue)])|
      {
        L.HeadStep(rcvQueue, p);
        length := length + |rcvQueue[p].data|;
        if rcvQueue[p].frg == 0 { return; }
        p := p + 1;
      }
    }

    /** Move segments that are next in line from rcv_buf to rcv_queue. */
    method MoveReady()
      requires Valid()
      modifies `rcvNxt, `rcvBuf, `rcvQueue, `nrcvBuf, `nrcvQue
      ensures Valid()
      ensures ReceiverValue() == R.Pull(old(ReceiverValue()))
    {
      while rcvBuf != []
        invariant Valid()
        invariant R.Pull(ReceiverValue()) == R.Pull(old(ReceiverValue()))
        decreases |rcvBuf|
      {
        if rcvBuf[0].sn == rcvNxt && nrcvQue < rcvWnd {
          rcvQueue, nrcvQue := rcvQueue + [rcvBuf[0]], nrcvQue + 1;
          rcvBuf, nrcvBuf := rcvBuf[1..], nrcvBuf - 1;
          rcvNxt := Wrap(rcvNxt + 1);
        } else {
          break;
        }
      }
    }

    /** Copy the first message out, taking its segments off the queue unless only looking. */
    method MergeFragments(peek: bool) returns (data: Bytes)
      requires Valid() && rcvQueue != []
      modifies `rcvQueue, `nrcvQue
      ensures Valid()
      ensures data == R.Join(old(rcvQueue)[..R.HeadCount(old(rcvQueue))])
      ensures rcvQueue == if peek then old(rcvQueue) else old(rcvQueue)[R.HeadCount(old(rcvQueue))..]
    {
      assert R.HeadCount([]) == 0 && L.Merged([]) == [];
      assert L.Merged(rcvQueue) == R.Join(rcvQueue[..R.HeadCount(rcvQueue)]);
      hide R.HeadCount, R.Join, L.Merged;
      ghost var q := rcvQueue;
      ghost var m := 0;
      assert q[0..] == q;
      var p := 0;
      data := [];
      while p < |rcvQueue|
        invariant m <= |q| && p == (if peek then m else 0) && rcvQueue == (if peek then q else q[m..])
        invariant Valid()
        invariant R.HeadCount(q) == m + R.HeadCount(q[m..])
        invariant L.Merged(q) == data + L.Merged(q[m..])
        decreases |q| - m
      {
        var seg := rcvQueue[p];
        assert seg == q[m];
        L.HeadStep(q, m);
        data := data + seg.data;
        if peek {
          p := p + 1;
        } else {
          rcvQueue, nrcvQue := rcvQueue[1..], nrcvQue - 1;
        }
        m := m + 1;
        if seg.frg == 0 { break; }
      }
    }

    method Recv(len: int) returns (code: int, data: Bytes)
      requires Valid()
      modifies `rcvNxt, `rcvBuf, `rcvQueue, `nrcvBuf, `nrcvQue, `askTell
      ensures Valid()
      ensures R.Received(code, data, ReceiverValue(), R.Recv(old(ReceiverValue()), len).tell) == R.Recv(old(ReceiverValue()), len)
      ensures askTell == (old(askTell) || R.Recv(old(ReceiverValue()), len).tell)
    {
      hide R.Join, R.Pull;
      ghost var r := ReceiverValue();
      data := [];
      if rcvQueue == [] { return -1, []; }
      var peeksize := PeekSize();
      hide R.PeekSize;
      if peeksize < 0 { return -2, []; }
      if peeksize > R.Abs(len) { return -3, []; }
      var recover := nrcvQue >= rcvWnd;
      data := MergeFragments(len < 0);
      code := |data|;
      assert ReceiverValue() == if len < 0 then r else r.(queue := r.queue[R.HeadCount(r.queue)..]);
      MoveReady();
      assert ReceiverValue() == R.Recv(r, len).rcv;
      if nrcvQue < rcvWnd && recover { askTell := true; }
    }

    // ---------- sending ----------

    /** Stream mode: replace the last queued segment by one that also holds the first new bytes. */
    method ExtendLast(data: Bytes) returns (rest: Bytes)
      requires Valid()
      modifies `sndQueue
      ensures Valid()
      ensures (sndQueue, rest) == F.TopUp(old(sndQueue), mss, data)
    {
      rest := data;
      if sndQueue != [] {
        var last := sndQueue[|sndQueue| - 1];
        if |last.data| < mss {
          var capacity := mss - |last.data|;
          var extend := if |data| < capacity then |data| else capacity;
          sndQueue := sndQueue[..|sndQueue| - 1] + [S.Chunk(0, last.data + data[..extend])];
          rest := data[extend..];
        }
      }
    }

    method AppendFragments(data: Bytes) returns (code: int)
      requires Valid()
      modifies `sndQueue, `nsndQue
      ensures Valid()
      ensures F.Sent(code, sndQueue) == F.Append(old(sndQueue), mss, stream, data)
    {
      var count := if |data| <= mss then 1 else F.Quotient(|data| + mss - 1, mss);
      assert count == F.FragmentCount(|data|, mss);
      hide F.FragmentCount, F.Quotient;
      if count >= E.WND_RCV { return -2; }
      ghost var whole := F.Fragments(data, mss, count, stream);
      var rest := data;
      var i := 0;
      while i < count
        invariant 0 <= i <= count < 128 && Valid()
        invariant sndQueue + F.Fragments(rest, mss, count - i, stream) == old(sndQueue) + whole
      {
        var size := if |rest| > mss then mss as int else |rest|;
        var c := S.Chunk(if stream then 0 else count - i - 1, rest[..size]);
        L.QueueOne(sndQueue, rest, mss, count - i, stream);
        sndQueue, nsndQue := sndQueue + [c], nsndQue + 1;
        rest := rest[size..];
        i := i + 1;
      }
      assert sndQueue + [] == sndQueue;
      code := 0;
    }

    method Send(data: Bytes) returns (code: int)
      requires Valid()
      modifies `sndQueue, `nsndQue
      ensures Valid()
      ensures F.Sent(code, sndQueue) == F.Send(old(sndQueue), mss, stream, data)
    {
      hide F.Append, F.TopUp;
      var rest := data;
      if stream {
        rest := ExtendLast(data);
        if rest == [] { return 0; }
      }
      code := AppendFragments(rest);
    }

    // ---------- acknowledgements ----------

    method UpdateAck(rtt: int)
      modifies `rxSrtt, `rxRttval, `rxRto
      ensures RttValue() == C.UpdateRtt(old(RttValue()), interval, rxMinrto, rtt)
    {
      hide Signed, Wrap, C.Bound, C.Quot;
      if rxSrtt == 0 {
        rxSrtt, rxRttval := rtt, C.Quot(rtt, 2);
      } else {
        var delta := Signed(rtt - rxSrtt);
        if delta < 0 { delta := Signed(-delta); }
        rxRttval := C.Quot(Signed(3 * rxRttval + delta), 4);
        rxSrtt := C.Quot(Signed(7 * rxSrtt + rtt), 8);
        if rxSrtt < 1 { rxSrtt := 1; }
      }
      rxRto := C.Bound(rxMinrto, Wrap(rxSrtt + Max(interval, Wrap(4 * rxRttval))), C.RTO_MAX);
    }

    method ShrinkBuf()
      modifies `sndUna
      ensures SenderValue() == S.Shrink(old(SenderValue()))
    {
      if sndBuf != [] {
        sndUna := sndBuf[0].sn;
      } else {
        sndUna := sndNxt;
      }
    }

    method ParseUna(una: u32)
      requires Valid()
      modifies `sndBuf, `nsndBuf
      ensures Valid()
      ensures sndBuf == S.ParseUna(old(sndBuf), una)
    {
      while sndBuf != []
        invariant Valid() && S.ParseUna(sndBuf, una) == S.ParseUna(old(sndBuf), una)
        decreases |sndBuf|
      {
        if Diff(una, sndBuf[0].sn) > 0 {
          sndBuf, nsndBuf := sndBuf[1..], nsndBuf - 1;
        } else {
          break;
        }
      }
    }

    method ParseAck(sn: u32)
      requires Valid()
      modifies `sndBuf, `nsndBuf
      ensures Valid()
      ensures SenderValue() == S.ParseAck(old(SenderValue()), sn)
    {
      hide S.RemoveSn;
      if Diff(sn, sndUna) < 0 || Diff(sn, sndNxt) >= 0 { return; }
      TakeOut(sn);
    }

    /** The loop of ParseAck. */
    method TakeOut(sn: u32)
      requires Valid()
      modifies `sndBuf, `nsndBuf
      ensures Valid() && sndBuf == S.RemoveSn(old(sndBuf), sn)
    {
      hide Diff, S.RemoveSn;
      var p := 0;
      assert sndBuf[0..] == sndBuf;
      while p < |sndBuf|
        invariant p <= |sndBuf| && sndBuf == old(sndBuf) && Valid()
        invariant S.RemoveSn(sndBuf, sn) == sndBuf[..p] + S.RemoveSn(sndBuf[p..], sn)
      {
        L.RemoveStep(sndBuf, sn, p);
        if sn == sndBuf[p].sn {
          sndBuf, nsndBuf := sndBuf[..p] + sndBuf[p + 1..], nsndBuf - 1;
          return;
        }
        if Diff(sn, sndBuf[p].sn) < 0 {
          return;
        }
        p := p + 1;
      }
      L.RemoveEnd(sndBuf, sn);
    }

    method ParseFastack(sn: u32)
      requires Valid()
      modifies `sndBuf
      ensures Valid()
      ensures SenderValue() == S.FastAck(old(SenderValue()), sn)
    {
      hide S.CountSkips;
      if Diff(sn, sndUna) < 0 || Diff(sn, sndNxt) >= 0 { return; }
      SkipFront(sn);
    }

    /** The loop of ParseFastack. */
    method SkipFront(sn: u32)
      requires Valid()
      modifies `sndBuf
      ensures Valid() && sndBuf == S.CountSkips(old(sndBuf), sn)
    {
      hide Diff, S.CountSkips, Wrap;
      ghost var b := sndBuf;
      var p := 0;
      assert b[0..] == b;
      while p < |sndBuf|
        invariant p <= |sndBuf| == |b| && sndBuf[p..] == b[p..]
        invariant S.CountSkips(b, sn) == sndBuf[..p] + S.CountSkips(b[p..], sn)
      {
        L.SkipHead(sndBuf, b, sn, p);
        if Diff(sn, sndBuf[p].sn) < 0 { return; }
        ghost var before := sndBuf;
        if sn != sndBuf[p].sn {
          sndBuf := sndBuf[p := sndBuf[p].(fastack := Wrap(sndBuf[p].fastack + 1))];
        }
        L.SkipStep(before, b, sn, p, sndBuf);
        p := p + 1;
      }
      L.SkipEnd(sndBuf, b, sn, p);
    }

    method AckPush(sn: u32, ts: u32)
      modifies `acklist
      ensures acklist == old(acklist) + [E.Ack(sn, ts)]
    {
      acklist := acklist + [E.Ack(sn, ts)];
    }

    // ---------- input ----------

    method ParseData(newseg: Wire)
      requires Valid()
      modifies `rcvNxt, `rcvBuf, `rcvQueue, `nrcvBuf, `nrcvQue
      ensures Valid()
      ensures ReceiverValue() == R.ParseData(old(ReceiverValue()), newseg)
    {
      hide Diff, Wrap;
      var sn := newseg.sn;
      if Diff(sn, Wrap(rcvNxt + rcvWnd)) >= 0 || Diff(sn, rcvNxt) < 0 { return; }
      InsertSegment(newseg);
      hide R.Insert;
      MoveReady();
    }

    /** Put a segment at its place in rcv_buf, found from the back, unless its number is there already. */
    method InsertSegment(newseg: Wire)
      requires Valid()
      modifies `rcvBuf, `nrcvBuf
      ensures Valid() && ReceiverValue() == R.Insert(old(ReceiverValue()), newseg)
    {
      hide Diff;
      var sn := newseg.sn;
      var repeated := false;
      var p := |rcvBuf|;
      while p > 0
        invariant 0 <= p <= |rcvBuf| && !repeated
        invariant R.ScanBack(rcvBuf, sn, |rcvBuf|) == R.ScanBack(rcvBuf, sn, p)
      {
        var seg := rcvBuf[p - 1];
        if seg.sn == sn {
          repeated := true;
          break;
        }
        if Diff(sn, seg.sn) > 0 {
          break;
        }
        p := p - 1;
      }
      assert p == R.ScanBack(rcvBuf, sn, |rcvBuf|);
      hide R.ScanBack;
      if !repeated {
        rcvBuf, nrcvBuf := rcvBuf[..p] + [newseg] + rcvBuf[p..], nrcvBuf + 1;
      }
    }

    /** The cumulative acknowledgement every segment carries. */
    method HandleUna(una: u32)
      requires Valid()
      modifies `sndBuf, `nsndBuf, `sndUna
      ensures Valid() && SenderValue() == S.OnUna(old(SenderValue()), una)
    {
      ParseUna(una);
      ShrinkBuf();
    }

    method HandleAck(w: Wire)
      requires Valid() && w.cmd == CMD_ACK
      modifies `sndBuf, `nsndBuf, `sndUna, `rxSrtt, `rxRttval, `rxRto
      ensures Valid() && SenderValue() == S.OnAck(old(SenderValue()), w.sn)
      ensures RttValue() == E.RttOn(old(RttValue()), current, interval, rxMinrto, w)
    {
      hide C.UpdateRtt, S.ParseAck;
      if Diff(current, w.ts) >= 0 {
        UpdateAck(Diff(current, w.ts));
      }
      hide Diff;
      ParseAck(w.sn);
      ShrinkBuf();
    }

    method HandlePush(w: Wire)
      requires Valid() && w.cmd == CMD_PUSH
      modifies `rcvNxt, `rcvBuf, `rcvQueue, `nrcvBuf, `nrcvQue, `acklist
      ensures Valid()
      ensures ReceiverValue() == E.ReceiverOn(old(ReceiverValue()), w)
      ensures acklist == E.AcksOn(old(ReceiverValue()), old(acklist), w)
    {
      hide Diff, R.ParseData;
      if Diff(w.sn, Wrap(rcvNxt + rcvWnd)) < 0 {
        AckPush(w.sn, w.ts);
        if Diff(w.sn, rcvNxt) >= 0 {
          ParseData(w);
        }
      }
    }

    /** What the command of a segment asks for. */
    method HandleCommand(w: Wire)
      requires Valid()
      modifies `sndBuf, `nsndBuf, `sndUna, `rxSrtt, `rxRttval, `rxRto
      modifies `rcvNxt, `rcvBuf, `rcvQueue, `nrcvBuf, `nrcvQue, `acklist, `askTell
      ensures Valid()
      ensures SenderValue() == if w.cmd == CMD_ACK then S.OnAck(old(SenderValue()), w.sn) else old(SenderValue())
      ensures ReceiverValue() == E.ReceiverOn(old(ReceiverValue()), w)
      ensures acklist == E.AcksOn(old(ReceiverValue()), old(acklist), w)
      ensures RttValue() == E.RttOn(old(RttValue()), current, interval, rxMinrto, w)
      ensures askTell == (old(askTell) || w.cmd == CMD_WASK)
    {
      hide Diff, S.OnAck, R.ParseData, C.UpdateRtt, R.BeyondWindow;
      if w.cmd == CMD_ACK {
        HandleAck(w);
      } else if w.cmd == CMD_PUSH {
        HandlePush(w);
      } else if w.cmd == CMD_WASK {
        askTell := true;
      }
    }

    /** One decoded segment. */
    method HandleSegment(w: Wire)
      requires Valid()
      modifies `rmtWnd, `sndBuf, `nsndBuf, `sndUna, `rxSrtt, `rxRttval, `rxRto
      modifies `rcvNxt, `rcvBuf, `rcvQueue, `nrcvBuf, `nrcvQue, `acklist, `askTell
      ensures Valid() && rmtWnd == w.wnd && askTell == (old(askTell) || w.cmd == CMD_WASK)
      ensures SenderValue() == E.SenderOn(old(SenderValue()), w)
      ensures ReceiverValue() == E.ReceiverOn(old(ReceiverValue()), w)
      ensures acklist == E.AcksOn(old(ReceiverValue()), old(acklist), w)
      ensures RttValue() == E.RttOn(old(RttValue()), current, interval, rxMinrto, w)
    {
      hide S.OnUna, S.OnAck, E.ReceiverOn, E.AcksOn, E.RttOn;
      rmtWnd := w.wnd;
      HandleUna(w.una);
      HandleCommand(w);
    }

    method ApplySegment(w: Wire)
      requires Valid()
      modifies `rmtWnd, `sndBuf, `nsndBuf, `sndUna, `rxSrtt, `rxRttval, `rxRto
      modifies `rcvNxt, `rcvBuf, `rcvQueue, `nrcvBuf, `nrcvQue, `acklist, `askTell
      ensures Valid() && Value() == E.OnWire(old(Value()), w)
    {
      hide E.OnWire, E.SenderOn, E.ReceiverOn, E.AcksOn, E.RttOn;
      ghost var v := Value();
      HandleSegment(w);
      L.OnWireIs(v, Value(), w);
    }

    /** The congestion window after an advance of snd_una. */
    method GrowWindow()
      requires Valid()
      modifies `cwnd, `incr
      ensures CongestionValue() == C.Grow(old(CongestionValue()), mss, rmtWnd)
    {
      if cwnd < rmtWnd {
        if cwnd < ssthresh {
          cwnd := Wrap(cwnd + 1);
          incr := Wrap(incr + mss);
        } else {
          if incr < mss { incr := mss; }
          incr := Wrap(incr + Wrap(mss * mss) / incr + mss / 16);
          if Wrap(Wrap(cwnd + 1) * mss) <= incr {
            cwnd := Wrap(cwnd + 1);
          }
        }
        if cwnd > rmtWnd {
          cwnd := rmtWnd;
          incr := Wrap(rmtWnd * mss);
        }
      }
    }

    /** One turn of the decode loop, at position p: an error, or the position after the segment. */
    method Turn(data: Bytes, p: nat, m: E.MaxAck) returns (code: int, next: nat, maxack: E.MaxAck)
      requires Valid() && p + OVERHEAD <= |data|
      modifies `rmtWnd, `sndBuf, `nsndBuf, `sndUna, `rxSrtt, `rxRttval, `rxRto
      modifies `rcvNxt, `rcvBuf, `rcvQueue, `nrcvBuf, `nrcvQue, `acklist, `askTell
      ensures Valid()
      ensures code != 0 ==> Parse(conv, data[p..]) == Parsed([], code) && Value() == old(Value())
      ensures code == 0 ==> p < next <= |data|
      ensures code == 0 ==> Parse(conv, data[p..]).code == Parse(conv, data[next..]).code
      ensures code == 0 ==>
        E.OnWires(old(Value()), Parse(conv, data[p..]).ws) == E.OnWires(Value(), Parse(conv, data[next..]).ws)
      ensures code == 0 ==>
        E.CollectAll(m, Parse(conv, data[p..]).ws) == E.CollectAll(maxack, Parse(conv, data[next..]).ws)
    {
      hide Parse, HeadWire, DecodeHeader, E.OnWires, E.CollectAll, E.OnWire, E.Collect;
      L.ParseStops(conv, data, p);
      next, maxack := p, m;
      var h := DecodeHeader(data[p..]);
      if h.conv != conv { return -1, next, maxack; }
      if |data| - p - OVERHEAD < h.len || h.len >= 0x8000_0000 { return -2, next, maxack; }
      if h.cmd != CMD_PUSH && h.cmd != CMD_ACK && h.cmd != CMD_WASK && h.cmd != CMD_WINS { return -3, next, maxack; }
      L.ParseStep(conv, data, p, Value(), m);
      var w := HeadWire(data[p..]);
      ApplySegment(w);
      maxack := E.Collect(m, w);
      code, next := 0, p + OVERHEAD + h.len;
    }

    /** The decode loop: everything up to the end of the datagram or the first error. */
    method Decode(data: Bytes) returns (code: int, maxack: E.MaxAck)
      requires Valid()
      modifies `rmtWnd, `sndBuf, `nsndBuf, `sndUna, `rxSrtt, `rxRttval, `rxRto
      modifies `rcvNxt, `rcvBuf, `rcvQueue, `nrcvBuf, `nrcvQue, `acklist, `askTell
      ensures Valid()
      ensures code == Parse(conv, data).code
      ensures Value() == E.OnWires(old(Value()), Parse(conv, data).ws)
      ensures code == 0 ==> maxack == E.CollectAll(E.NoAck, Parse(conv, data).ws)
    {
      hide Parse, E.OnWires, E.CollectAll;
      ghost var k := Value();
      ghost var parsed := Parse(conv, data);
      maxack := E.NoAck;
      var p := 0;
      assert data[0..] == data;
      while |data| - p >= OVERHEAD
        invariant 0 <= p <= |data| && Valid()
        invariant Parse(conv, data[p..]).code == parsed.code
        invariant E.OnWires(Value(), Parse(conv, data[p..]).ws) == E.OnWires(k, parsed.ws)
        invariant E.CollectAll(maxack, Parse(conv, data[p..]).ws) == E.CollectAll(E.NoAck, parsed.ws)
        decreases |data| - p
      {
        code, p, maxack := Turn(data, p, maxack);
        if code != 0 {
          L.NoWires(Value(), maxack);
          return;
        }
      }
      L.ParseStops(conv, data, p);
      L.NoWires(Value(), maxack);
      code := 0;
    }

    /** What follows a decode loop that ran to the end. */
    method Conclude(maxack: E.MaxAck, una: u32)
      requires Valid()
      modifies `sndBuf, `cwnd, `incr
      ensures Valid() && Value() == E.Conclude(old(Value()), maxack, una)
    {
      hide Diff, S.FastAck, C.Grow, E.Conclude;
      ghost var v := Value();
      if maxack.MaxAck? {
        ParseFastack(maxack.sn);
      }
      assert SenderValue() == if maxack.NoAck? then v.snd else S.FastAck(v.snd, maxack.sn);
      if Diff(sndUna, una) > 0 {
        GrowWindow();
      }
      L.ConcludeIs(v, maxack, una);
    }

    method Input(data: Bytes) returns (code: int)
      requires Valid()
      modifies `rmtWnd, `sndBuf, `nsndBuf, `sndUna, `rxSrtt, `rxRttval, `rxRto, `cwnd, `incr
      modifies `rcvNxt, `rcvBuf, `rcvQueue, `nrcvBuf, `nrcvQue, `acklist, `askTell
      ensures Valid()
      ensures E.Result(code, Value()) == E.Input(old(Value()), data)
    {
      hide Parse, E.OnWires, E.CollectAll, E.Conclude;
      ghost var k := Value();
      var una := sndUna;
      if |data| < OVERHEAD { return -1; }
      var maxack;
      code, maxack := Decode(data);
      E.OnWiresConfig(k, Parse(conv, data).ws);
      if code == 0 {
        Conclude(maxack, una);
      }
    }

    // ---------- output ----------

    /** ikcp_output: an empty buffer is not sent. */
    method Output(size: nat)
      requires Valid() && size <= buffer.Length
      modifies `sent
      ensures Packing(sent, []) == Finish(Packing(old(sent), buffer[..size]))
    {
      if size == 0 { return; }
      sent := sent + [buffer[..size]];
    }

    /** Write bytes at position p of the output buffer. */
    method Store(p: nat, b: Bytes) returns (q: nat)
      requires Valid() && p + |b| <= buffer.Length
      modifies buffer
      ensures q == p + |b| && buffer[..q] == old(buffer[..p]) + b
    {
      var i := 0;
      while i < |b|
        invariant 0 <= i <= |b| && buffer[..p + i] == old(buffer[..p]) + b[..i]
      {
        buffer[p + i] := b[i];
        i := i + 1;
      }
      q := p + |b|;
    }

    /** ikcp_encode_seg, and the bytes of the segment behind it. */
    method EncodeSeg(w: Wire, ptr: nat) returns (next: nat)
      requires Valid() && ptr + OVERHEAD + |w.data| <= buffer.Length
      modifies buffer
      ensures next == ptr + OVERHEAD + |w.data|
      ensures buffer[..next] == old(buffer[..ptr]) + Encode(conv, w)
    {
      hide Encode, Enc, Wrap;
      ghost var b := buffer[..ptr];
      next := Store(ptr, Enc(conv, 4));
      next := Store(next, [w.cmd]);
      next := Store(next, [w.frg]);
      next := Store(next, Enc(w.wnd, 2));
      next := Store(next, Enc(w.ts, 4));
      next := Store(next, Enc(w.sn, 4));
      next := Store(next, Enc(w.una, 4));
      next := Store(next, Enc(Wrap(|w.data|), 4));
      next := Store(next, w.data);
      L.EncodePieces(conv, w, b);
    }

    /** Put one segment into the buffer, sending the buffer first when it has no room left below the mtu. */
    method Emit(w: Wire, ptr: nat) returns (next: nat)
      requires Valid() && ptr <= buffer.Length && After(mtu, ptr, w) <= buffer.Length
      modifies buffer, `sent
      ensures next == After(mtu, ptr, w)
      ensures Packing(sent, buffer[..next]) == Put(conv, mtu, old(Packing(sent, buffer[..ptr])), w)
    {
      hide Encode;
      var p := ptr;
      if ptr + OVERHEAD + |w.data| > mtu {
        Output(ptr);
        p := 0;
      }
      assert Packing(sent, buffer[..p]) == Room(mtu, old(Packing(sent, buffer[..ptr])), OVERHEAD + |w.data|);
      next := EncodeSeg(w, p);
    }

    method WndUnused() returns (n: u16)
      requires Valid()
      ensures n == E.Unused(ReceiverValue())
    {
      n := 0;
      if nrcvQue < rcvWnd { n := (rcvWnd - nrcvQue) % 0x1_0000; }
    }

    method FlushAcks(wnd: u16) returns (ptr: nat)
      requires Valid() && Peak(mtu, 0, E.AckWires(acklist, wnd, rcvNxt)) <= buffer.Length
      modifies buffer, `sent, `acklist
      ensures Valid() && acklist == [] && ptr <= buffer.Length
      ensures Packing(sent, buffer[..ptr]) == PutAll(conv, mtu, Packing(old(sent), []), E.AckWires(old(acklist), wnd, rcvNxt))
    {
      hide Put, After, Peak;
      ghost var all := PutAll(conv, mtu, Packing(sent, []), E.AckWires(acklist, wnd, rcvNxt));
      ptr := 0;
      var i := 0;
      assert acklist[0..] == acklist && buffer[..0] == [];
      while i < |acklist|
        invariant 0 <= i <= |acklist| && acklist == old(acklist) && ptr <= buffer.Length && Valid()
        invariant PutAll(conv, mtu, Packing(sent, buffer[..ptr]), E.AckWires(acklist[i..], wnd, rcvNxt)) == all
        invariant Peak(mtu, ptr, E.AckWires(acklist[i..], wnd, rcvNxt)) <= buffer.Length
      {
        L.AckStep(conv, mtu, Packing(sent, buffer[..ptr]), acklist, i, wnd, rcvNxt);
        ptr := Emit(E.AckWire(acklist[i], wnd, rcvNxt), ptr);
        i := i + 1;
      }
      acklist := [];
    }

    method TickProbe()
      modifies `askSend, `tsProbe, `probeWait
      ensures ProbeValue() == E.ProbeTick(old(ProbeValue()), rmtWnd, current)
    {
      if rmtWnd == 0 {
        if probeWait == 0 {
          probeWait := C.PROBE_INIT;
          tsProbe := Wrap(current + probeWait);
        } else if Diff(current, tsProbe) >= 0 {
          if probeWait < C.PROBE_INIT { probeWait := C.PROBE_INIT; }
          probeWait := Wrap(probeWait + probeWait / 2);
          if probeWait > C.PROBE_LIMIT { probeWait := C.PROBE_LIMIT; }
          tsProbe := Wrap(current + probeWait);
          askSend := true;
        }
      } else {
        tsProbe, probeWait := 0, 0;
      }
    }

    method FlushProbes(ptr: nat, last: E.Ack, wnd: u16) returns (next: nat)
      requires Valid() && ptr <= buffer.Length
      requires Peak(mtu, ptr, E.ProbeWires(E.Probe(askSend, askTell, tsProbe, probeWait), last, wnd, rcvNxt)) <= buffer.Length
      modifies buffer, `sent, `askSend, `askTell
      ensures Valid() && next <= buffer.Length && !askSend && !askTell
      ensures Packing(sent, buffer[..next]) == PutAll(conv, mtu, old(Packing(sent, buffer[..ptr])),
        E.ProbeWires(E.Probe(old(askSend), old(askTell), tsProbe, probeWait), last, wnd, rcvNxt))
    {
      hide Put, After, Peak;
      ghost var p := Packing(sent, buffer[..ptr]);
      next := ptr;
      L.ProbePeak(mtu, ptr, E.Probe(askSend, askTell, tsProbe, probeWait), last, wnd, rcvNxt);
      if askSend {
        next := Emit(Wire(CMD_WASK, 0, wnd, last.ts, last.sn, rcvNxt, []), next);
      }
      if askTell {
        next := Emit(Wire(CMD_WINS, 0, wnd, last.ts, last.sn, rcvNxt, []), next);
      }
      L.ProbeSteps(conv, mtu, p, E.Probe(askSend, askTell, tsProbe, probeWait), last, wnd, rcvNxt);
      askSend, askTell := false, false;
    }

    /** Move fragments from snd_queue to snd_buf while the window has room. */
    method AdmitQueue(window: u32, t: S.Stamp)
      requires Valid()
      modifies `sndNxt, `sndBuf, `nsndBuf, `sndQueue, `nsndQue
      ensures Valid()
      ensures SenderValue() == S.Admit(old(SenderValue()), window, t)
    {
      hide Diff, S.Fresh;
      while Diff(sndNxt, Wrap(sndUna + window)) < 0
        invariant Valid()
        invariant S.Admit(SenderValue(), window, t) == S.Admit(old(SenderValue()), window, t)
        decreases |sndQueue|
      {
        if sndQueue == [] { break; }
        sndBuf, nsndBuf := sndBuf + [S.Fresh(sndQueue[0], sndNxt, t)], nsndBuf + 1;
        sndQueue, nsndQue := sndQueue[1..], nsndQue - 1;
        sndNxt := Wrap(sndNxt + 1);
      }
    }

    /** Decide about one segment of the window and stamp it if it is to be sent. */
    method Touch(i: nat, t: E.Tick) returns (needsend: bool, change: bool, lost: bool)
      requires Valid() && i < |sndBuf|
      modifies `sndBuf
      ensures Valid() && |sndBuf| == |old(sndBuf)| && sndBuf == old(sndBuf)[i := sndBuf[i]]
      ensures E.Outcome(sndBuf[i], needsend, change, lost) == E.Transmit(old(sndBuf[i]), t)
    {
      hide Diff;
      needsend, change, lost := false, false, false;
      var seg := sndBuf[i];
      if seg.xmit == 0 {
        needsend := true;
        seg := seg.(xmit := Wrap(seg.xmit + 1), rto := t.rto);
        seg := seg.(resendts := Wrap(t.current + seg.rto + t.rtomin));
      } else if Diff(t.current, seg.resendts) >= 0 {
        needsend, lost := true, true;
        seg := seg.(xmit := Wrap(seg.xmit + 1), rto := Wrap(seg.rto + (if t.nodelay then t.rto / 2 else t.rto)));
        seg := seg.(resendts := Wrap(t.current + seg.rto));
      } else if seg.fastack >= t.resent {
        needsend, change := true, true;
        seg := seg.(xmit := Wrap(seg.xmit + 1), fastack := 0, resendts := Wrap(t.current + seg.rto));
      }
      if needsend {
        seg := seg.(ts := t.current, wnd := t.wnd, una := t.una);
      }
      sndBuf := sndBuf[i := seg];
    }

    /** One segment of the sweep: decide, and write it out if it is to be sent. */
    method SweepOne(i: nat, t: E.Tick, ptr: nat) returns (next: nat, change: bool, lost: bool)
      requires Valid() && ptr <= buffer.Length && i < |sndBuf|
      requires var h := E.Transmit(sndBuf[i], t); h.send ==> After(mtu, ptr, E.PushWire(h.seg)) <= buffer.Length
      modifies buffer, `sent, `sndBuf
      ensures Valid() && |sndBuf| == |old(sndBuf)| && sndBuf == old(sndBuf)[i := sndBuf[i]]
      ensures var h0 := E.Transmit(old(sndBuf)[i], t); next == if h0.send then After(mtu, ptr, E.PushWire(h0.seg)) else ptr
      ensures next <= buffer.Length
      ensures var h := E.Transmit(old(sndBuf)[i], t);
        && sndBuf[i] == h.seg && change == h.change && lost == h.lost
        && Packing(sent, buffer[..next]) ==
           if h.send then Put(conv, mtu, old(Packing(sent, buffer[..ptr])), E.PushWire(h.seg))
           else old(Packing(sent, buffer[..ptr]))
    {
      hide Put, E.Transmit, After;
      var needsend;
      needsend, change, lost := Touch(i, t);
      next := ptr;
      if needsend {
        next := Emit(E.PushWire(sndBuf[i]), ptr);
      }
    }

    method FlushData(ptr: nat, t: E.Tick) returns (next: nat, change: bool, lost: bool)
      requires Valid() && ptr <= buffer.Length && Peak(mtu, ptr, E.SweepAll(sndBuf, t).ws) <= buffer.Length
      modifies buffer, `sent, `sndBuf
      ensures Valid() && next <= buffer.Length
      ensures sndBuf == E.SweepAll(old(sndBuf), t).buf
      ensures change == E.SweepAll(old(sndBuf), t).change && lost == E.SweepAll(old(sndBuf), t).lost
      ensures Packing(sent, buffer[..next]) == PutAll(conv, mtu, old(Packing(sent, buffer[..ptr])), E.SweepAll(old(sndBuf), t).ws)
    {
      hide Put, PutAll, E.Transmit, E.SweepAll, After, Peak;
      ghost var b := sndBuf;
      ghost var s := E.SweepAll(b, t);
      ghost var all := PutAll(conv, mtu, Packing(sent, buffer[..ptr]), s.ws);
      next, change, lost := ptr, false, false;
      var i := 0;
      assert b[0..] == b;
      while i < |sndBuf|
        invariant 0 <= i <= |sndBuf| == |b| && next <= buffer.Length && Valid()
        invariant sndBuf[i..] == b[i..]
        invariant s.buf == sndBuf[..i] + E.SweepAll(b[i..], t).buf
        invariant (change || E.SweepAll(b[i..], t).change) == s.change
        invariant (lost || E.SweepAll(b[i..], t).lost) == s.lost
        invariant PutAll(conv, mtu, Packing(sent, buffer[..next]), E.SweepAll(b[i..], t).ws) == all
        invariant Peak(mtu, next, E.SweepAll(b[i..], t).ws) <= buffer.Length
      {
        ghost var before := sndBuf;
        L.SweepStep(before, b, t, i);
        L.SweepPut(conv, mtu, Packing(sent, buffer[..next]), b, t, i);
        var c, l;
        next, c, l := SweepOne(i, t, next);
        L.SweepShift(before, b, t, i, sndBuf);
        change, lost := change || c, lost || l;
        i := i + 1;
      }
      L.SweepEnd(b, t, i);
      L.PutNone(conv, mtu, Packing(sent, buffer[..next]));
      assert sndBuf[..i] + [] == sndBuf;
    }

    /** Slow start and congestion avoidance after a flush. */
    method AdjustWindow(change: bool, lost: bool, resent: u32, window: u32)
      modifies `ssthresh, `cwnd, `incr
      ensures CongestionValue()
           == C.AfterFlush(old(CongestionValue()), mss, change, lost, S.InFlight(SenderValue()), resent, window)
    {
      if change {
        var inflight := Wrap(sndNxt - sndUna);
        ssthresh := inflight / 2;
        if ssthresh < C.THRESH_MIN { ssthresh := C.THRESH_MIN; }
        cwnd := Wrap(ssthresh + resent);
        incr := Wrap(cwnd * mss);
      }
      if lost {
        ssthresh := window / 2;
        if ssthresh < C.THRESH_MIN { ssthresh := C.THRESH_MIN; }
        cwnd := 1;
        incr := mss;
      }
      if cwnd < 1 {
        cwnd := 1;
        incr := mss;
      }
    }

    /** The settings one flush works with. */
    method ReadTick() returns (t: E.Tick, window: u32)
      requires Valid()
      ensures t == E.TickOf(Value()) && window == E.WindowSize(Value())
    {
      var wnd := WndUnused();
      window := Min(sndWnd, rmtWnd);
      if !nocwnd { window := Min(cwnd, window); }
      var resent: u32 := if fastresend > 0 then Wrap(fastresend) else 0xFFFF_FFFF;
      var rtomin: u32 := if nodelay then 0 else rxRto / 8;
      t := E.Tick(current, wnd, rcvNxt, rxRto, rtomin, nodelay, resent);
    }

    /** The header part of a flush: pending acknowledgements and probes. */
    method FlushHeaders(wnd: u16) returns (ptr: nat)
      requires Valid() && wnd == E.Unused(ReceiverValue())
      requires Peak(mtu, 0, E.AckWires(acklist, wnd, rcvNxt)
        + E.ProbeWires(E.ProbeTick(ProbeValue(), rmtWnd, current), E.LastAck(acklist), wnd, rcvNxt)) <= buffer.Length
      modifies buffer, `sent, `acklist, `askSend, `askTell, `tsProbe, `probeWait
      ensures Valid() && ptr <= buffer.Length && acklist == []
      ensures ProbeValue() == E.ProbeTick(old(ProbeValue()), rmtWnd, current).(askSend := false, askTell := false)
      ensures Packing(sent, buffer[..ptr]) == PutAll(conv, mtu, Packing(old(sent), []),
        E.AckWires(old(acklist), wnd, rcvNxt)
        + E.ProbeWires(E.ProbeTick(old(ProbeValue()), rmtWnd, current), E.LastAck(old(acklist)), wnd, rcvNxt))
    {
      hide E.AckWires, E.ProbeWires, Put, E.ProbeTick, Peak;
      ghost var acks := E.AckWires(acklist, wnd, rcvNxt);
      ghost var probe := E.ProbeTick(ProbeValue(), rmtWnd, current);
      ghost var p := Packing(sent, []);
      var last := E.LastAck(acklist);
      PeakAppend(conv, mtu, p, acks, E.ProbeWires(probe, last, wnd, rcvNxt));
      ptr := FlushAcks(wnd);
      TickProbe();
      ptr := FlushProbes(ptr, last, wnd);
      PutAllAppend(conv, mtu, p, acks, E.ProbeWires(probe, last, wnd, rcvNxt));
    }

    /** The data part of a flush: admit, sweep, and send what is left in the buffer. */
    method FlushSegments(ptr: nat, t: E.Tick, window: u32) returns (change: bool, lost: bool)
      requires Valid() && ptr <= buffer.Length
      requires var s := S.Admit(SenderValue(), window, S.Stamp(t.current, t.wnd, t.una, t.rto));
        Peak(mtu, ptr, E.SweepAll(s.buf, t).ws) <= buffer.Length
      modifies `sndNxt, `sndBuf, `nsndBuf, `sndQueue, `nsndQue, `sent, buffer
      ensures Valid()
      ensures var s := S.Admit(old(SenderValue()), window, S.Stamp(t.current, t.wnd, t.una, t.rto));
        var sweep := E.SweepAll(s.buf, t);
        && SenderValue() == s.(buf := sweep.buf) && change == sweep.change && lost == sweep.lost
        && sent == Finish(PutAll(conv, mtu, old(Packing(sent, buffer[..ptr])), sweep.ws)).out
    {
      hide S.Admit, E.SweepAll, PutAll, Peak;
      AdmitQueue(window, S.Stamp(t.current, t.wnd, t.una, t.rto));
      var next;
      next, change, lost := FlushData(ptr, t);
      Output(next);
    }

    /** The caller is asked for no more than that what is written now stays inside the buffer. */
    method Flush()
      requires Valid() && (updated ==> E.Reach(Value()) <= buffer.Length)
      modifies `sndNxt, `sndBuf, `nsndBuf, `sndQueue, `nsndQue, `acklist, `askSend, `askTell, `tsProbe, `probeWait
      modifies `ssthresh, `cwnd, `incr, `sent, buffer
      ensures Valid()
      ensures Value() == E.Flush(old(Value())).state && sent == old(sent) + E.Flush(old(Value())).out
    {
      if updated {
        DoFlush();
      } else {
        assert sent + [] == sent;
      }
      hide E.FlushState, Pack, E.FlushWires;
    }

    /** The writing part and the window adjustment, for settings read beforehand. */
    method FlushWith(t: E.Tick, window: u32)
      requires Valid() && t.wnd == E.Unused(ReceiverValue()) && t.una == rcvNxt
      requires var acks := E.AckWires(acklist, t.wnd, t.una);
        var probes := E.ProbeWires(E.ProbeTick(ProbeValue(), rmtWnd, current), E.LastAck(acklist), t.wnd, t.una);
        var s := S.Admit(SenderValue(), window, S.Stamp(t.current, t.wnd, t.una, t.rto));
        && Peak(mtu, 0, acks + probes) <= buffer.Length
        && Peak(mtu, |PutAll(conv, mtu, Packing(sent, []), acks + probes).cur|, E.SweepAll(s.buf, t).ws) <= buffer.Length
      modifies `sndNxt, `sndBuf, `nsndBuf, `sndQueue, `nsndQue, `acklist, `askSend, `askTell, `tsProbe, `probeWait
      modifies `ssthresh, `cwnd, `incr, `sent, buffer
      ensures Valid() && acklist == []
      ensures ProbeValue() == E.ProbeTick(old(ProbeValue()), rmtWnd, current).(askSend := false, askTell := false)
      ensures var s := S.Admit(old(SenderValue()), window, S.Stamp(t.current, t.wnd, t.una, t.rto));
        var sweep := E.SweepAll(s.buf, t);
        && SenderValue() == s.(buf := sweep.buf)
        && CongestionValue()
           == C.AfterFlush(old(CongestionValue()), mss, sweep.change, sweep.lost, S.InFlight(SenderValue()), t.resent, window)
        && sent == Finish(PutAll(conv, mtu, PutAll(conv, mtu, Packing(old(sent), []),
             E.AckWires(old(acklist), t.wnd, t.una)
             + E.ProbeWires(E.ProbeTick(old(ProbeValue()), rmtWnd, current), E.LastAck(old(acklist)), t.wnd, t.una)),
             sweep.ws)).out
    {
      hide E.ProbeTick, E.AckWires, E.ProbeWires, E.SweepAll, S.Admit, C.AfterFlush, E.Unused, E.LastAck,
           PutAll, S.InFlight, Peak;
      var ptr := FlushHeaders(t.wnd);
      var change, lost := FlushSegments(ptr, t, window);
      AdjustWindow(change, lost, t.resent, window);
    }

    method DoFlush()
      requires Valid() && updated && E.Reach(Value()) <= buffer.Length
      modifies `sndNxt, `sndBuf, `nsndBuf, `sndQueue, `nsndQue, `acklist, `askSend, `askTell, `tsProbe, `probeWait
      modifies `ssthresh, `cwnd, `incr, `sent, buffer
      ensures Valid()
      ensures Value() == E.FlushState(old(Value()))
      ensures sent == old(sent) + Pack(conv, mtu, E.FlushWires(old(Value())))
    {
      hide E.ProbeTick, E.AckWires, E.ProbeWires, E.SweepAll, S.Admit, C.AfterFlush, E.WindowSize, E.TickOf, E.Unused;
      hide Pack, PutAll, E.FlushState, E.FlushWires, E.LastAck, S.InFlight, Peak;
      ghost var k := Value();
      var t, window := ReadTick();
      L.TickParts(k);
      L.ReachSplits(k, sent);
      FlushWith(t, window);
      L.FlushStateIs(k, Value());
      L.FlushBytes(k, old(sent));
    }

    // ---------- timing ----------

    /** The clock part of ikcp_update. */
    method Tick(now: u32) returns (due: bool)
      modifies `current, `updated, `tsFlush
      ensures current == now && updated && (tsFlush, due) == E.NextFlush(old(updated), old(tsFlush), interval, now)
    {
      hide Diff;
      current := now;
      if !updated {
        updated := true;
        tsFlush := current;
      }
      var slap := Diff(current, tsFlush);
      if slap >= 10000 || slap < -10000 {
        tsFlush := current;
        slap := 0;
      }
      due := slap >= 0;
      if due {
        tsFlush := Wrap(tsFlush + interval);
        if Diff(current, tsFlush) >= 0 {
          tsFlush := Wrap(current + interval);
        }
      }
    }

    method Update(now: u32)
      requires Valid() && (E.Clock(Value(), now).1 ==> E.Reach(E.Clock(Value(), now).0) <= buffer.Length)
      modifies `current, `updated, `tsFlush
      modifies `sndNxt, `sndBuf, `nsndBuf, `sndQueue, `nsndQue, `acklist, `askSend, `askTell, `tsProbe, `probeWait
      modifies `ssthresh, `cwnd, `incr, `sent, buffer
      ensures Valid()
      ensures Value() == E.Update(old(Value()), now).state && sent == old(sent) + E.Update(old(Value()), now).out
    {
      hide E.NextFlush, E.Flush, E.Reach, E.Update;
      ghost var k := Value();
      var due := Tick(now);
      assert (Value(), due) == E.Clock(k, now);
      L.UpdateIs(k, now);
      hide E.Clock;
      if due {
        Flush();
      } else {
        assert sent + [] == sent;
      }
    }

    method Check(now: u32) returns (t: u32)
      requires Valid()
      ensures t == E.Check(Value(), now)
    {
      hide Diff;
      if !updated { return now; }
      var flushAt := tsFlush;
      if Diff(now, flushAt) >= 10000 || Diff(now, flushAt) < -10000 {
        return now;  // ts_flush becomes current, and the flush is due
      }
      if Diff(now, flushAt) >= 0 { return now; }
      var packet := 0x7FFF_FFFF;
      var p := 0;
      while p < |sndBuf|
        invariant 0 <= p <= |sndBuf|
        invariant E.Nearest(sndBuf[p..], now, packet) == E.Nearest(sndBuf, now, 0x7FFF_FFFF)
        invariant packet > 0
      {
        assert sndBuf[p..][0] == sndBuf[p] && sndBuf[p..][1..] == sndBuf[p + 1..];
        var diff := Diff(sndBuf[p].resendts, now);
        if diff <= 0 { return now; }
        packet := Min(packet, diff);
        p := p + 1;
      }
      var minimal := Min(packet, Diff(flushAt, now));
      if minimal >= interval { minimal := interval; }
      t := Wrap(now + minimal);
    }

    // ---------- settings ----------

    method NoDelay(nodelayArg: int, intervalArg: int, resend: int, nc: int)
      modifies `nodelay, `rxMinrto, `interval, `fastresend, `nocwnd
      ensures ConfigValue() == E.NoDelayConfig(old(ConfigValue()), nodelayArg, intervalArg, resend, nc)
      ensures if nodelayArg < 0 then nodelay == old(nodelay) && rxMinrto == old(rxMinrto)
              else (nodelay <==> nodelayArg > 0) && rxMinrto == if nodelayArg > 0 then 30 else 100
      ensures if intervalArg < 0 then interval == old(interval)
              else interval as int == Min(Max(intervalArg, 10), 5000)
      ensures fastresend == if resend < 0 then old(fastresend) else resend
      ensures if nc < 0 then nocwnd == old(nocwnd) else (nocwnd <==> nc > 0)
    {
      if nodelayArg >= 0 {
        nodelay := nodelayArg != 0;
        rxMinrto := if nodelay then 30 else 100;
      }
      if intervalArg >= 0 { interval := E.Clamp(intervalArg); }
      if resend >= 0 { fastresend := resend; }
      if nc >= 0 { nocwnd := nc != 0; }
    }

    method Interval(intervalArg: int)
      modifies `interval
      ensures Value() == E.Interval(old(Value()), intervalArg)
      ensures interval as int == Min(Max(intervalArg, 10), 5000)
    {
      interval := E.Clamp(intervalArg);
    }

    method WndSize(sndwnd: E.int32, rcvwnd: E.int32)
      modifies `sndWnd, `rcvWnd
      ensures Value() == E.WndSize(old(Value()), sndwnd, rcvwnd)
      ensures sndWnd == if sndwnd <= 0 then old(sndWnd) else sndwnd
      ensures if rcvwnd <= 0 then rcvWnd == old(rcvWnd)
              else rcvWnd as int == Max(rcvwnd, 128)
    {
      if sndwnd > 0 { sndWnd := sndwnd; }
      if rcvwnd > 0 { rcvWnd := Max(rcvwnd, E.WND_RCV); }
    }

    /** A fresh buffer for the new size; what is queued keeps the size it was cut with. */
    method SetMtu(newMtu: E.int32) returns (code: int)
      requires Valid()
      modifies `mtu, `mss, `buffer
      ensures Valid() && code == E.SetMtu(old(Value()), newMtu).code
      ensures ConfigValue() == E.SetMtu(old(Value()), newMtu).state.cfg
      ensures buffer == old(buffer) || fresh(buffer)
    {
      if newMtu < 50 { return -1; }
      mtu, mss := newMtu, newMtu - OVERHEAD;
      buffer := new u8[E.BufferSize(newMtu)];
      code := 0;
    }
  }
}
