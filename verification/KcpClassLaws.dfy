/** One step of each loop over a queue, as the function it computes sees it. */
module KcpClassLaws {
  import opened Numbers
  import opened LittleEndian
  import opened KcpWire
  import S = KcpSender
  import R = KcpReceiver
  import C = KcpControl
  import F = KcpFragments
  import E = KcpEngine

  /** The bytes of the fragments that ikcp_recv merges. */
  function Merged(q: seq<Wire>): Bytes {
    R.Join(q[..R.HeadCount(q)])
  }

  lemma HeadStep(q: seq<Wire>, m: nat)
    requires m < |q|
    ensures q[m..][0] == q[m] && q[m..][1..] == q[m + 1..]
    ensures R.HeadCount(q[m..]) == if q[m].frg == 0 then 1 else 1 + R.HeadCount(q[m + 1..])
    ensures Merged(q[m..]) == q[m].data + (if q[m].frg == 0 then [] else Merged(q[m + 1..]))
  {
    var s := q[m..];
    var n := R.HeadCount(s);
    assert s[1..] == q[m + 1..];
    assert s[..n][1..] == q[m + 1..][..n - 1];
    assert Merged(s) == s[..n][0].data + R.Join(s[..n][1..]);
    if q[m].frg == 0 {
      assert s[..n][1..] == [];
    }
  }

  lemma RemoveStep(b: seq<S.OutSeg>, sn: u32, p: nat)
    requires p < |b| && S.RemoveSn(b, sn) == b[..p] + S.RemoveSn(b[p..], sn)
    ensures b[p].sn == sn ==> S.RemoveSn(b, sn) == b[..p] + b[p + 1..]
    ensures b[p].sn != sn && Diff(sn, b[p].sn) < 0 ==> S.RemoveSn(b, sn) == b
    ensures b[p].sn != sn && Diff(sn, b[p].sn) >= 0 ==> S.RemoveSn(b, sn) == b[..p + 1] + S.RemoveSn(b[p + 1..], sn)
  {
    hide Diff;
    assert b[p..][0] == b[p] && b[p..][1..] == b[p + 1..];
    RemoveUnfold(b[p..], sn);
    RemoveShift(b, p, S.RemoveSn(b[p + 1..], sn));
    hide S.RemoveSn;
  }

  lemma RemoveUnfold(b: seq<S.OutSeg>, sn: u32)
    requires b != []
    ensures S.RemoveSn(b, sn) ==
      if b[0].sn == sn then b[1..] else if Diff(sn, b[0].sn) < 0 then b else [b[0]] + S.RemoveSn(b[1..], sn)
  {
    hide Diff;
  }

  lemma RemoveShift(b: seq<S.OutSeg>, p: nat, rest: seq<S.OutSeg>)
    requires p < |b|
    ensures b == b[..p] + b[p..]
    ensures b[..p] + ([b[p]] + rest) == b[..p + 1] + rest
  {
  }

  lemma RemoveEnd(b: seq<S.OutSeg>, sn: u32)
    requires S.RemoveSn(b, sn) == b[..|b|] + S.RemoveSn(b[|b|..], sn)
    ensures S.RemoveSn(b, sn) == b
  {
    assert b[..|b|] == b && b[|b|..] == [];
  }

  lemma SkipHead(before: seq<S.OutSeg>, b: seq<S.OutSeg>, sn: u32, p: nat)
    requires p < |before| == |b| && before[p..] == b[p..]
    requires S.CountSkips(b, sn) == before[..p] + S.CountSkips(b[p..], sn)
    ensures before[p] == b[p]
    ensures Diff(sn, b[p].sn) < 0 ==> S.CountSkips(b, sn) == before
  {
    hide Diff;
    assert before[p..][0] == before[p] && b[p..][0] == b[p];
    assert before == before[..p] + before[p..];
  }

  lemma SkipStep(before: seq<S.OutSeg>, b: seq<S.OutSeg>, sn: u32, p: nat, after: seq<S.OutSeg>)
    requires p < |before| == |b| && before[p..] == b[p..] && Diff(sn, b[p].sn) >= 0
    requires after == before[p := if sn != b[p].sn then b[p].(fastack := Wrap(b[p].fastack + 1)) else b[p]]
    requires S.CountSkips(b, sn) == before[..p] + S.CountSkips(b[p..], sn)
    ensures after[p + 1..] == b[p + 1..]
    ensures S.CountSkips(b, sn) == after[..p + 1] + S.CountSkips(b[p + 1..], sn)
  {
    hide Diff, Wrap;
    SkipUnfold(b[p..], sn);
    assert b[p..][0] == b[p] && b[p..][1..] == b[p + 1..];
    SkipShift(before, b, p, after, S.CountSkips(b[p + 1..], sn));
    hide S.CountSkips;
  }

  lemma SkipEnd(after: seq<S.OutSeg>, b: seq<S.OutSeg>, sn: u32, p: nat)
    requires p == |after| == |b| && S.CountSkips(b, sn) == after[..p] + S.CountSkips(b[p..], sn)
    ensures S.CountSkips(b, sn) == after
  {
    assert b[p..] == [] && after[..p] == after;
  }

  lemma SkipUnfold(b: seq<S.OutSeg>, sn: u32)
    requires b != [] && Diff(sn, b[0].sn) >= 0
    ensures S.CountSkips(b, sn)
         == [if sn != b[0].sn then b[0].(fastack := Wrap(b[0].fastack + 1)) else b[0]] + S.CountSkips(b[1..], sn)
  {
  }

  lemma SkipShift(before: seq<S.OutSeg>, b: seq<S.OutSeg>, p: nat, after: seq<S.OutSeg>, rest: seq<S.OutSeg>)
    requires p < |before| == |b| && before[p..] == b[p..] && |after| == |b|
    requires after == before[p := after[p]]
    ensures after[p + 1..] == b[p + 1..]
    ensures before[..p] + ([after[p]] + rest) == after[..p + 1] + rest
  {
    assert before[p..][1..] == before[p + 1..] && b[p..][1..] == b[p + 1..];
    assert after[p + 1..] == before[p + 1..];
    assert before[..p] + [after[p]] == after[..p + 1];
  }

  lemma QueueOne(q: seq<S.Chunk>, rest: Bytes, mss: nat, n: nat, stream: bool)
    requires mss > 0 && 0 < n <= 256
    ensures var size := Min(|rest|, mss);
      var c := S.Chunk(if stream then 0 else n - 1, rest[..size]);
      q + F.Fragments(rest, mss, n, stream) == q + [c] + F.Fragments(rest[size..], mss, n - 1, stream)
  {
    var size := Min(|rest|, mss);
    var c := S.Chunk(if stream then 0 else n - 1, rest[..size]);
    var more := F.Fragments(rest[size..], mss, n - 1, stream);
    assert F.Fragments(rest, mss, n, stream) == [c] + more;
    hide F.Fragments;
    assert q + ([c] + more) == q + [c] + more;
  }

  /** Where the decode loop stops, and what it leaves unread. */
  lemma ParseStops(conv: u32, data: Bytes, p: nat)
    requires p <= |data|
    ensures |data| - p < OVERHEAD ==> Parse(conv, data[p..]) == Parsed([], 0)
    ensures |data| - p >= OVERHEAD ==>
      var h := DecodeHeader(data[p..]);
      && (h.conv != conv ==> Parse(conv, data[p..]) == Parsed([], -1))
      && (h.conv == conv && (h.len > |data| - p - OVERHEAD || h.len >= 0x8000_0000) ==> Parse(conv, data[p..]) == Parsed([], -2))
      && (h.conv == conv && h.len <= |data| - p - OVERHEAD && h.len < 0x8000_0000 && !KnownCmd(h.cmd)
          ==> Parse(conv, data[p..]) == Parsed([], -3))
  {
    hide DecodeHeader, HeadWire;
  }

  /** One turn of the decode loop. */
  lemma ParseStep(conv: u32, data: Bytes, p: nat, k: E.State, m: E.MaxAck)
    requires p + OVERHEAD <= |data|
    requires var h := DecodeHeader(data[p..]);
      h.conv == conv && h.len <= |data| - p - OVERHEAD && h.len < 0x8000_0000 && KnownCmd(h.cmd)
    ensures var w := HeadWire(data[p..]);
      var rest := Parse(conv, data[p + OVERHEAD + DecodeHeader(data[p..]).len..]);
      && Parse(conv, data[p..]).code == rest.code
      && E.OnWires(k, Parse(conv, data[p..]).ws) == E.OnWires(E.OnWire(k, w), rest.ws)
      && E.CollectAll(m, Parse(conv, data[p..]).ws) == E.CollectAll(E.Collect(m, w), rest.ws)
  {
    var b := data[p..];
    var h := DecodeHeader(b);
    var w := HeadWire(b);
    assert b[OVERHEAD + h.len..] == data[p + OVERHEAD + h.len..];
    var rest := Parse(conv, b[OVERHEAD + h.len..]);
    assert Parse(conv, b).ws == [w] + rest.ws;
    hide DecodeHeader, HeadWire, Parse, E.OnWire, E.Collect;
    assert ([w] + rest.ws)[1..] == rest.ws;
  }

  lemma NoWires(k: E.State, m: E.MaxAck)
    ensures E.OnWires(k, []) == k && E.CollectAll(m, []) == m
  {
  }

  lemma OnWireIs(k: E.State, k': E.State, w: Wire)
    requires k'.snd == E.SenderOn(k.snd, w) && k'.rcv == E.ReceiverOn(k.rcv, w)
    requires k'.acks == E.AcksOn(k.rcv, k.acks, w) && k'.rtt == E.RttOn(k.rtt, k.current, k.cfg.interval, k.cfg.minrto, w)
    requires k'.probe == k.probe.(askTell := k.probe.askTell || w.cmd == CMD_WASK)
    requires k'.rmtWnd == w.wnd && k'.cfg == k.cfg && k'.cc == k.cc
    requires k'.current == k.current && k'.updated == k.updated && k'.tsFlush == k.tsFlush
    ensures k' == E.OnWire(k, w)
  {
    hide E.SenderOn, E.ReceiverOn, E.AcksOn, E.RttOn;
  }

  lemma ConcludeIs(k: E.State, m: E.MaxAck, una: u32)
    requires k.cfg.mss > 0
    ensures var s := if m.NoAck? then k.snd else S.FastAck(k.snd, m.sn);
      E.Conclude(k, m, una) ==
      k.(snd := s, cc := if Diff(s.una, una) > 0 then C.Grow(k.cc, k.cfg.mss, k.rmtWnd) else k.cc)
  {
    hide Diff, S.FastAck, C.Grow;
  }

  // ---------- output ----------

  lemma EncodePieces(conv: u32, w: Wire, b: Bytes)
    ensures b + Enc(conv, 4) + [w.cmd] + [w.frg] + Enc(w.wnd, 2) + Enc(w.ts, 4) + Enc(w.sn, 4) + Enc(w.una, 4)
            + Enc(Wrap(|w.data|), 4) + w.data == b + Encode(conv, w)
  {
    hide Enc, Wrap;
    assert [w.cmd] + [w.frg] == [w.cmd, w.frg];
  }

  lemma AckStep(conv: u32, mtu: int, p: Packing, acks: seq<E.Ack>, i: nat, wnd: u16, una: u32)
    requires i < |acks|
    ensures PutAll(conv, mtu, p, E.AckWires(acks[i..], wnd, una))
         == PutAll(conv, mtu, Put(conv, mtu, p, E.AckWire(acks[i], wnd, una)), E.AckWires(acks[i + 1..], wnd, una))
    ensures var n := After(mtu, |p.cur|, E.AckWire(acks[i], wnd, una));
      var m := Peak(mtu, n, E.AckWires(acks[i + 1..], wnd, una));
      n <= m <= Peak(mtu, |p.cur|, E.AckWires(acks[i..], wnd, una))
  {
    hide Put;
    var ws := E.AckWires(acks[i..], wnd, una);
    assert ws[0] == E.AckWire(acks[i], wnd, una);
    assert ws[1..] == E.AckWires(acks[i + 1..], wnd, una);
    PeakStarts(mtu, After(mtu, |p.cur|, ws[0]), ws[1..]);
    hide After;
  }

  lemma PutNone(conv: u32, mtu: int, p: Packing)
    ensures PutAll(conv, mtu, p, []) == p
  {
  }

  lemma PutOne(conv: u32, mtu: int, p: Packing, w: Wire)
    ensures PutAll(conv, mtu, p, [w]) == Put(conv, mtu, p, w)
  {
    hide Put;
    assert [w][1..] == [];
  }

  lemma ProbeSteps(conv: u32, mtu: int, p: Packing, b: E.Probe, last: E.Ack, wnd: u16, una: u32)
    ensures PutAll(conv, mtu, p, E.ProbeWires(b, last, wnd, una)) ==
      var ask := Wire(CMD_WASK, 0, wnd, last.ts, last.sn, una, []);
      var tell := Wire(CMD_WINS, 0, wnd, last.ts, last.sn, una, []);
      var q := if b.askSend then Put(conv, mtu, p, ask) else p;
      if b.askTell then Put(conv, mtu, q, tell) else q
  {
    hide Put;
    var ask := Wire(CMD_WASK, 0, wnd, last.ts, last.sn, una, []);
    var tell := Wire(CMD_WINS, 0, wnd, last.ts, last.sn, una, []);
    var xs := if b.askSend then [ask] else [];
    var ys := if b.askTell then [tell] else [];
    PutAllAppend(conv, mtu, p, xs, ys);
    var q := PutAll(conv, mtu, p, xs);
    PutNone(conv, mtu, p);
    PutOne(conv, mtu, p, ask);
    PutNone(conv, mtu, q);
    PutOne(conv, mtu, q, tell);
    hide PutAll;
  }

  lemma ProbePeak(mtu: int, n: nat, b: E.Probe, last: E.Ack, wnd: u16, una: u32)
    ensures var ask := Wire(CMD_WASK, 0, wnd, last.ts, last.sn, una, []);
      var tell := Wire(CMD_WINS, 0, wnd, last.ts, last.sn, una, []);
      var m := if b.askSend then After(mtu, n, ask) else n;
      var l := if b.askTell then After(mtu, m, tell) else m;
      Peak(mtu, n, E.ProbeWires(b, last, wnd, una)) == Max(n, Max(m, l))
  {
    hide After;
    var ask := Wire(CMD_WASK, 0, wnd, last.ts, last.sn, una, []);
    var tell := Wire(CMD_WINS, 0, wnd, last.ts, last.sn, una, []);
    var ws := E.ProbeWires(b, last, wnd, una);
    assert [ask][1..] == [] && [tell][1..] == [] && [ask, tell][1..] == [tell];
    var m := if b.askSend then After(mtu, n, ask) else n;
    assert Peak(mtu, m, [tell]) == Max(m, After(mtu, m, tell));
    assert Peak(mtu, n, [ask, tell]) == Max(n, Peak(mtu, After(mtu, n, ask), [tell]));
    assert ws == if b.askSend then if b.askTell then [ask, tell] else [ask] else if b.askTell then [tell] else [];
  }

  lemma SweepUnfold(b: seq<S.OutSeg>, t: E.Tick, i: nat)
    requires i < |b|
    ensures var h := E.Transmit(b[i], t); var s := E.SweepAll(b[i + 1..], t);
      E.SweepAll(b[i..], t) == E.Sweep([h.seg] + s.buf, (if h.send then [E.PushWire(h.seg)] else []) + s.ws,
                                       h.change || s.change, h.lost || s.lost)
  {
    hide E.Transmit;
    assert b[i..][0] == b[i] && b[i..][1..] == b[i + 1..];
  }

  lemma SweepStep(before: seq<S.OutSeg>, b: seq<S.OutSeg>, t: E.Tick, i: nat)
    requires i < |before| == |b| && before[i..] == b[i..]
    ensures before[i] == b[i]
  {
    assert before[i..][0] == before[i] && b[i..][0] == b[i];
  }

  lemma SweepShift(before: seq<S.OutSeg>, b: seq<S.OutSeg>, t: E.Tick, i: nat, after: seq<S.OutSeg>)
    requires i < |before| == |b| == |after| && before[i..] == b[i..] && after == before[i := after[i]]
    requires after[i] == E.Transmit(b[i], t).seg
    ensures after[i + 1..] == b[i + 1..]
    ensures before[..i] + E.SweepAll(b[i..], t).buf == after[..i + 1] + E.SweepAll(b[i + 1..], t).buf
    ensures E.SweepAll(b[i..], t).change == (E.Transmit(b[i], t).change || E.SweepAll(b[i + 1..], t).change)
    ensures E.SweepAll(b[i..], t).lost == (E.Transmit(b[i], t).lost || E.SweepAll(b[i + 1..], t).lost)
  {
    SweepUnfold(b, t, i);
    hide E.Transmit, E.SweepAll;
    SkipShift(before, b, i, after, E.SweepAll(b[i + 1..], t).buf);
  }

  lemma SweepPut(conv: u32, mtu: int, p: Packing, b: seq<S.OutSeg>, t: E.Tick, i: nat)
    requires i < |b|
    ensures PutAll(conv, mtu, p, E.SweepAll(b[i..], t).ws) ==
      var h := E.Transmit(b[i], t);
      PutAll(conv, mtu, if h.send then Put(conv, mtu, p, E.PushWire(h.seg)) else p, E.SweepAll(b[i + 1..], t).ws)
    ensures var h := E.Transmit(b[i], t);
      var n := if h.send then After(mtu, |p.cur|, E.PushWire(h.seg)) else |p.cur|;
      n <= Peak(mtu, n, E.SweepAll(b[i + 1..], t).ws) <= Peak(mtu, |p.cur|, E.SweepAll(b[i..], t).ws)
  {
    SweepUnfold(b, t, i);
    hide E.Transmit, E.SweepAll, Put;
    var h := E.Transmit(b[i], t);
    var rest := E.SweepAll(b[i + 1..], t).ws;
    if h.send {
      assert ([E.PushWire(h.seg)] + rest)[1..] == rest;
      PeakStarts(mtu, After(mtu, |p.cur|, E.PushWire(h.seg)), rest);
    } else {
      assert [] + rest == rest;
      PeakStarts(mtu, |p.cur|, rest);
    }
    hide After;
  }

  lemma SweepEnd(b: seq<S.OutSeg>, t: E.Tick, i: nat)
    requires i == |b|
    ensures E.SweepAll(b[i..], t) == E.Sweep([], [], false, false)
  {
    assert b[i..] == [];
  }

  lemma TickParts(k: E.State)
    ensures var t := E.TickOf(k);
      t.current == k.current && t.wnd == E.Unused(k.rcv) && t.una == k.rcv.nxt && t.rto == k.rtt.rto
  {
    hide E.Unused;
  }

  lemma {:induction false} PutAllAfter(conv: u32, mtu: int, s: seq<Bytes>, p: Packing, ws: seq<Wire>)
    ensures PutAll(conv, mtu, Packing(s + p.out, p.cur), ws)
         == var q := PutAll(conv, mtu, p, ws); Packing(s + q.out, q.cur)
    decreases |ws|
  {
    hide Encode;
    if ws != [] {
      var q := Put(conv, mtu, p, ws[0]);
      assert s + (p.out + [p.cur]) == s + p.out + [p.cur];
      assert Put(conv, mtu, Packing(s + p.out, p.cur), ws[0]) == Packing(s + q.out, q.cur);
      PutAllAfter(conv, mtu, s, q, ws[1..]);
    }
  }

  /** Datagrams of one flush follow those already sent. */
  lemma PackAfter(conv: u32, mtu: int, s: seq<Bytes>, ws: seq<Wire>)
    ensures Finish(PutAll(conv, mtu, Packing(s, []), ws)).out == s + Pack(conv, mtu, ws)
  {
    PutAllAfter(conv, mtu, s, Packing([], []), ws);
    assert s + [] == s;
    var q := PutAll(conv, mtu, Packing([], []), ws);
    assert s + (q.out + [q.cur]) == s + q.out + [q.cur];
    hide PutAll;
  }

  lemma FlushBytes(k: E.State, before: seq<Bytes>)
    ensures var p := PutAll(k.cfg.conv, k.cfg.mtu, Packing(before, []),
        E.AckWires(k.acks, E.Unused(k.rcv), k.rcv.nxt)
        + E.ProbeWires(E.ProbeTick(k.probe, k.rmtWnd, k.current), E.LastAck(k.acks), E.Unused(k.rcv), k.rcv.nxt));
      var s := S.Admit(k.snd, E.WindowSize(k), S.Stamp(k.current, E.Unused(k.rcv), k.rcv.nxt, k.rtt.rto));
      Finish(PutAll(k.cfg.conv, k.cfg.mtu, p, E.SweepAll(s.buf, E.TickOf(k)).ws)).out
         == before + Pack(k.cfg.conv, k.cfg.mtu, E.FlushWires(k))
  {
    var acks := E.AckWires(k.acks, E.Unused(k.rcv), k.rcv.nxt);
    var probes := E.ProbeWires(E.ProbeTick(k.probe, k.rmtWnd, k.current), E.LastAck(k.acks), E.Unused(k.rcv), k.rcv.nxt);
    var data := E.SweepAll(E.AdmitAll(k).buf, E.TickOf(k)).ws;
    hide E.AckWires, E.ProbeWires, E.ProbeTick, E.SweepAll, E.TickOf, E.Unused, E.LastAck, PutAll, Pack, S.Admit;
    assert E.FlushWires(k) == acks + probes + data;
    hide E.FlushWires;
    PutAllAppend(k.cfg.conv, k.cfg.mtu, Packing(before, []), acks + probes, data);
    PackAfter(k.cfg.conv, k.cfg.mtu, before, E.FlushWires(k));
  }

  /** How far the headers of a flush reach into the buffer, and the data behind them. */
  lemma ReachSplits(k: E.State, before: seq<Bytes>)
    ensures var headers := E.AckWires(k.acks, E.Unused(k.rcv), k.rcv.nxt)
        + E.ProbeWires(E.ProbeTick(k.probe, k.rmtWnd, k.current), E.LastAck(k.acks), E.Unused(k.rcv), k.rcv.nxt);
      var s := S.Admit(k.snd, E.WindowSize(k), S.Stamp(k.current, E.Unused(k.rcv), k.rcv.nxt, k.rtt.rto));
      var p := PutAll(k.cfg.conv, k.cfg.mtu, Packing(before, []), headers);
      E.Reach(k) == Max(Peak(k.cfg.mtu, 0, headers), Peak(k.cfg.mtu, |p.cur|, E.SweepAll(s.buf, E.TickOf(k)).ws))
  {
    var acks := E.AckWires(k.acks, E.Unused(k.rcv), k.rcv.nxt);
    var probes := E.ProbeWires(E.ProbeTick(k.probe, k.rmtWnd, k.current), E.LastAck(k.acks), E.Unused(k.rcv), k.rcv.nxt);
    var data := E.SweepAll(E.AdmitAll(k).buf, E.TickOf(k)).ws;
    hide E.AckWires, E.ProbeWires, E.ProbeTick, E.SweepAll, E.TickOf, E.Unused, E.LastAck, S.Admit, PutAll, Peak;
    assert E.FlushWires(k) == acks + probes + data;
    hide E.FlushWires;
    PeakAppend(k.cfg.conv, k.cfg.mtu, Packing(before, []), acks + probes, data);
  }

  /** The parts of the block after a flush. */
  lemma FlushStateIs(k: E.State, k': E.State)
    requires var s := S.Admit(k.snd, E.WindowSize(k), S.Stamp(k.current, E.Unused(k.rcv), k.rcv.nxt, k.rtt.rto));
      var sweep := E.SweepAll(s.buf, E.TickOf(k));
      && k'.snd == s.(buf := sweep.buf)
      && k'.cc == C.AfterFlush(k.cc, k.cfg.mss, sweep.change, sweep.lost, S.InFlight(k'.snd), E.TickOf(k).resent, E.WindowSize(k))
    requires k'.acks == [] && k'.probe == E.ProbeTick(k.probe, k.rmtWnd, k.current).(askSend := false, askTell := false)
    requires k'.cfg == k.cfg && k'.rcv == k.rcv && k'.rtt == k.rtt && k'.rmtWnd == k.rmtWnd
    requires k'.current == k.current && k'.updated == k.updated && k'.tsFlush == k.tsFlush
    ensures k' == E.FlushState(k)
  {
    hide S.Admit, E.SweepAll, E.TickOf, E.Unused, E.WindowSize, C.AfterFlush, E.ProbeTick;
  }

  lemma UpdateIs(k: E.State, now: u32)
    ensures E.Update(k, now) == if E.Clock(k, now).1 then E.Flush(E.Clock(k, now).0) else E.Flushed(E.Clock(k, now).0, [])
  {
    hide E.Clock, E.Flush;
  }
}
