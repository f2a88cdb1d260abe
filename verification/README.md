# Verification model

A Dafny model of the parts of this repository that hold protocols and state machines, with proofs of what they
promise. `dafny verify dfyconfig.toml` checks everything.

## What is modelled

**The KCP engine** (`ikcp.c`), the largest part.

- `Numbers`, `LittleEndian` and `KcpWire`: 32-bit words and the wrapped signed difference, the segment format, the
  decode loop, and the packing of segments into datagrams.
- `KcpSender`, `KcpReceiver`, `KcpFragments`, `KcpControl` and `KcpEngine`: what each call computes, as functions on
  values. `KcpEngine` puts the parts together into `ikcp_input`, `ikcp_flush`, `ikcp_update` and `ikcp_check`.
- `KcpClass`: the control block as an object with the fields of `IKCPCB`, updated in place by the loops of the source.
  Every method is proved to compute the function of the same call, so what is proved about the functions holds for
  the object. `KcpClassLaws` holds the lemmas its loops need.
- `KcpRuns`: one endpoint against arbitrary calls and arbitrary datagrams, modulo 2^32.
- `KcpSchedule` and `KcpDatagrams`: when a flush happens, and what it puts on the wire.
- `KcpTimers`, `KcpWindows`, `KcpAcks` and `KcpGrowth`: what a flush does to the retransmission timers, the windows and
  the probes, which acknowledgements a datagram calls for, and what those it brings release and let grow.
- `KcpReadBack`: over every run each flush reads back; and when it stays inside the output buffer.
- `KcpTimeouts`: the round-trip estimator over every run.
- `KcpFlow` and `KcpNetwork`: two endpoints and a network that keeps every datagram ever sent and delivers any of
  them at any time, any number of times or never. `KcpStream` and `KcpMessages` say what comes out, as bytes in any
  mode and as messages in message mode. `KcpRoundTrip`: what one round trip without losses achieves.
- `SessionRoom`: what `KcpSession` takes out of its control block.
- `KcpStale` and `KcpFailures`: what happens beyond the bounds of these theorems, and runs in which calls do not do
  what one might expect.

`_itimediff` returns a `long`; it is modelled for the 32-bit `long` of Windows, for which the repository is built.
With a 64-bit `long` its result is never negative, and the comparisons that ask for a negative one never hold.

**The queue of many producers and one consumer** (`MPSCQueue.h`), in `MpscQueue`: the atomic steps of all threads in
any interleaving, on an explicit memory in which freed addresses are used again.

**The streaming digest** (`Crypto_md5.cpp`), in `Md5`: the object that collects bytes into blocks, against the
definition in RFC 1321. The work on one block is a parameter.

**The thread pool** (`ThreadPool.cpp`), in `ThreadPool`: workers, threads that enqueue, and the destructor, in any
interleaving, with waiting, notification and spurious wake-ups.

**The packet parser** (`KcpSession.cpp`, `MessageBuffer.h`), in `PacketParser`: the loop over three buffers, against
a parser of byte strings.

**Admission to the world** (`World.cpp`), in `World`: the limit, the wait queue and the notifications.

**The bit packer and unpacker** (`BinaryOutput.cpp`, `BinaryInput.cpp`), in `BitPacking`.

## What turned out not to hold

Where the code does not keep a promise in every case, there is a lemma with the exact condition, and one with a run or
an input in which it fails.

- A send in stream mode that is refused may already have put bytes on the stream: `KcpFragments.RefusedStreamSend`,
  `KcpFailures.RefusedSendLeaves`.
- Raising the receive window may leave a ready segment behind in `rcv_buf` until a later call moves it:
  `KcpRuns.RaiseUnsettles`, `KcpFailures.RaiseLeavesReady`.
- Changing the mtu can break the relation between `cwnd` and `incr`: `KcpRuns.SetMtuCongestion`,
  `KcpRuns.SetMtuBreaksCongestion`.
- After `ikcp_setmtu` has lowered the mtu, a flush can write past the output buffer:
  `KcpReadBack.FlushStaysInside`, `KcpFailures.LoweredMtuOverruns`. The size of the buffer is computed in 32-bit words
  and does not cover every mtu: `KcpReadBack.BufferHoldsMtu`.
- A message of more than 4096 bytes is accepted by the sender and blocks the session that receives it for ever; a
  second message in one datagram waits for the next datagram: `SessionRoom.HeadDecides`,
  `SessionRoom.LongMessageBlocks`, `SessionRoom.SecondWaits`.
- The time that `ikcp_check` returns is not always one at which `ikcp_update` does something: when a segment is due
  before the next flush, the caller is told to come at once, again and again: `KcpSchedule.CheckFlushes`,
  `KcpSchedule.CheckTooEarly`, `KcpFailures.CheckComesTooEarly`.
- Once sequence numbers have gone around, an old datagram can be taken for a new one: `KcpStale.StaleDatagram`,
  `KcpStale.StaleLag`, `KcpStale.OldDataTaken`. Long before that an old acknowledgement can drop a message that has not
  arrived: `KcpStale.StaleUnaDrops`, `KcpStale.OldAckLosesData`.
- The one-call digest covers all its data only below 2^31 bytes: `Md5.TakenIsAll`.
- After a malformed header the rest of the chunk is dropped, and the next chunk is read as if the header had been good:
  `PacketParser.ChunksJoin`, `PacketParser.BadHeaderSplits`.
- A record of a disconnection was meant to lapse, but the time difference is taken the wrong way round:
  `World.RecordLapses`. An id that comes back therefore passes the player limit for ever, and a session that replaces
  another one under the same id can leave the queue with a stale entry or with a free place nobody is admitted to:
  `World.AddExact`, `World.RecordedNeverQueues`, `World.ReturningIdPassesLimit`, `World.ReplacedStaysQueued`,
  `World.ReplacedFreesPlace`.

## Model

| member | source | states |
|---|---|---|
| `Numbers.DiffExact` | cppLib/code/Network/Socket/ikcp.c:135-138 | The wrapped signed comparison gives the true difference of two counters that are less than half the 32-bit circle apart, wherever they stand |
| `Numbers.DiffIsDist` | cppLib/code/Network/Socket/ikcp.c:135-138 | Measured from any common base, the wrapped comparison orders two numbers as their distances from it do, while these differ by less than 2^31 |
| `LittleEndian.DecEnc` | cppLib/code/Network/Socket/ikcp.c:53-120 | Decoding is the inverse of encoding, for a number that fits into the bytes |
| `KcpWire.DecodeHeaderEncode` | cppLib/code/Network/Socket/ikcp.c:752-769 | The 24-byte header reads back field for field, whatever follows it |
| `KcpWire.HeaderLayout` | cppLib/code/Network/Socket/ikcp.c:886-897 | The header byte for byte: which field stands at which place, least significant byte first, and the commands 81 to 84 |
| `KcpWire.DecodeEncode` | cppLib/code/Network/Socket/ikcp.c:752-777 | A whole segment reads back: header, data, and the bytes after it |
| `KcpWire.ParseEncodeAll` | cppLib/code/Network/Socket/ikcp.c:752-852 | The decode loop over whole segments yields exactly these segments, in order, and ends without error |
| `KcpWire.ParsePrefix` | cppLib/code/Network/Socket/ikcp.c:752-852 | Whole segments are read whatever bytes follow them |
| `KcpWire.ParseStops` | cppLib/code/Network/Socket/ikcp.c:758-777 | The loop stops without error at fewer than 24 bytes, with -1 at another conversation, with -2 at a length above what is left or above an int, with -3 at an unknown command, tested in this order, and otherwise reads the segment |
| `KcpWire.PutPacked` | cppLib/code/Network/Socket/ikcp.c:935-943 | Adding a segment, with the hand-over of a full buffer, loses and reorders nothing that was packed before |
| `KcpWire.PackParse` | cppLib/code/Network/Socket/ikcp.c:935-992 | Packing and parsing undo each other: every datagram holds whole segments and nothing else, and reading them in turn yields the segments in the order in which they were packed |
| `KcpWire.PackFits` | cppLib/code/Network/Socket/ikcp.c:935-992 | When the mtu and each segment are within a bound, no datagram is longer |
| `KcpWire.PackTight` | cppLib/code/Network/Socket/ikcp.c:935-992 | Datagrams are as few as the order of the segments allows: none had room for the first segment of the next |
| `KcpWire.PeakFits` | cppLib/code/Network/Socket/ikcp.c:935-992 | With an mtu within the buffer, writing the segments of a flush stays inside the buffer if and only if each of them, with its header, fits it |
| `KcpSender.ParseUnaDrops` | cppLib/code/Network/Socket/ikcp.c:591-605 | The cumulative acknowledgement drops exactly the leading segments that it is past |
| `KcpSender.ShrinkKeeps` | cppLib/code/Network/Socket/ikcp.c:558-567 | Moving snd_una to the first remaining segment, or to snd_nxt, restores the sender invariant and never moves snd_una back |
| `KcpSender.RemoveSnFinds` | cppLib/code/Network/Socket/ikcp.c:576-588 | In a window the early stop of the scan costs nothing: afterwards no segment with the acknowledged number is left |
| `KcpSender.OutsideIsDist` | cppLib/code/Network/Socket/ikcp.c:573-574 | The two signed comparisons that guard the selective acknowledgement hold exactly for the numbers outside [snd_una, snd_nxt), modulo 2^32 |
| `KcpSender.OnUnaKeeps` | cppLib/code/Network/Socket/ikcp.c:781-782 | A cumulative acknowledgement with any number whatever keeps the in-flight window and only advances snd_una |
| `KcpSender.OnAckKeeps` | cppLib/code/Network/Socket/ikcp.c:789-790 | So does a selective one |
| `KcpSender.OnAckExact` | cppLib/code/Network/Socket/ikcp.c:569-589 | An acknowledgement of a number in flight takes that number, and no other, out of the window |
| `KcpSender.FastAckKeeps` | cppLib/code/Network/Socket/ikcp.c:607-624 | Counting skipped segments changes neither their order nor their contents nor the window |
| `KcpSender.AdmitFills` | cppLib/code/Network/Socket/ikcp.c:1001-1022 | Admission moves exactly as many fragments as queue and window allow, under consecutive numbers, and the result is a window again |
| `KcpReceiver.PeekIsRecvLength` | cppLib/code/Network/Socket/ikcp.c:356-433 | ikcp_recv succeeds exactly when ikcp_peeksize announces a length that the caller has room for; it then returns that length and that many bytes |
| `KcpReceiver.RecvConserves` | cppLib/code/Network/Socket/ikcp.c:356-423 | The three errors and when each is returned, with nothing changed; on success the fragments of the first message are taken, or none when only looking, and everything else stays in order |
| `KcpReceiver.AcceptsWindow` | cppLib/code/Network/Socket/ikcp.c:682-683 | The two guards of ikcp_parse_data accept exactly the numbers in [rcv_nxt, rcv_nxt + rcv_wnd), modulo 2^32 |
| `KcpReceiver.ScanBackSplits` | cppLib/code/Network/Socket/ikcp.c:688-698 | The backward scan stops at the place that has only smaller numbers before it and only greater ones from it on, unless the number is there |
| `KcpReceiver.InsertIsSetInsert` | cppLib/code/Network/Socket/ikcp.c:688-706 | Insertion adds the segment once; if its number is there already, the copy that came first stays |
| `KcpReceiver.PullKeeps` | cppLib/code/Network/Socket/ikcp.c:713-725 | Moving ready segments to the queue keeps both invariants; afterwards the next number waits in the buffer only if the queue is full |
| `KcpReceiver.ParseDataKeeps` | cppLib/code/Network/Socket/ikcp.c:676-725 | Any segment with any number leaves the receive buffer ascending and duplicate-free inside its window, and the queue consecutive up to rcv_nxt |
| `KcpReceiver.RecvKeeps` | cppLib/code/Network/Socket/ikcp.c:356-433 | So does ikcp_recv, whatever it returns |
| `KcpReceiver.BufferFits` | cppLib/code/Network/Socket/ikcp.c:682-706 | An ascending buffer inside the window has at most rcv_wnd segments |
| `KcpFragments.SendMessage` | cppLib/code/Network/Socket/ikcp.c:501-532 | In message mode a call succeeds exactly when the data fit into 127 fragments; then the queue grows by the fragments of the message, numbered down to 0, all of them mss long but the last, which is empty only for an empty message; otherwise it is unchanged |
| `KcpFragments.SendStream` | cppLib/code/Network/Socket/ikcp.c:476-532 | In stream mode a successful call adds exactly its bytes to the stream, in segments of at most mss unless longer ones were queued before |
| `KcpFragments.StreamFills` | cppLib/code/Network/Socket/ikcp.c:476-532 | If only the last queued segment is not full, this is so after every call in stream mode, accepted or refused |
| `KcpFragments.RefusedStreamSend` | cppLib/code/Network/Socket/ikcp.c:476-508 | A refused call in stream mode leaves the stream as it was if and only if the queue was empty or its last segment was full: such a call is not atomic, because the last segment is filled up before the fragments are counted |
| `KcpFragments.WholeMessage` | cppLib/code/Network/Socket/ikcp.c:382-409 | A receive queue that starts with all fragments of a message announces its length and hands out that message, and nothing of what follows |
| `KcpFragments.PartMessage` | cppLib/code/Network/Socket/ikcp.c:439-461 | One that ends inside its first message announces nothing |
| `KcpFragments.RoundTrip` | cppLib/code/Network/Socket/ikcp.c:356-532 | Any series of accepted messages, empty ones included, comes back message for message from a series of ikcp_recv calls once its fragments have arrived, however many more than rcv_queue holds |
| `KcpControl.SmoothIsIdeal` | cppLib/code/Network/Socket/ikcp.c:541-551 | With samples below 2^28 the 32-bit signed sums of the estimator do not overflow |
| `KcpControl.TimeoutIsIdeal` | cppLib/code/Network/Socket/ikcp.c:541-556 | Neither does the sum that gives the timeout: rx_rto is the smoothed time plus the larger of the interval and four times the deviation, between rx_minrto and 60000 |
| `KcpControl.RttBounds` | cppLib/code/Network/Socket/ikcp.c:541-556 | Over any series of samples in [0, R] the smoothed values stay within max(R, 1), every timeout lies between rx_minrto and 60000, and the next one is computed without overflow from the values the formulas mean |
| `KcpTimeouts.AckEstimates` | cppLib/code/Network/Socket/ikcp.c:541-556 | One acknowledgement within ikcp_input: with a time stamp that lies ahead nothing changes; otherwise the estimator takes exactly the values the formulas mean |
| `KcpTimeouts.InputEstimates` | cppLib/code/Network/Socket/ikcp.c:742-880 | A datagram of any bytes whose acknowledgements give samples within a limit keeps the estimates within that limit and the timeout in its range |
| `KcpTimeouts.ReachableEstimates` | cppLib/code/Network/Socket/ikcp.c:541-1244 | Over every run in which no sample exceeds a limit below 2^28, with any calls and any least timeout set from outside, as KcpSession does: the smoothed values stay within the limit, the timeout between the least one, but at most 30, and 60000, and the next one is computed without overflow |
| `KcpControl.AvoidanceStep` | cppLib/code/Network/Socket/ikcp.c:866-867 | The division sees an incr of at least mss, and the increment is less than one segment |
| `KcpControl.GrowKeeps` | cppLib/code/Network/Socket/ikcp.c:859-877 | The growth at the end of ikcp_input keeps incr within the cwnd-th segment, raises cwnd by at most one, and not above the window of the peer |
| `KcpControl.AfterFlushKeeps` | cppLib/code/Network/Socket/ikcp.c:1091-1112 | The reaction to a fast resend or a loss keeps that relation and leaves cwnd at least 1 and ssthresh at least 2 |
| `KcpGrowth.GrowIs` | cppLib/code/Network/Socket/ikcp.c:859-877 | The growth step without machine words: nothing at or above the window of the peer; one segment below ssthresh; from there on incr grows by the square of mss over incr and a sixteenth of mss, and cwnd is incr divided by mss |
| `KcpGrowth.InputGrows` | cppLib/code/Network/Socket/ikcp.c:742-877 | One datagram makes exactly one such step if it ends without error and has moved snd_una, and otherwise leaves the congestion window alone |
| `KcpGrowth.WindowGrows` | cppLib/code/Network/Socket/ikcp.c:859-877 | A window below that of the peer is larger after 32 steps |
| `KcpRuns.InputKeeps` | cppLib/code/Network/Socket/ikcp.c:742-880 | A datagram of any bytes keeps the sender and receiver invariants, and snd_una advances only over segments that were in flight |
| `KcpRuns.StepKeeps` | cppLib/code/Network/Socket/ikcp.c:356-1258 | So does every public call, with any arguments, as long as no window is lowered |
| `KcpRuns.ReachableEndpoint` | cppLib/code/Network/Socket/ikcp.c:233-1258 | In every state that any series of calls can reach from a fresh control block with any windows: at most min(snd_wnd, 65535) numbers in flight, snd_buf ascending inside [snd_una, snd_nxt) with snd_una its head, rcv_buf ascending and duplicate-free inside the window, both receive queues at most rcv_wnd long |
| `KcpRuns.ReachableSettled` | cppLib/code/Network/Socket/ikcp.c:412-423 | While rcv_wnd stays as configured, the head of rcv_buf equals rcv_nxt only when rcv_queue is full |
| `KcpRuns.RaiseUnsettles` | cppLib/code/Network/Socket/ikcp.c:1247-1258 | Raising rcv_wnd breaks that if and only if a ready segment was waiting for a full queue: ikcp_wndsize moves nothing |
| `KcpRuns.InputCongestion` | cppLib/code/Network/Socket/ikcp.c:742-880 | One datagram raises cwnd by at most one and never above the announced window, and keeps the relation of incr and cwnd |
| `KcpRuns.ReachableCongestion` | cppLib/code/Network/Socket/ikcp.c:859-1112 | After any run with a fixed mtu of at most 65535: cwnd times mss is at most incr, incr is less than (cwnd + 1) times mss, ssthresh is at least 2 |
| `KcpRuns.SetMtuCongestion` | cppLib/code/Network/Socket/ikcp.c:1198-1211 | ikcp_setmtu keeps that relation if and only if it refuses the mtu or the new segment size lies above incr / (cwnd + 1) and, unless cwnd is 0, not above incr / cwnd |
| `KcpRuns.SetMtuBreaksCongestion` | cppLib/code/Network/Socket/ikcp.c:1198-1211 | After one ikcp_update of a fresh control block the smallest mtu breaks it |
| `KcpSchedule.UpdateSchedules` | cppLib/code/Network/Socket/ikcp.c:1121-1146 | After ikcp_update the next flush lies strictly ahead, by at most max(interval, 10000), modulo 2^32 |
| `KcpSchedule.CheckIsEarliest` | cppLib/code/Network/Socket/ikcp.c:1158-1194 | ikcp_check returns the earliest of one interval, the next flush and the next retransmission, and now exactly when something is due or the flush time is out of reach |
| `KcpSchedule.CheckIsSafe` | cppLib/code/Network/Socket/ikcp.c:1121-1194 | Calling ikcp_update before the time returned only sets the clock: nothing is sent and nothing else changes |
| `KcpSchedule.UpdateFlushes` | cppLib/code/Network/Socket/ikcp.c:1121-1146 | ikcp_update flushes, and emits what that flush announces, if and only if it is the first update, the flush time has come, or it lies more than ten seconds ahead; otherwise it only sets the clock |
| `KcpSchedule.NextFlushTime` | cppLib/code/Network/Socket/ikcp.c:1130-1144 | The next flush time is an interval after the last one, or an interval from now if that is past too or the last one was out of reach |
| `KcpSchedule.FirstDueFlushes` | cppLib/code/Network/Socket/ikcp.c:1121-1146 | Over any updates before the flush time and one at or after it, the first ones only set the clock and the last one flushes |
| `KcpSchedule.CheckFlushes` | cppLib/code/Network/Socket/ikcp.c:1121-1194 | ikcp_update at the time returned flushes if and only if that is the flush time, or the flush time has come or is out of reach |
| `KcpSchedule.CheckTooEarly` | cppLib/code/Network/Socket/ikcp.c:1121-1194 | While a segment is due and the flush time has not come, ikcp_check returns the present time and ikcp_update at that time does nothing |
| `KcpFailures.CheckComesTooEarly` | cppLib/code/Network/Socket/ikcp.c:1121-1194 | A run of four calls after which this goes on for nearly five seconds |
| `KcpTimers.FlushTimers` | cppLib/code/Network/Socket/ikcp.c:1029-1064 | Every segment of snd_buf after a flush, also one just admitted: never sent before, it has rx_rto and a timer of rx_rto and an eighth of it, or nothing more with nodelay; timed out, its rto grows by rx_rto, or half of it with nodelay, and the timer is that rto; skipped often enough, its count is 0 and the timer its old rto; in all other cases it is unchanged |
| `KcpTimers.FlushCounts` | cppLib/code/Network/Socket/ikcp.c:1034-1064 | Exactly the segments that were sent count one more transmission |
| `KcpTimers.TimerAhead` | cppLib/code/Network/Socket/ikcp.c:1039-1063 | As a wrapped difference the timer lies ahead of the clock by exactly that time |
| `KcpTimers.SentOncePerTimeout` | cppLib/code/Network/Socket/ikcp.c:1029-1064 | Between two flushes: a segment that was sent is not sent again over any calls without input before its timer, further flushes included, unless it is skipped often enough; the first flush at or after that time sends it again with a longer timer |
| `KcpWindows.WindowIsLeast` | cppLib/code/Network/Socket/ikcp.c:996-998 | The send window is the least of snd_wnd, the window of the peer and, unless nocwnd is set, cwnd |
| `KcpWindows.FlushFills` | cppLib/code/Network/Socket/ikcp.c:996-1022 | After a flush as many numbers are in flight as before, or as the send window allows, or all there was to send; the new ones carry the queued fragments in order, never sent and never skipped |
| `KcpWindows.LossesShrink` | cppLib/code/Network/Socket/ikcp.c:1091-1112 | One timeout sets cwnd to 1 and ssthresh to half the send window; without one a fast resend sets ssthresh to half of what is in flight and cwnd to as much and the resend limit; without either cwnd stays, but at least at 1 |
| `KcpWindows.ProbeTimer` | cppLib/code/Network/Socket/ikcp.c:948-969 | The probe timer: off while the window of the peer is open, seven seconds when it is found closed, half as much again up to two minutes each time it has run out |
| `KcpWindows.AskedOncePerWait` | cppLib/code/Network/Socket/ikcp.c:948-979 | While the window stays closed the peer is not asked before the probe timer, over any calls; the first flush at or after that time asks |
| `KcpWindows.RunProbe` | cppLib/code/Network/Socket/ikcp.c:948-969 | Over every run the wait is 0 or between seven seconds and two minutes |
| `KcpWindows.RecvTells` | cppLib/code/Network/Socket/ikcp.c:378-430 | ikcp_recv asks for an announcement if and only if it succeeded, the queue was full, and it is not full any more |
| `KcpWindows.RoomIsTold` | cppLib/code/Network/Socket/ikcp.c:378-990 | The next flush then tells the peer a window that is not closed: the places that are free |
| `KcpWindows.QuestionIsAnswered` | cppLib/code/Network/Socket/ikcp.c:830-990 | A question in a datagram is answered by the next flush, and nothing else in a datagram makes for an answer |
| `KcpWindows.WindowIsRead` | cppLib/code/Network/Socket/ikcp.c:780-990 | Any one datagram of a flush sets the window of the peer at the other side to the free places |
| `KcpWindows.WindowReopens` | cppLib/code/Network/Socket/ikcp.c:378-990 | So room made in a full receive queue opens the window at the other side with any datagram of the next flush |
| `KcpDatagrams.SweepSendsDue` | cppLib/code/Network/Socket/ikcp.c:1029-1083 | One pass over snd_buf sends exactly the segments that were never sent, have timed out, or were skipped often enough, in order, with the number, fragment and bytes of the segment and the clock, free window and rcv_nxt of the flush |
| `KcpDatagrams.FlushReadsBack` | cppLib/code/Network/Socket/ikcp.c:911-1089 | When the mtu and the queued segments with their headers are within a bound, every datagram of a flush is whole segments within that bound, and the decode loop reads from them the pending acknowledgements in push order, then the probes, then the due data segments |
| `KcpDatagrams.AdvertisesFree` | cppLib/code/Network/Socket/ikcp.c:899-905 | The advertised window is the number of free places, or 0, while rcv_wnd fits into 16 bits |
| `KcpReadBack.InputSized` | cppLib/code/Network/Socket/ikcp.c:742-880 | No datagram makes a queued segment longer than a bound that all of them meet |
| `KcpReadBack.SendSized` | cppLib/code/Network/Socket/ikcp.c:467-535 | Neither does a call of ikcp_send, in either mode, accepted or refused |
| `KcpReadBack.FlushSized` | cppLib/code/Network/Socket/ikcp.c:911-1113 | Nor a flush |
| `KcpReadBack.EmptyReadsBack` | cppLib/code/Network/Socket/ikcp.c:911-1146 | From any control block with nothing queued, over every run, with any calls and any datagrams: each flush, called or made by ikcp_update at any time, emits datagrams of whole segments and of at most the greatest mtu in force, and the decode loop reads from them exactly what was announced |
| `KcpReadBack.ReachableReadsBack` | cppLib/code/Network/Socket/ikcp.c:911-1211 | In particular a fresh control block with any windows and any mtu, as KcpSession sets 512, never emits a datagram above that mtu until a greater one is set |
| `KcpReadBack.FlushStaysInside` | cppLib/code/Network/Socket/ikcp.c:911-1089 | A flush stays inside the output buffer if and only if each data segment that is due, with its header, fits the buffer |
| `KcpReadBack.BufferHoldsMtu` | cppLib/code/Network/Socket/ikcp.c:1198-1211 | The buffer size is computed in 32-bit words: it is three times the mtu and header below 1431655742, and covers the mtu if and only if the mtu is below that or at least 2147483612 |
| `KcpReadBack.ReachableStaysInside` | cppLib/code/Network/Socket/ikcp.c:911-1211 | Over every run in which no mtu was set that exceeds the buffer of the present one, no flush writes past the buffer |
| `KcpAcks.InputOwes` | cppLib/code/Network/Socket/ikcp.c:742-829 | A datagram of any bytes adds to the list of acknowledgements exactly the numbers and time stamps of its data segments before the end of the receive window as it stands at their turn, in order, copies and delivered numbers included |
| `KcpAcks.OwedIsAnnounced` | cppLib/code/Network/Socket/ikcp.c:742-946 | The next flush announces each of them with its time stamp, after those that were pending, and leaves none |
| `KcpAcks.InputReleases` | cppLib/code/Network/Socket/ikcp.c:742-804 | After a datagram no segment is left whose number it acknowledged, and none that its una is past together with all before; a segment that is neither named nor passed stays, and no other number comes in |
| `KcpAcks.InputCounts` | cppLib/code/Network/Socket/ikcp.c:607-624 | Each segment that stays counts exactly one more skip if the datagram acknowledged a later number, and none otherwise, while the acknowledged numbers are in flight or at most 2^30 old |
| `KcpAcks.InputStops` | cppLib/code/Network/Socket/ikcp.c:742-777 | ikcp_input returns -1 and changes nothing for fewer bytes than a header, and otherwise what the loop stopped with, also behind whole segments |
| `KcpFlow.OnUnaReleases` | cppLib/code/Network/Socket/ikcp.c:558-605 | A truthful cumulative acknowledgement releases only segments that have arrived |
| `KcpFlow.OnAckReleases` | cppLib/code/Network/Socket/ikcp.c:569-589 | So does a truthful selective one |
| `KcpFlow.ReceiverOnFlow` | cppLib/code/Network/Socket/ikcp.c:805-829 | A truthful data segment keeps what is received equal to the sender's log, and a segment that is acknowledged has arrived or arrives now |
| `KcpNetwork.FlushOutTrue` | cppLib/code/Network/Socket/ikcp.c:911-1089 | A flush puts only truthful segments on the network: data as logged, acknowledgements of what has arrived |
| `KcpNetwork.NextKeeps` | cppLib/code/Network/Socket/ikcp.c:356-1258 | Every event of the two-party system keeps the invariant: a call on either side, in either mode and with the mode changed at any time, with the receive windows set up or down within a common bound, or the delivery of any datagram sent before |
| `KcpNetwork.NothingLostEver` | cppLib/code/Network/Socket/ikcp.c:569-946 | In every reachable state each number given out is still in snd_buf or has arrived, and every acknowledgement pending or under way is true |
| `KcpStream.SendAdds` | cppLib/code/Network/Socket/ikcp.c:467-535 | In either mode, accepted or refused, ikcp_send adds exactly the accepted bytes to what is queued: all of them, none, or those that fill up the last segment |
| `KcpStream.TakeStreams` | cppLib/code/Network/Socket/ikcp.c:356-433 | ikcp_recv, taking, looking or failing, keeps what was handed out equal to the log up to where the receive queue starts |
| `KcpStream.StreamEndToEnd` | cppLib/code/Network/Socket/ikcp.c:356-1083 | Whatever the network drops, repeats or reorders, and however the sides change between message and stream mode, the bytes each side hands out are a prefix of the bytes put on the stream at the other |
| `KcpStream.NothingMissing` | cppLib/code/Network/Socket/ikcp.c:356-1083 | In every reachable state in which one side holds nothing more to send and the other waits for no segment, all bytes put on the stream have been handed out or lie in the receive queue |
| `KcpRoundTrip.RoundTripReleases` | cppLib/code/Network/Socket/ikcp.c:569-1089 | One round trip without losses, from any state of the two-party system: each segment that a flush sends inside the receive window has arrived at the other side, and after the flush that follows there it has left snd_buf |
| `KcpRoundTrip.RoundTripDelivers` | cppLib/code/Network/Socket/ikcp.c:356-1089 | If all that was left goes out in it, the sender is done, and while the receive queue is not full every byte put on the stream has been handed out or can be taken out at once |
| `KcpMessages.EndToEnd` | cppLib/code/Network/Socket/ikcp.c:356-1083 | In message mode the messages each side hands out are a prefix, byte for byte and boundary for boundary, of those the other side accepted |
| `KcpMessages.EverythingHandedOut` | cppLib/code/Network/Socket/ikcp.c:356-1083 | When moreover nothing is held on either side, all messages accepted have been handed out |
| `KcpMessages.FullQueueHasMessage` | cppLib/code/Network/Socket/ikcp.c:405-458 | The receive window cannot wedge: whenever rcv_queue is full, the next message is complete, announced with its length, and handed out to any caller with room for it |
| `KcpMessages.RecvIsNext` | cppLib/code/Network/Socket/ikcp.c:356-433 | A successful ikcp_recv, taking or only looking, hands out exactly the next message |
| `SessionRoom.HeadDecides` | cppLib/code/Network/Socket/KcpSession.cpp:78-184 | A message waits complete at the head of the receive queue of a session: no update and no send brings it out; the next datagram does, whatever it holds, if the message has at most 4096 bytes, and otherwise nothing is handed out ever again |
| `SessionRoom.LongMessageBlocks` | cppLib/code/Network/Socket/KcpSession.cpp:94-138 | A run in which it happens, for every message that a sender accepts: delivered fragment by fragment to a fresh session it comes out if it has at most 4096 bytes, and otherwise nothing does, whatever happens afterwards |
| `SessionRoom.SecondWaits` | cppLib/code/Network/Socket/KcpSession.cpp:78-184 | Two messages in one datagram: the session hands out the first, and the second only with the next datagram |
| `SessionRoom.TickFrame` | cppLib/code/Network/Socket/KcpSession.cpp:140-184 | KcpSession::Update never takes a message out: it offers ikcp_recv the active size of a buffer that is empty then |
| `KcpStale.GuardsAccept` | cppLib/code/Network/Socket/ikcp.c:676-686 | A segment of true number i passes the guards of a receiver at true number n if and only if i - n, modulo 2^32, is below rcv_wnd |
| `KcpStale.StaleDatagram` | cppLib/code/Network/Socket/ikcp.c:676-725 | A kept datagram enters buffer or queue exactly in that case and if no copy is held; in every other case nothing changes |
| `KcpStale.StaleLag` | cppLib/code/Network/Socket/ikcp.c:676-725 | So a datagram that lags by up to 2^32 - rcv_wnd changes nothing, and one that lags by more, up to 2^32, is stored unless a copy of its number is held |
| `KcpStale.OldDataTaken` | cppLib/code/Network/Socket/ikcp.c:356-829 | A run in which it happens, for every length: n messages arrive and are taken out one by one, and the datagram of message a arrives again; it is taken for a new message if and only if a - n is below 128, modulo 2^32 |
| `KcpStale.StaleUnaDrops` | cppLib/code/Network/Socket/ikcp.c:591-605 | A cumulative acknowledgement that lags is read as being ahead, and drops a segment that has not arrived, if and only if the two numbers are more than 2^31 apart, modulo 2^32 |
| `KcpStale.OldAckLosesData` | cppLib/code/Network/Socket/ikcp.c:467-1113 | A run in which it happens, for every length: i messages are sent and acknowledged one by one, one more is sent, and the old acknowledgement of message a arrives again; the message under way is lost if and only if i - a - 1 exceeds 2^31, modulo 2^32 |
| `KcpFailures.RefusedSendLeaves` | cppLib/code/Network/Socket/ikcp.c:476-508 | A run after which a refused call in stream mode has changed the stream |
| `KcpFailures.RaiseLeavesReady` | cppLib/code/Network/Socket/ikcp.c:1247-1258 | A run after which raising rcv_wnd leaves a ready segment in the buffer |
| `KcpFailures.LoweredMtuOverruns` | cppLib/code/Network/Socket/ikcp.c:911-1211 | A run of three calls after which a flush would write 1400 bytes into a buffer of 222: a full segment is queued, the mtu is set to 50, and the first update opens the window |
| `KcpClass.Kcp.constructor` | cppLib/code/Network/Socket/ikcp.c:233-293 | A fresh control block, with its counters and its buffer |
| `KcpClass.Kcp.PeekSize` | cppLib/code/Network/Socket/ikcp.c:439-461 | The loop over the fragments of the first message computes its length |
| `KcpClass.Kcp.Recv` | cppLib/code/Network/Socket/ikcp.c:356-433 | The three loops of ikcp_recv compute the specified result, receiver and window announcement |
| `KcpClass.Kcp.Send` | cppLib/code/Network/Socket/ikcp.c:467-535 | The loops of ikcp_send append exactly the specified fragments |
| `KcpClass.Kcp.UpdateAck` | cppLib/code/Network/Socket/ikcp.c:541-556 | The assignments of the round-trip estimator |
| `KcpClass.Kcp.ParseUna` | cppLib/code/Network/Socket/ikcp.c:591-605 | The loop that drops acknowledged segments, with its counter |
| `KcpClass.Kcp.ParseAck` | cppLib/code/Network/Socket/ikcp.c:569-589 | The scan that takes one segment out |
| `KcpClass.Kcp.ParseFastack` | cppLib/code/Network/Socket/ikcp.c:607-624 | The scan that counts skipped segments |
| `KcpClass.Kcp.ParseData` | cppLib/code/Network/Socket/ikcp.c:676-736 | The backward scan, the insertion and the loop that moves ready segments |
| `KcpClass.Kcp.Input` | cppLib/code/Network/Socket/ikcp.c:742-880 | The decode loop of ikcp_input on any bytes: result code and whole new state, with the three error returns |
| `KcpClass.Kcp.EncodeSeg` | cppLib/code/Network/Socket/ikcp.c:886-897 | The eight stores of a header, and the data, behind the bytes already in the buffer |
| `KcpClass.Kcp.WndUnused` | cppLib/code/Network/Socket/ikcp.c:899-905 | The free places of the receive queue |
| `KcpClass.Kcp.Flush` | cppLib/code/Network/Socket/ikcp.c:911-1113 | The loops of ikcp_flush over one output buffer, called whenever what is to be written stays inside it: the whole new state and the datagrams handed to the callback |
| `KcpClass.Kcp.Update` | cppLib/code/Network/Socket/ikcp.c:1121-1146 | The clock, and the flush if it is due, under the same condition |
| `KcpClass.Kcp.Check` | cppLib/code/Network/Socket/ikcp.c:1158-1194 | The loop over the retransmission times |
| `KcpClass.Kcp.NoDelay` | cppLib/code/Network/Socket/ikcp.c:1221-1244 | Only the settings with a non-negative argument change; the interval becomes the argument within 10 and 5000 |
| `KcpClass.Kcp.Interval` | cppLib/code/Network/Socket/ikcp.c:1213-1219 | The interval becomes the argument within 10 and 5000 |
| `KcpClass.Kcp.WndSize` | cppLib/code/Network/Socket/ikcp.c:1247-1258 | Only positive arguments count, and a receive window that is set is the argument, but at least 128 |
| `KcpClass.Kcp.SetMtu` | cppLib/code/Network/Socket/ikcp.c:1198-1211 | An mtu below 50 is refused; otherwise mtu, mss and buffer change together, the buffer with the size that 32-bit words give |
| `MpscQueue.StepKeeps` | cppLib/code/Utinities/MPSCQueue.h:46-64 | Every atomic step of every thread keeps the invariant: the chain from tail to head in exchange order, cut only where a producer has still to link |
| `MpscQueue.NeverFaults` | cppLib/code/Utinities/MPSCQueue.h:46-64 | No step ever touches memory that is not live, although freed addresses may be reused |
| `MpscQueue.FifoOrder` | cppLib/code/Utinities/MPSCQueue.h:46-64 | Under every interleaving the items dequeued are a prefix of the items in the order of the head exchanges |
| `MpscQueue.EverythingEnters` | cppLib/code/Utinities/MPSCQueue.h:46-64 | From the steps alone: what was dequeued and what stands in the chain are together the items of the calls of Enqueue in the order of their exchanges; nothing is lost, doubled or made up |
| `MpscQueue.FailsOnlyIfUnlinked` | cppLib/code/Utinities/MPSCQueue.h:55-58 | Dequeue fails exactly when the queue is empty or the producer of its oldest entry has exchanged the head and not yet linked |
| `MpscQueue.PendingLinkIsLive` | cppLib/code/Utinities/MPSCQueue.h:49-62 | While a producer has a link to write, both nodes are live and neither is about to be freed |
| `MpscQueue.DequeueQuiescent` | cppLib/code/Utinities/MPSCQueue.h:53-64 | With no call under way one Dequeue takes the oldest item and frees the old tail, or finds nothing and changes nothing |
| `MpscQueue.DrainFreesAll` | cppLib/code/Utinities/MPSCQueue.h:36-44 | Destroying a quiescent queue hands out everything that was enqueued, leaves no node live, and deletes as many times as there were nodes |
| `Md5.PaddedIsWhole` | cppLib/code/dep/G3D/source/Crypto_md5.cpp:448-466 | Padding is 1 to 64 bytes, reaches 56 bytes modulo 64, and makes whole blocks with the length |
| `Md5.InitBytes` | cppLib/code/dep/G3D/source/Crypto_md5.cpp:400-408 | The initial words are those of section 3.3 of RFC 1321, given there by their bytes |
| `Md5.PaddingBits` | cppLib/code/dep/G3D/source/Crypto_md5.cpp:451-464 | Bit for bit the padding is that of section 3.1: a single one, and fewer than 512 zeros, up to 448 modulo 512 |
| `Md5.LengthField` | cppLib/code/dep/G3D/source/Crypto_md5.cpp:460-466 | The last eight bytes are the number of bits of the message modulo 2^64, as in section 3.2 |
| `Md5.PaddedInjective` | cppLib/code/dep/G3D/source/Crypto_md5.cpp:448-466 | Different messages below 2^61 bytes are padded to different blocks |
| `Md5.FoldSplit` | cppLib/code/dep/G3D/source/Crypto_md5.cpp:439-441 | Folding over complete blocks and then over the rest is folding over the whole |
| `Md5.CountAdds` | cppLib/code/dep/G3D/source/Crypto_md5.cpp:422-425 | The two words with a carry found by comparison add modulo 2^64 |
| `Md5.OffsetIs` | cppLib/code/dep/G3D/source/Crypto_md5.cpp:415 | The bit count gives the filled part of the last block, even after it has wrapped |
| `Md5.PadIs` | cppLib/code/dep/G3D/source/Crypto_md5.cpp:464 | The padding length computed in unsigned words is the one of the standard |
| `Md5.State.constructor` | cppLib/code/dep/G3D/source/Crypto_md5.cpp:400-408 | The initial state has absorbed the empty message |
| `Md5.State.Append` | cppLib/code/dep/G3D/source/Crypto_md5.cpp:410-446 | For any split into calls: the digest words are the fold over the full blocks of everything appended, the buffer holds the leftover bytes, the two words the bit count modulo 2^64 |
| `Md5.State.Finish` | cppLib/code/dep/G3D/source/Crypto_md5.cpp:448-469 | The digest is that of message, 0x80, zeros to 56 modulo 64, and the 64-bit little-endian length, as in sections 3.1 to 3.5 of RFC 1321 |
| `Md5.Md5` | cppLib/code/dep/G3D/source/Crypto_md5.cpp:65-73 | The one-call form digests what the cast of the length to int leaves of the data |
| `Md5.TakenIsAll` | cppLib/code/dep/G3D/source/Crypto_md5.cpp:65-73 | That is all of the data if and only if there are fewer than 2^31 bytes |
| `ThreadPool.StepKeeps` | cppLib/code/Threading/ThreadPool.cpp:23-81 | Every step of a worker, of a thread that enqueues and of the destructor keeps the invariant, around one mutex and one condition variable |
| `ThreadPool.PushAppends` | cppLib/code/Threading/ThreadPool.cpp:57-64 | The critical section of enqueue puts the task at the end of the queue, or refuses it once the pool is stopped |
| `ThreadPool.EveryTaskCounts` | cppLib/code/Threading/ThreadPool.cpp:54-65 | Over every run, from the calls alone: the tasks handed in are, as a multiset, those accepted, those refused after the stop, and those of calls that have not come to their push |
| `ThreadPool.StartedInOrder` | cppLib/code/Threading/ThreadPool.cpp:44-48 | The accepted tasks are always the started ones followed by the queue, and each started task is finished or in the hands of one worker |
| `ThreadPool.NoLostWakeup` | cppLib/code/Threading/ThreadPool.cpp:38-64 | While tasks are queued and all workers wait, a notification is still to come |
| `ThreadPool.JoinedMeansDone` | cppLib/code/Threading/ThreadPool.cpp:67-76 | When all joins have returned, the queue is empty and every accepted task has been finished once |
| `ThreadPool.DoneOrRefused` | cppLib/code/Threading/ThreadPool.cpp:29-76 | So then every task ever handed in has been finished once, was refused, or belongs to such a call |
| `ThreadPool.HandedInMeansDone` | cppLib/code/Threading/ThreadPool.cpp:29-76 | In particular every task handed in by calls that were over before the stop has been finished |
| `ThreadPool.StuckMeansIdle` | cppLib/code/Threading/ThreadPool.cpp:29-76 | When no step of the pool itself is possible, it is idle with an empty queue and all workers waiting, or destroyed with all workers gone: it never deadlocks |
| `ThreadPool.RunsEnd` | cppLib/code/Threading/ThreadPool.cpp:29-76 | Left alone, the pool comes to rest within a number of steps that is known beforehand, whatever the schedule |
| `PacketParser.FeedSplit` | cppLib/code/Network/Socket/KcpSession.cpp:213-260 | The same bytes in one chunk or in two have the same effect, unless a malformed header cuts the first one off |
| `PacketParser.ChunksJoin` | cppLib/code/Network/Socket/KcpSession.cpp:213-260 | Two chunks may be joined if and only if the first is not cut off by a malformed header or the second is empty |
| `PacketParser.BadHeaderSplits` | cppLib/code/Network/Socket/KcpSession.cpp:226-236 | A header of eight bytes and a byte that show the difference |
| `PacketParser.HeaderRefused` | cppLib/code/Network/Socket/KcpSession.cpp:213-339 | A complete header is accepted if and only if its first four bytes stand for less than 65536 and the next two for less than 1024; otherwise the rest of the chunk is not read, nothing is delivered and the header stays |
| `PacketParser.HeaderReads` | cppLib/code/Network/Socket/SocketConfig.h:88-98 | An 8-byte header of a valid packet is accepted and read back, whatever its padding bytes |
| `PacketParser.StreamParses` | cppLib/code/Network/Socket/KcpSession.cpp:213-260 | A stream of valid packets, empty ones included, is parsed into exactly these packets |
| `PacketParser.ChunksParse` | cppLib/code/Network/Socket/KcpSession.cpp:213-260 | However a stream of valid packets is cut into chunks, the packets are delivered one for one, in order |
| `PacketParser.PrefixParses` | cppLib/code/Network/Socket/KcpSession.cpp:213-260 | At any moment what was delivered is the beginning of what was sent |
| `PacketParser.MessageBuffer.Write` | cppLib/code/Network/Socket/MessageBuffer.h:85-92 | Writing appends to the active bytes and stays inside the storage |
| `PacketParser.MessageBuffer.ReadCompleted` | cppLib/code/Network/Socket/MessageBuffer.h:48 | Reading drops bytes from the front of the active ones |
| `PacketParser.MessageBuffer.Resize` | cppLib/code/Network/Socket/MessageBuffer.h:37-40 | Resizing keeps what is left of the storage, with the active bytes exactly while the write cursor stays inside |
| `PacketParser.Session.ReadHeaderHandler` | cppLib/code/Network/Socket/KcpSession.cpp:326-339 | A header is accepted exactly when its size is below 65536 and its command below 1024; then the payload buffer is emptied and sized |
| `PacketParser.Session.ReadHandler` | cppLib/code/Network/Socket/KcpSession.cpp:213-260 | The loop consumes the read buffer as one chunk, in all states, terminates, and never writes past a buffer |
| `PacketParser.Session.OnReceive` | cppLib/code/Network/Socket/KcpSession.cpp:124-133 | What is received is consumed as one chunk, and the read buffer is empty again |
| `World.RemoveWaiting` | cppLib/code/server/World/World.cpp:113-161 | When a waiting session ends, it leaves the queue and nobody is admitted, although RemoveQueuedPlayer is called twice |
| `World.RemoveActive` | cppLib/code/server/World/World.cpp:113-161 | When an active session ends, the first in the queue is admitted and nobody else, although RemoveQueuedPlayer is called twice |
| `World.RemoveKeeps` | cppLib/code/server/World/World.cpp:67-73 | Removal keeps the rules: the queue a duplicate-free part of the sessions in order of arrival, active sessions within the limit, and equal to it while anyone waits |
| `World.AdmitsFirst` | cppLib/code/server/World/World.cpp:143-153 | Whoever is admitted was first in the queue and came before all who still wait |
| `World.NobodyLost` | cppLib/code/server/World/World.cpp:113-161 | Nobody leaves the queue but the session that ended and the one admitted |
| `World.PlacesAreNew` | cppLib/code/server/World/World.cpp:155-158 | Every place announced is the new one, counted from one, and everyone whose place changed is told |
| `World.ScanFinds` | cppLib/code/server/World/World.cpp:172-189 | In whatever order the records are visited, a recent one is found, and only records that are not recent are erased |
| `World.AddExact` | cppLib/code/server/World/World.cpp:195-242 | Adding a session keeps the rules if and only if the id is unused and there is a place or no recent record of a disconnection, or the one it replaces is loading, or it replaces one that does not wait while nobody waits or a recent record exists; with an id never used before they always hold |
| `World.ArrivalWaits` | cppLib/code/server/World/World.cpp:195-242 | A session with an id not in use waits, as the last, if and only if no place is free and its id has no recent record; otherwise it is initialized; nothing else changes |
| `World.ReturnKicks` | cppLib/code/server/World/World.cpp:195-242 | A session with an id in use is turned away while the old one is loading; otherwise it replaces that one, which is told twice, and waits or is initialized |
| `World.RunKeeps` | cppLib/code/server/World/World.cpp:52-76 | The rules hold over every run of admissible additions and of removals |
| `World.NobodyForgotten` | cppLib/code/server/World/World.cpp:52-242 | Over such a run the sessions of the world are exactly those that came in and have not ended, and each of them waits or has been initialized |
| `World.ServedInOrder` | cppLib/code/server/World/World.cpp:113-242 | First come, first served over every run with new ids: sessions are initialized in the order in which they were added, whether they waited or not |
| `World.ServedFromStart` | cppLib/code/server/World/World.cpp:113-242 | In particular from an empty world with any positive limit |
| `World.RecordLapses` | cppLib/code/server/World/World.cpp:172-189 | The scan finds and keeps a record unless it lies 1000 seconds or more in the future; only then it is erased and not found |
| `World.RecordedNeverQueues` | cppLib/code/server/World/World.cpp:172-242 | So with a clock that does not run backwards an id that was once recorded is never queued again, over any run |
| `World.ReturningIdPassesLimit` | cppLib/code/server/World/World.cpp:195-242 | A run after which an id that comes back makes two play where one may |
| `World.ReplacedStaysQueued` | cppLib/code/server/World/World.cpp:195-242 | A run after which a session that was replaced is still in the queue |
| `World.ReplacedFreesPlace` | cppLib/code/server/World/World.cpp:195-242 | A run after which both sessions wait and nobody plays |
| `World.World.RemoveQueuedPlayer` | cppLib/code/server/World/World.cpp:113-161 | The search, the admission and the loop of notifications compute the specified queue, messages and result |
| `World.World.HasRecentlyDisconnected` | cppLib/code/server/World/World.cpp:172-189 | The loop over the records, in any order, computes the specified result and erasures |
| `World.World.AddSession` | cppLib/code/server/World/World.cpp:195-242 | The branches of adding a session compute the specified state, for any id |
| `World.World.UpdateSessions` | cppLib/code/server/World/World.cpp:52-76 | One update, for any ids and visiting the sessions in any order, is a run of the additions in order and then of the removals; exactly the sessions that have not ended remain |
| `BitPacking.NumBits` | cppLib/code/dep/G3D/source/BinaryInput.cpp:535-552 | Collecting the lowest n bits of a number, lowest first, gives the number modulo 2^n |
| `BitPacking.BitsAbove` | cppLib/code/dep/G3D/source/BinaryOutput.cpp:524-527 | Setting the next higher place of the byte being built appends one bit |
| `BitPacking.BinaryOutput.WriteBits` | cppLib/code/dep/G3D/source/BinaryOutput.cpp:519-536 | The loop adds exactly the lowest bits of the value, lowest first, to those written |
| `BitPacking.BinaryOutput.EndBits` | cppLib/code/dep/G3D/source/BinaryOutput.cpp:539-547 | The bytes written hold all bits in order, filled up to the next byte |
| `BitPacking.BinaryInput.BeginBits` | cppLib/code/dep/G3D/source/BinaryInput.cpp:520-527 | Reading starts with the first bit at the position; a byte must be there |
| `BitPacking.BinaryInput.ReadBits` | cppLib/code/dep/G3D/source/BinaryInput.cpp:530-555 | The loop returns the number whose bits come next, and the rest stays to be read |
| `BitPacking.BinaryInput.EndBits` | cppLib/code/dep/G3D/source/BinaryInput.cpp:558-566 | The position moves on by the bits read, rounded up to bytes, also when none was read |
| `BitPacking.WriteAndRead` | cppLib/code/dep/G3D/source/BinaryOutput.cpp:511-547 | Any list of numbers with widths 0 to 32 written and then read with the same widths comes back modulo 2 to the width, and both sides move on by the same number of bytes |

## Left out

- KcpNetwork.NextKeeps: stated, and with it every end-to-end theorem, for conversations in which the number of fragments per direction plus the widest receive window is at most 2^31, so that a datagram of any age is safe; `KcpStale.OldAckLosesData` shows that beyond 2^31 an old acknowledgement does lose data.
- KcpMessages.EndToEnd: for sides that stay in message mode; with stream mode, `KcpStream.StreamEndToEnd` speaks of bytes, because message boundaries are not kept.
- KcpRuns.StepKeeps: windows may be raised but not lowered; lowering one leaves more in flight or buffered than the new value.
- KcpClass.Kcp.Flush: called where the source stays inside its output buffer, which `KcpReadBack.FlushStaysInside` and `KcpReadBack.ReachableStaysInside` characterize; what the source does after it has written past the buffer has no meaning to model.
- SessionRoom.HeadDecides: for datagrams of the session's own conversation; the closing of a session by `OnReceive` after a foreign one is not modelled, and `CheckCrc` is taken to accept.
- KcpClass.Kcp.AckPush: appends to a sequence; the growth of the `acklist` array by doubling is not modelled.
- KcpReceiver.PeekIsRecvLength: the destination is a sequence that is always there; a null buffer, which moves nothing but still consumes, is not modelled, nor is an overflow of the `int` sum of fragment lengths.
- Md5.State.Append: requires that offset plus length does not overflow a signed `int`; the work of `md5_process` on one block is a parameter.
- PacketParser.Session.ReadHandler: the packet handler accepts everything; `CloseSession` after a refusal is not modelled.
- PacketParser.MessageBuffer: `Normalize`, `EnsureFreeSpace`, copying and moving are not used by the parser and not modelled; the storage is a sequence, as a `std::vector` is a value of its object.
- World.State.Active: sizes are unbounded, and a difference below zero wraps as it does in 32 bits; the limit is a parameter because the constructor does not set it, and the flag `m_bInQueue`, the maximum counters and the population figure are left out.
- BitPacking.WriteAndRead: without a single bit a byte must follow, because `beginBits` reads one.
- ThreadPool.NoLostWakeup: for at least one worker; the template overload of `enqueue`, whose lock is commented out, is not modelled, and tasks are taken to return.
- MpscQueue.StepKeeps: steps are sequentially consistent; weaker memory orders are not modelled.
- Allocation in the KCP engine is taken to succeed, and the intrusive lists of `ikcp.h` are sequences.
- `dead_link`, `state`, the total `xmit` counter, `ikcp_waitsnd`, `ikcp_release` and logging of the KCP engine.
- Liveness over lossy networks: that a message arrives in the end; `KcpRoundTrip.RoundTripDelivers` says what one round trip without losses achieves, and `KcpTimers.SentOncePerTimeout` that what was lost is sent again.
- A `long` of 64 bits in `_itimediff`.
- Sockets, servers, `KcpClient`, `WriteBufferQueue`, `PriorityList`, the client bindings, and the geometry, image and text code of G3D.
