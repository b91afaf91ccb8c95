/** The sending side of a stream: send_stream.go, with the STREAM frame arithmetic of
    internal/wire/stream_frame.go and the sending half of internal/flowcontrol. */
module SendStreams {
  import opened Chunks
  import opened Protocol
  import opened Varint

  /** The size of a packet buffer. */
  const MAX_PACKET_BUFFER_SIZE := 1452

  /** The largest budget for which the length of a STREAM frame takes at most two bytes. */
  const MAX_POP := MAX_VARINT_2 + 2

  /** In so many bytes fits a frame with one byte of data, whatever its stream and offset. */
  const MIN_FRAME_SIZE := 19

  datatype StreamFrame = StreamFrame(chunk: Chunk, fin: bool)

  // ----- STREAM frames on the wire

  function HeaderLen(id: nat, offset: nat): nat
    requires id <= MAX_VARINT && offset <= MAX_VARINT
  {
    1 + Len(id) + if offset != 0 then Len(offset) else 0
  }

  ghost predicate ValidFrame(f: StreamFrame) {
    (|f.chunk.data| > 0 || f.fin) && f.chunk.offset + |f.chunk.data| <= MAX_VARINT
  }

  /** The length of a frame, with or without its length field. */
  function Length(id: nat, f: StreamFrame, withLen: bool): nat
    requires id <= MAX_VARINT && ValidFrame(f)
  {
    HeaderLen(id, f.chunk.offset) + (if withLen then Len(|f.chunk.data|) else 0) + |f.chunk.data|
  }

  /** How much data fits into maxSize bytes with a length field of one or two bytes. */
  function MaxDataLen(id: nat, offset: nat, maxSize: int): nat
    requires id <= MAX_VARINT && offset <= MAX_VARINT && maxSize <= MAX_POP
  {
    var headerLen := HeaderLen(id, offset) + 1;
    if headerLen > maxSize then 0
    else
      var m := maxSize - headerLen;
      if Len(m) != 1 then m - 1 else m
  }

  lemma MaxDataLenFits(id: nat, offset: nat, n: nat, maxSize: int)
    requires id <= MAX_VARINT && offset + n <= MAX_VARINT && maxSize <= MAX_POP
    ensures HeaderLen(id, offset) + Len(n) + n > maxSize ==> MaxDataLen(id, offset, maxSize) < n || n == 0
    ensures 0 < n <= MaxDataLen(id, offset, maxSize) ==> HeaderLen(id, offset) + Len(n) + n <= maxSize
    ensures n == 0 && HeaderLen(id, offset) + 1 > maxSize ==> MaxDataLen(id, offset, maxSize) == 0
  {
  }

  datatype SplitResult = Fits | TooSmall | Split(head: StreamFrame, rest: StreamFrame)

  /** Splits off a frame that fits; the FIN stays with the rest. */
  function MaybeSplit(id: nat, f: StreamFrame, maxSize: int): (r: SplitResult)
    requires id <= MAX_VARINT && ValidFrame(f) && maxSize <= MAX_POP
    ensures r.Fits? <==> Length(id, f, true) <= maxSize
    ensures r.Split? ==> ValidFrame(r.head) && ValidFrame(r.rest) && SplitOff(f, r.head, r.rest)
                         && Length(id, r.head, true) <= maxSize
  {
    if Length(id, f, true) <= maxSize then Fits
    else
      var n := MaxDataLen(id, f.chunk.offset, maxSize);
      MaxDataLenFits(id, f.chunk.offset, |f.chunk.data|, maxSize);
      if n == 0 then TooSmall
      else
        MaxDataLenFits(id, f.chunk.offset, n, maxSize);
        Split(StreamFrame(Chunk(f.chunk.offset, f.chunk.data[..n]), false),
              StreamFrame(Chunk(f.chunk.offset + n, f.chunk.data[n..]), f.fin))
  }

  ghost predicate SplitOff(f: StreamFrame, head: StreamFrame, rest: StreamFrame) {
    && head.chunk.offset == f.chunk.offset && rest.chunk.offset == f.chunk.offset + |head.chunk.data|
    && f.chunk.data == head.chunk.data + rest.chunk.data && !head.fin && rest.fin == f.fin
  }

  // ----- conservation

  ghost function ChunksOf(fs: seq<StreamFrame>): (r: seq<Chunk>)
    ensures |r| == |fs|
  {
    seq(|fs|, i requires 0 <= i < |fs| => fs[i].chunk)
  }

  /** How often byte v at offset x is in the frames. */
  ghost function Count(fs: seq<StreamFrame>, x: int, v: Byte): nat {
    ChunkCount(ChunksOf(fs), x, v)
  }

  ghost function FinCount(fs: seq<StreamFrame>): nat {
    if |fs| == 0 then 0 else FinCount(fs[1..]) + if fs[0].fin then 1 else 0
  }

  lemma {:induction false} FinConcat(a: seq<StreamFrame>, b: seq<StreamFrame>)
    ensures FinCount(a + b) == FinCount(a) + FinCount(b)
  {
    if |a| == 0 {
      assert a + b == b;
    } else {
      assert (a + b)[1..] == a[1..] + b;
      FinConcat(a[1..], b);
    }
  }

  function FinOf(f: StreamFrame): nat {
    if f.fin then 1 else 0
  }

  lemma Appended(fs: seq<StreamFrame>, f: StreamFrame)
    ensures FinCount(fs + [f]) == FinCount(fs) + FinOf(f)
    ensures forall x: int, v: Byte ::
              Count(fs + [f], x, v) == Count(fs, x, v) + ByteCount(f.chunk.offset, f.chunk.data, x, v)
  {
    FinConcat(fs, [f]);
    assert [f][1..] == [] && [f.chunk][1..] == [];
    assert ChunksOf(fs + [f]) == ChunksOf(fs) + [f.chunk];
    forall x: int, v: Byte
      ensures Count(fs + [f], x, v) == Count(fs, x, v) + ByteCount(f.chunk.offset, f.chunk.data, x, v)
    {
      CountConcat(ChunksOf(fs), [f.chunk], x, v);
    }
  }

  function Removed(fs: seq<StreamFrame>, i: nat): seq<StreamFrame>
    requires i < |fs|
  {
    fs[..i] + fs[i + 1..]
  }

  lemma RemovedFin(fs: seq<StreamFrame>, i: nat)
    requires i < |fs|
    ensures FinCount(fs) == FinCount(Removed(fs, i)) + FinOf(fs[i])
  {
    FinConcat(fs[..i], fs[i..]);
    FinConcat(fs[..i], fs[i + 1..]);
    assert fs == fs[..i] + fs[i..] && fs[i..][1..] == fs[i + 1..];
  }

  lemma RemovedBytes(fs: seq<StreamFrame>, i: nat, x: int, v: Byte)
    requires i < |fs|
    ensures Count(fs, x, v) == Count(Removed(fs, i), x, v) + ByteCount(fs[i].chunk.offset, fs[i].chunk.data, x, v)
  {
    var c := ChunksOf(fs);
    assert ChunksOf(Removed(fs, i)) == c[..i] + c[i + 1..];
    assert [c[i]][1..] == [];
    Without(c, i, x, v);
  }

  lemma RemovedCount(fs: seq<StreamFrame>, i: nat)
    requires i < |fs|
    ensures FinCount(fs) == FinCount(Removed(fs, i)) + FinOf(fs[i])
    ensures forall x: int, v: Byte ::
              Count(fs, x, v) == Count(Removed(fs, i), x, v) + ByteCount(fs[i].chunk.offset, fs[i].chunk.data, x, v)
  {
    RemovedFin(fs, i);
    forall x: int, v: Byte
      ensures Count(fs, x, v)
              == Count(Removed(fs, i), x, v) + ByteCount(fs[i].chunk.offset, fs[i].chunk.data, x, v)
    {
      RemovedBytes(fs, i, x, v);
    }
  }

  /** Each byte sent is in one of the three, once and with its value; so is the FIN if it was
      sent, and it stands at the end. */
  ghost predicate Conserves(sent: seq<Byte>, fin: bool, acked: seq<StreamFrame>, out: seq<StreamFrame>,
                            queued: seq<StreamFrame>)
  {
    && (forall x: int, v: Byte :: Places(acked, out, queued, x, v) == ByteCount(0, sent, x, v))
    && FinCount(acked) + FinCount(out) + FinCount(queued) == (if fin then 1 else 0)
    && AllGood(acked, |sent|) && AllGood(out, |sent|) && AllGood(queued, |sent|)
  }

  ghost function Places(acked: seq<StreamFrame>, out: seq<StreamFrame>, queued: seq<StreamFrame>, x: int,
                        v: Byte): nat {
    Count(acked, x, v) + Count(out, x, v) + Count(queued, x, v)
  }

  ghost predicate AllGood(fs: seq<StreamFrame>, n: nat) {
    forall i :: 0 <= i < |fs| ==> Good(fs[i], n)
  }

  ghost predicate Good(f: StreamFrame, n: nat) {
    ValidFrame(f) && f.chunk.offset + |f.chunk.data| <= n && (f.fin ==> f.chunk.offset + |f.chunk.data| == n)
  }

  lemma ConservesSend(sent: seq<Byte>, fin: bool, acked: seq<StreamFrame>, out: seq<StreamFrame>,
                      queued: seq<StreamFrame>, f: StreamFrame)
    requires Conserves(sent, false, acked, out, queued) && ValidFrame(f)
    requires f.chunk.offset == |sent| && f.fin == fin
    ensures Conserves(sent + f.chunk.data, fin, acked, out + [f], queued)
  {
    var all := sent + f.chunk.data;
    Appended(out, f);
    NoFin(acked, out, queued, |sent|, |all|);
    forall x: int, v: Byte ensures Places(acked, out + [f], queued, x, v) == ByteCount(0, all, x, v) {
      assert Places(acked, out, queued, x, v) == ByteCount(0, sent, x, v);
    }
  }

  /** Frames without FIN stay good when the stream grows. */
  lemma NoFin(acked: seq<StreamFrame>, out: seq<StreamFrame>, queued: seq<StreamFrame>, n: nat, m: nat)
    requires FinCount(acked) + FinCount(out) + FinCount(queued) == 0 && n <= m
    requires AllGood(acked, n) && AllGood(out, n) && AllGood(queued, n)
    ensures AllGood(acked, m) && AllGood(out, m) && AllGood(queued, m)
  {
    FinFree(acked);
    FinFree(out);
    FinFree(queued);
  }

  lemma {:induction false} FinFree(fs: seq<StreamFrame>)
    requires FinCount(fs) == 0
    ensures forall i :: 0 <= i < |fs| ==> !fs[i].fin
  {
    if |fs| > 0 {
      FinFree(fs[1..]);
      assert forall i :: 1 <= i < |fs| ==> fs[i] == fs[1..][i - 1];
    }
  }

  lemma ConservesAck(sent: seq<Byte>, fin: bool, acked: seq<StreamFrame>, out: seq<StreamFrame>,
                     queued: seq<StreamFrame>, i: nat)
    requires Conserves(sent, fin, acked, out, queued) && i < |out|
    ensures Conserves(sent, fin, acked + [out[i]], Removed(out, i), queued)
  {
    RemovedCount(out, i);
    Appended(acked, out[i]);
    assert Good(out[i], |sent|);
    forall x: int, v: Byte ensures Places(acked + [out[i]], Removed(out, i), queued, x, v) == ByteCount(0, sent, x, v) {
      assert Places(acked, out, queued, x, v) == ByteCount(0, sent, x, v);
    }
  }

  lemma ConservesLoss(sent: seq<Byte>, fin: bool, acked: seq<StreamFrame>, out: seq<StreamFrame>,
                      queued: seq<StreamFrame>, i: nat)
    requires Conserves(sent, fin, acked, out, queued) && i < |out|
    ensures Conserves(sent, fin, acked, Removed(out, i), queued + [out[i]])
  {
    RemovedCount(out, i);
    Appended(queued, out[i]);
    assert Good(out[i], |sent|);
    forall x: int, v: Byte ensures Places(acked, Removed(out, i), queued + [out[i]], x, v) == ByteCount(0, sent, x, v) {
      assert Places(acked, out, queued, x, v) == ByteCount(0, sent, x, v);
    }
  }

  lemma ConservesRetransmit(sent: seq<Byte>, fin: bool, acked: seq<StreamFrame>, out: seq<StreamFrame>,
                            queued: seq<StreamFrame>)
    requires Conserves(sent, fin, acked, out, queued) && |queued| > 0
    ensures Conserves(sent, fin, acked, out + [queued[0]], queued[1..])
  {
    RemovedCount(queued, 0);
    assert Removed(queued, 0) == queued[1..];
    Appended(out, queued[0]);
    assert Good(queued[0], |sent|);
    forall x: int, v: Byte ensures Places(acked, out + [queued[0]], queued[1..], x, v) == ByteCount(0, sent, x, v) {
      assert Places(acked, out, queued, x, v) == ByteCount(0, sent, x, v);
    }
  }

  lemma ConservesSplit(sent: seq<Byte>, fin: bool, acked: seq<StreamFrame>, out: seq<StreamFrame>,
                       queued: seq<StreamFrame>,
                       head: StreamFrame, rest: StreamFrame)
    requires Conserves(sent, fin, acked, out, queued) && |queued| > 0
    requires ValidFrame(head) && ValidFrame(rest) && SplitOff(queued[0], head, rest)
    ensures Conserves(sent, fin, acked, out + [head], [rest] + queued[1..])
  {
    var left := [rest] + queued[1..];
    RemovedCount(queued, 0);
    RemovedCount(left, 0);
    assert Removed(queued, 0) == queued[1..] == Removed(left, 0);
    Appended(out, head);
    assert Good(queued[0], |sent|);
    forall x: int, v: Byte ensures Places(acked, out + [head], left, x, v) == ByteCount(0, sent, x, v) {
      assert Places(acked, out, queued, x, v) == ByteCount(0, sent, x, v);
    }
  }

  // ----- flow control

  /** The sending half of a flow controller. */
  datatype Flow = Flow(bytesSent: nat, sendWindow: nat, lastBlockedAt: nat) {
    ghost predicate Valid() {
      bytesSent <= MAX_BYTE_COUNT && sendWindow <= MAX_BYTE_COUNT && lastBlockedAt <= sendWindow
    }

    /** More may have been sent than allowed only before the peer's limits were known. */
    ghost predicate Within() {
      bytesSent <= sendWindow
    }

    function SendWindowSize(): nat {
      if bytesSent > sendWindow then 0 else sendWindow - bytesSent
    }

    predicate NewlyBlocked() {
      SendWindowSize() == 0 && sendWindow != lastBlockedAt
    }

    function UpdateSendWindow(limit: nat): Flow {
      if limit > sendWindow then this.(sendWindow := limit) else this
    }
  }

  /** After n more bytes were sent. */
  function Spent(flow: Flow, n: nat): Flow {
    flow.(bytesSent := flow.bytesSent + n)
  }

  /** The connection-level flow controller, which all streams share. */
  class Connection {
    var flow: Flow

    constructor (limit: nat)
      requires limit <= MAX_BYTE_COUNT
      ensures flow == Flow(0, limit, 0) && flow.Valid()
    {
      flow := Flow(0, limit, 0);
    }

    /** Reports each limit at most once: the limits reported increase. */
    method IsNewlyBlocked() returns (offset: Option<nat>)
      requires flow.Valid()
      modifies this
      ensures flow.Valid() && flow.bytesSent == old(flow.bytesSent) && flow.sendWindow == old(flow.sendWindow)
      ensures offset.Some? ==>
                old(flow.lastBlockedAt) < offset.value == flow.sendWindow == flow.lastBlockedAt <= flow.bytesSent
      ensures offset.None? ==> flow == old(flow)
    {
      if !flow.NewlyBlocked() {
        return None;
      }
      flow := flow.(lastBlockedAt := flow.sendWindow);
      offset := Some(flow.sendWindow);
    }

    method UpdateSendWindow(limit: nat)
      requires flow.Valid() && limit <= MAX_BYTE_COUNT
      modifies this
      ensures flow.Valid() && flow == old(flow).(sendWindow := Max(old(flow.sendWindow), limit))
    {
      flow := flow.UpdateSendWindow(limit);
    }
  }

  // ----- the stream

  datatype FinalError = Shutdown | Cancelled(code: nat, remote: bool)
  datatype WriteError = Closed | Deadline | Final(error: FinalError)

  /** A Write call returned the number of bytes it took, or it waits. */
  datatype WriteResult = Returned(n: nat, err: Option<WriteError>) | Waits

  datatype ResetStream = ResetStream(finalSize: nat, code: nat)

  /** What was taken of an argument, if `left` is left of it. */
  lemma Took(accepted: seq<Byte>, left: seq<Byte>, before: seq<Byte>, argument: seq<Byte>)
    requires accepted + left == before + argument && |left| <= |argument|
    ensures accepted == before + argument[..|argument| - |left|]
    ensures argument[..|argument|] == argument
  {
    var k := |argument| - |left|;
    assert accepted == (accepted + left)[..|before| + k];
    assert before + argument[..k] == (before + argument)[..|before| + k];
  }

  /** The Write call under way: its argument, and the bytes accepted before it. */
  datatype Call = Call(argument: seq<Byte>, before: seq<Byte>)

  /** The bytes sent in new frames; the STREAM frames under way and acknowledged; the
      RESET_STREAM frames under way and acknowledged. */
  datatype Ledger = Ledger(sent: seq<Byte>, outstanding: seq<StreamFrame>, acked: seq<StreamFrame>, resets: nat,
                           resetsAcked: nat)

  function Buffered(nextFrame: Option<StreamFrame>): seq<Byte> {
    if nextFrame.Some? then nextFrame.value.chunk.data else []
  }

  /** The buffered frame continues what was sent; with the FIN sent, nothing is left. */
  ghost predicate ValidData(id: nat, flow: Flow, writeOffset: nat, sent: seq<Byte>, nextFrame: Option<StreamFrame>,
                            finSent: bool, finishedWriting: bool, dataForWriting: seq<Byte>)
  {
    && id <= MAX_VARINT && flow.Valid() && flow.bytesSent == writeOffset == |sent|
    && (nextFrame.Some? ==>
          && nextFrame.value.chunk.offset == writeOffset && |nextFrame.value.chunk.data| > 0 && !nextFrame.value.fin)
    && (finSent ==> finishedWriting && nextFrame.None? && dataForWriting == [])
  }

  /** While Write is under way, the stream has taken what of its argument is not left. */
  ghost predicate ValidWrite(writing: Option<nat>, call: Call, accepted: seq<Byte>,
                             dataForWriting: seq<Byte>, finalError: Option<FinalError>)
  {
    && (writing.Some? ==> writing.value == |call.argument| && |dataForWriting| <= |call.argument|
                          && accepted + dataForWriting == call.before + call.argument)
    && (writing.None? && finalError.None? ==> dataForWriting == [])
  }

  lemma KeepsWrite(writing: Option<nat>, call: Call, sent: seq<Byte>, nextFrame: Option<StreamFrame>,
                   dataForWriting: seq<Byte>, finalError: Option<FinalError>, data: seq<Byte>,
                   rest: Option<StreamFrame>, left: seq<Byte>)
    requires ValidWrite(writing, call, sent + Buffered(nextFrame), dataForWriting, finalError)
    requires data + Buffered(rest) + left == Buffered(nextFrame) + dataForWriting && |left| <= |dataForWriting|
    ensures ValidWrite(writing, call, (sent + data) + Buffered(rest), left, finalError)
    ensures (sent + data) + Buffered(rest) + left == sent + Buffered(nextFrame) + dataForWriting
  {
    assert (sent + data) + Buffered(rest) + left == sent + (data + Buffered(rest) + left);
    assert (sent + Buffered(nextFrame)) + dataForWriting == sent + (Buffered(nextFrame) + dataForWriting);
  }

  /** The counter is exact. Of a cancelled stream there is one RESET_STREAM frame, which
      waits, is under way or was acknowledged; of any other, every byte sent is accounted for. */
  ghost predicate ValidFrames(cancelled: bool, finalError: Option<FinalError>, queue: seq<StreamFrame>, counter: int,
                              queuedReset: Option<ResetStream>, finSent: bool, ledger: Ledger)
  {
    if cancelled then
      && finalError.Some? && queue == [] && counter == ledger.resets
      && ledger.resets + ledger.resetsAcked + (if queuedReset.Some? then 1 else 0) == 1
      && (queuedReset.Some? ==> queuedReset.value.finalSize == |ledger.sent|)
    else
      && counter == |ledger.outstanding| && ledger.resets == ledger.resetsAcked == 0 && queuedReset.None?
      && Conserves(ledger.sent, finSent, ledger.acked, ledger.outstanding, queue)
  }

  /** The ledger after f was sent for the first time. */
  function Sent(ledger: Ledger, f: StreamFrame): Ledger {
    ledger.(sent := ledger.sent + f.chunk.data, outstanding := ledger.outstanding + [f])
  }

  /** The ledger after f was sent again. */
  function Resent(ledger: Ledger, f: StreamFrame): Ledger {
    ledger.(outstanding := ledger.outstanding + [f])
  }

  /** f is the first frame of the queue, or split off it, and rest is what remains. */
  ghost predicate TookFront(queue: seq<StreamFrame>, f: StreamFrame, rest: seq<StreamFrame>) {
    && |queue| > 0
    && ((f == queue[0] && rest == queue[1..])
       || (|rest| > 0 && rest[1..] == queue[1..] && SplitOff(queue[0], f, rest[0])))
  }

  lemma FramesSend(queue: seq<StreamFrame>, counter: int, fin: bool, ledger: Ledger, f: StreamFrame)
    requires ValidFrames(false, None, queue, counter, None, false, ledger) && ValidFrame(f)
    requires f.chunk.offset == |ledger.sent| && f.fin == fin
    ensures ValidFrames(false, None, queue, counter + 1, None, fin, Sent(ledger, f))
  {
    ConservesSend(ledger.sent, fin, ledger.acked, ledger.outstanding, queue, f);
  }

  class SendStream {
    const id: nat
    const conn: Connection

    var numOutstandingFrames: int
    var retransmissionQueue: seq<StreamFrame>
    var writeOffset: nat
    var finalError: Option<FinalError>
    var queuedReset: Option<ResetStream>
    var finishedWriting: bool
    var finSent: bool
    var cancellationFlagged: bool
    var cancelled: bool
    var closedForShutdown: bool
    var completed: bool
    var dataForWriting: seq<Byte>
    var nextFrame: Option<StreamFrame>
    var flow: Flow

    /** The length of the argument of the Write call under way, if there is one. */
    var writing: Option<nat>

    ghost var call: Call
    ghost var ledger: Ledger

    /** The bytes taken over from Write so far. */
    ghost function Accepted(): seq<Byte>
      reads this
    {
      ledger.sent + Buffered(nextFrame)
    }

    ghost predicate Valid()
      reads this
    {
      && ValidData(id, flow, writeOffset, ledger.sent, nextFrame, finSent, finishedWriting, dataForWriting)
      && ValidWrite(writing, call, ledger.sent + Buffered(nextFrame), dataForWriting, finalError)
      && ValidFrames(cancelled, finalError, retransmissionQueue, numOutstandingFrames, queuedReset, finSent, ledger)
      && (completed && !cancelled ==> finSent && ledger.outstanding == [] && retransmissionQueue == [])
    }

    /** Nothing is left to be sent. */
    ghost predicate Idle()
      reads this
    {
      dataForWriting == [] && nextFrame.None? && retransmissionQueue == [] && (finishedWriting ==> finSent)
    }

    /** Every byte accepted, and the FIN, were acknowledged: each of them once. */
    ghost predicate Delivered()
      reads this
    {
      && Accepted() == ledger.sent && FinCount(ledger.acked) == 1
      && forall x: int, v: Byte :: Count(ledger.acked, x, v) == ByteCount(0, Accepted(), x, v)
    }

    constructor (id: nat, conn: Connection, limit: nat)
      requires id <= MAX_VARINT && limit <= MAX_BYTE_COUNT
      ensures Valid() && this.id == id && this.conn == conn && ledger == Ledger([], [], [], 0, 0)
      ensures Accepted() == [] && !completed
    {
      this.id, this.conn := id, conn;
      numOutstandingFrames, retransmissionQueue, writeOffset := 0, [], 0;
      finalError, queuedReset, nextFrame, writing := None, None, None, None;
      finishedWriting, finSent, cancellationFlagged, cancelled, closedForShutdown, completed :=
        false, false, false, false, false, false;
      dataForWriting, flow := [], Flow(0, limit, 0);
      ledger := Ledger([], [], [], 0, 0);
    }

    /** A stream that completed without being cancelled has delivered everything. */
    lemma CompletedDelivered()
      requires Valid() && completed && !cancelled
      ensures Delivered()
    {
      assert Accepted() == ledger.sent;
      forall x: int, v: Byte ensures Count(ledger.acked, x, v) == ByteCount(0, ledger.sent, x, v) {
        assert Places(ledger.acked, ledger.outstanding, retransmissionQueue, x, v) == ByteCount(0, ledger.sent, x, v);
      }
    }

    /** Reports completion once. */
    method IsNewlyCompleted() returns (r: bool)
      requires Valid()
      modifies `completed
      ensures Valid() && completed == (old(completed) || r) && (r ==> !old(completed))
      ensures r ==> numOutstandingFrames == 0 && retransmissionQueue == [] && queuedReset.None?
      ensures r ==> if cancelled then ledger.resetsAcked == 1 else Delivered()
      ensures !cancelled && finSent && ledger.outstanding == [] && retransmissionQueue == [] ==> completed
      ensures cancelled && ledger.resetsAcked == 1 && (cancellationFlagged || finishedWriting) ==> completed
    {
      if completed {
        return false;
      }
      if numOutstandingFrames > 0 || |retransmissionQueue| > 0 || queuedReset.Some? {
        return false;
      }
      if finSent || (cancelled && (cancellationFlagged || finishedWriting)) {
        completed := true;
        if !cancelled {
          CompletedDelivered();
        }
        return true;
      }
      return false;
    }

    // --- the application's side

    predicate CanBuffer()
      reads this
    {
      |Buffered(nextFrame)| + |dataForWriting| <= MAX_PACKET_BUFFER_SIZE
    }

    /** The first part of a Write call, up to where it waits or returns. */
    method BeginWrite(p: seq<Byte>, expired: bool) returns (r: WriteResult, newlyCompleted: bool)
      requires Valid() && writing.None?
      modifies `dataForWriting, `nextFrame, `writing, `cancellationFlagged, `completed, `call
      ensures Valid() && completed == (old(completed) || newlyCompleted) && old(Accepted()) <= Accepted()
      ensures r.Returned? ==>
                writing.None? && r.n <= |p| && Accepted() == old(Accepted()) + p[..r.n] && (r.n < |p| ==> r.err.Some?)
      ensures r.Waits? ==> writing.Some? && call.argument == p && call.before == old(Accepted())
    {
      newlyCompleted := false;
      assert Accepted() + p[..0] == Accepted();
      if finalError.Some? {
        newlyCompleted := FlagError();
        r := Returned(0, Some(Final(finalError.value)));
      } else if finishedWriting {
        r := Returned(0, Some(Closed));
      } else if expired {
        r := Returned(0, Some(Deadline));
      } else if |p| == 0 {
        r := Returned(0, None);
      } else {
        StartWrite(p);
        r, newlyCompleted := ContinueWrite(expired);
      }
    }

    method StartWrite(p: seq<Byte>)
      requires Valid() && writing.None? && finalError.None? && !finishedWriting
      modifies `dataForWriting, `writing, `call
      ensures Valid() && writing.Some? && call.argument == p && call.before == Accepted()
    {
      dataForWriting, writing, call := p, Some(|p|), Call(p, Accepted());
    }

    /** Write returns the final error: the application knows about a cancellation. */
    method FlagError() returns (newlyCompleted: bool)
      requires Valid()
      modifies `cancellationFlagged, `completed
      ensures Valid() && completed == (old(completed) || newlyCompleted)
    {
      cancellationFlagged := cancellationFlagged || cancelled;
      newlyCompleted := IsNewlyCompleted();
    }

    /** Write once it has the lock again: buffer the rest, return, or wait. */
    method ContinueWrite(expired: bool) returns (r: WriteResult, newlyCompleted: bool)
      requires Valid() && writing.Some?
      modifies `dataForWriting, `nextFrame, `writing, `cancellationFlagged, `completed
      ensures Valid() && completed == (old(completed) || newlyCompleted) && old(Accepted()) <= Accepted()
      ensures r.Returned? ==>
                writing.None? && r.n <= |call.argument| && Accepted() == call.before + call.argument[..r.n]
      ensures r.Returned? && r.n < |call.argument| ==> r.err.Some?
      ensures r.Waits? ==> writing.Some? && Accepted() == old(Accepted())
    {
      newlyCompleted := false;
      var n;
      if CanBuffer() && |dataForWriting| > 0 {
        Buffer();
        n := EndWrite(false);
        r := Returned(n, None);
      } else if expired {
        n := EndWrite(true);
        r := Returned(n, Some(Deadline));
      } else if dataForWriting == [] {
        n := EndWrite(false);
        r := Returned(n, None);
      } else if finalError.Some? {
        n := EndWrite(false);
        newlyCompleted := FlagError();
        r := Returned(n, Some(Final(finalError.value)));
      } else {
        r := Waits;
      }
    }

    /** Write returns; it took all but what is left of its argument. */
    method EndWrite(drop: bool) returns (n: nat)
      requires Valid() && writing.Some? && (drop || dataForWriting == [] || finalError.Some?)
      modifies `dataForWriting, `writing
      ensures Valid() && writing.None?
      ensures n == |call.argument| - |old(dataForWriting)| && Accepted() == call.before + call.argument[..n]
    {
      Took(Accepted(), dataForWriting, call.before, call.argument);
      n := writing.value - |dataForWriting|;
      writing := None;
      if drop {
        dataForWriting := [];
      }
    }

    /** Copies the rest of the data into the next frame. */
    method Buffer()
      requires Valid() && writing.Some? && |dataForWriting| > 0
      modifies `dataForWriting, `nextFrame
      ensures Valid() && dataForWriting == [] && Accepted() == call.before + call.argument
      ensures old(Accepted()) <= Accepted()
    {
      var chunk := if nextFrame.None? then Chunk(writeOffset, dataForWriting)
                   else Chunk(nextFrame.value.chunk.offset, nextFrame.value.chunk.data + dataForWriting);
      nextFrame := Some(StreamFrame(chunk, false));
      assert Accepted() == old(Accepted()) + dataForWriting;
      dataForWriting := [];
      assert Accepted() + [] == Accepted();
    }

    method Close() returns (cancelledBefore: bool, newlyCompleted: bool)
      requires Valid()
      modifies `finishedWriting, `cancellationFlagged, `completed
      ensures Valid() && completed == (old(completed) || newlyCompleted)
      ensures finishedWriting || closedForShutdown
      ensures cancelledBefore <==> cancelled && !closedForShutdown && !old(finishedWriting)
    {
      cancelledBefore, newlyCompleted := false, false;
      if !closedForShutdown && !finishedWriting {
        finishedWriting := true;
        cancelledBefore := cancelled;
        newlyCompleted := FlagError();
      }
    }

    /** CancelWrite, and a STOP_SENDING frame (remote). The RESET_STREAM frame carries the number
        of bytes sent; nothing is retransmitted from now on. */
    method CancelWrite(code: nat, remote: bool) returns (newlyCompleted: bool)
      requires Valid()
      modifies `cancellationFlagged, `completed, `cancelled, `finalError, `numOutstandingFrames, `retransmissionQueue
      modifies `queuedReset
      ensures Valid() && completed == (old(completed) || newlyCompleted)
      ensures cancelled || closedForShutdown
      ensures cancelled && !old(cancelled) ==>
                queuedReset == Some(ResetStream(|ledger.sent|, code)) && finalError == Some(Cancelled(code, remote))
    {
      newlyCompleted := false;
      if !closedForShutdown {
        cancellationFlagged := cancellationFlagged || !remote;
        if !cancelled {
          Cancel(code, remote);
        } else if !remote {
          newlyCompleted := IsNewlyCompleted();
        }
      }
    }

    method Cancel(code: nat, remote: bool)
      requires Valid() && !cancelled
      modifies `cancelled, `finalError, `numOutstandingFrames, `retransmissionQueue, `queuedReset
      ensures Valid() && cancelled && queuedReset == Some(ResetStream(|ledger.sent|, code))
      ensures finalError == Some(Cancelled(code, remote))
    {
      cancelled, finalError := true, Some(Cancelled(code, remote));
      numOutstandingFrames, retransmissionQueue, queuedReset := 0, [], Some(ResetStream(writeOffset, code));
    }

    /** From now on Write fails, unless the stream was finished before. */
    method CloseForShutdown()
      requires Valid()
      modifies `closedForShutdown, `finalError
      ensures Valid() && closedForShutdown && (finalError.Some? || finishedWriting)
      ensures finalError == if old(finalError).None? && !finishedWriting then Some(Shutdown) else old(finalError)
    {
      closedForShutdown := true;
      if finalError.None? && !finishedWriting {
        finalError := Some(Shutdown);
      }
    }

    method UpdateSendWindow(limit: nat)
      requires Valid() && limit <= MAX_BYTE_COUNT
      modifies `flow
      ensures Valid() && flow == old(flow).(sendWindow := Max(old(flow.sendWindow), limit))
    {
      flow := flow.UpdateSendWindow(limit);
    }

    // --- acknowledgements and losses

    /** A STREAM frame under way was acknowledged. The counter cannot become negative. */
    method OnAcked(f: StreamFrame, ghost i: nat) returns (newlyCompleted: bool)
      requires Valid() && i < |ledger.outstanding| && ledger.outstanding[i] == f
      modifies `ledger, `numOutstandingFrames, `completed
      ensures Valid() && completed == (old(completed) || newlyCompleted)
      ensures ledger == old(ledger).(outstanding := Removed(old(ledger.outstanding), i),
                                     acked := old(ledger.acked) + if cancelled then [] else [f])
    {
      newlyCompleted := false;
      if cancelled {
        ledger := ledger.(outstanding := Removed(ledger.outstanding, i));
      } else {
        ConservesAck(ledger.sent, finSent, ledger.acked, ledger.outstanding, retransmissionQueue, i);
        ledger := ledger.(acked := ledger.acked + [f], outstanding := Removed(ledger.outstanding, i));
        numOutstandingFrames := numOutstandingFrames - 1;
        assert numOutstandingFrames >= 0;
        newlyCompleted := IsNewlyCompleted();
      }
    }

    /** A STREAM frame under way was lost: it is queued for retransmission. */
    method OnLost(f: StreamFrame, ghost i: nat)
      requires Valid() && i < |ledger.outstanding| && ledger.outstanding[i] == f
      modifies `retransmissionQueue, `ledger, `numOutstandingFrames
      ensures Valid()
      ensures ledger == old(ledger).(outstanding := Removed(old(ledger.outstanding), i))
      ensures retransmissionQueue == old(retransmissionQueue) + if cancelled then [] else [f]
    {
      if cancelled {
        ledger := ledger.(outstanding := Removed(ledger.outstanding, i));
      } else {
        ConservesLoss(ledger.sent, finSent, ledger.acked, ledger.outstanding, retransmissionQueue, i);
        retransmissionQueue := retransmissionQueue + [f];
        ledger := ledger.(outstanding := Removed(ledger.outstanding, i));
        numOutstandingFrames := numOutstandingFrames - 1;
        assert numOutstandingFrames >= 0;
      }
    }

    /** The RESET_STREAM frame, if it is to be sent. */
    method GetControlFrame() returns (f: Option<ResetStream>)
      requires Valid()
      modifies `queuedReset, `numOutstandingFrames, `ledger
      ensures Valid() && f == old(queuedReset) && queuedReset.None?
      ensures ledger == old(ledger).(resets := old(ledger.resets) + if f.Some? then 1 else 0)
    {
      f := queuedReset;
      if f.Some? {
        numOutstandingFrames, queuedReset := numOutstandingFrames + 1, None;
        ledger := ledger.(resets := ledger.resets + 1);
      }
    }

    method OnResetAcked() returns (newlyCompleted: bool)
      requires Valid() && ledger.resets > 0
      modifies `numOutstandingFrames, `ledger, `completed
      ensures Valid() && completed == (old(completed) || newlyCompleted)
      ensures ledger == old(ledger).(resets := old(ledger.resets) - 1, resetsAcked := old(ledger.resetsAcked) + 1)
    {
      numOutstandingFrames := numOutstandingFrames - 1;
      ledger := ledger.(resets := ledger.resets - 1, resetsAcked := ledger.resetsAcked + 1);
      assert numOutstandingFrames >= 0;
      newlyCompleted := IsNewlyCompleted();
    }

    method OnResetLost(f: ResetStream)
      requires Valid() && ledger.resets > 0 && f.finalSize == |ledger.sent|
      modifies `queuedReset, `numOutstandingFrames, `ledger
      ensures Valid()
      ensures queuedReset == Some(f) && ledger == old(ledger).(resets := old(ledger.resets) - 1)
    {
      queuedReset, numOutstandingFrames := Some(f), numOutstandingFrames - 1;
      ledger := ledger.(resets := ledger.resets - 1);
    }

    // --- sending

    /** The bytes that wait to be sent for the first time. */
    ghost function Pending(): seq<Byte>
      reads this
    {
      Buffered(nextFrame) + dataForWriting
    }

    /** What flow control lets the stream send now. */
    function Credit(): nat
      reads this, conn
    {
      Min(flow.SendWindowSize(), conn.flow.SendWindowSize())
    }

    /** The data of the next new frame, from the buffered frame or else from the data of Write,
        and what is left of both; no data if not one byte fits. */
    method NewData(maxBytes: int, sendWindow: nat) returns (data: seq<Byte>, rest: Option<StreamFrame>, left: seq<Byte>,
                   hasMore: bool)
      requires Valid() && maxBytes <= MAX_POP && Pending() != [] && 0 < sendWindow <= flow.SendWindowSize()
      ensures NewDataFrom(data, rest, left) && |data| <= sendWindow
      ensures |data| > 0 ==> HeaderLen(id, writeOffset) + Len(|data|) + |data| <= maxBytes
      ensures |data| == 0 ==> hasMore && maxBytes < MIN_FRAME_SIZE
      ensures !hasMore ==> rest.None? && left == []
    {
      var maxDataLen := Min(sendWindow, MaxDataLen(id, writeOffset, maxBytes));
      rest, left := nextFrame, dataForWriting;
      if nextFrame.Some? && maxDataLen == 0 {
        return [], rest, left, true;
      }
      if nextFrame.Some? {
        var buffered := nextFrame.value.chunk.data;
        var n := Min(maxDataLen, |buffered|);
        data := buffered[..n];
        rest := if n < |buffered| then Some(StreamFrame(Chunk(writeOffset + n, buffered[n..]), false)) else None;
        hasMore := rest.Some? || dataForWriting != [];
      } else {
        var n := Min(maxDataLen, |dataForWriting|);
        data, left := dataForWriting[..n], dataForWriting[n..];
        hasMore := left != [] || finishedWriting;
      }
      MaxDataLenFits(id, writeOffset, |data|, maxBytes);
    }

    /** data is the front of what waits; rest and left are what remains. */
    ghost predicate NewDataFrom(data: seq<Byte>, rest: Option<StreamFrame>, left: seq<Byte>)
      reads this
    {
      && data + Buffered(rest) + left == Pending()
      && (rest.Some? ==>
            && rest.value.chunk.offset == writeOffset + |data| && |rest.value.chunk.data| > 0 && !rest.value.fin)
      && |left| <= |dataForWriting|
    }

    /** Sends data in a new frame, with the FIN if nothing else is to come. */
    method SendNew(data: seq<Byte>, rest: Option<StreamFrame>, left: seq<Byte>) returns (f: StreamFrame)
      requires Valid() && finalError.None? && !cancelled && !finSent && NewDataFrom(data, rest, left)
      requires conn.flow.Valid() && |data| <= Min(flow.SendWindowSize(), conn.flow.SendWindowSize())
      requires data != [] || (finishedWriting && rest.None? && left == [])
      modifies `nextFrame, `dataForWriting, `finSent, `writeOffset, `flow, `numOutstandingFrames, `ledger, conn
      ensures Valid() && conn.flow.Valid()
      ensures f == StreamFrame(Chunk(|old(ledger.sent)|, data), finSent) && ValidFrame(f)
      ensures ledger == Sent(old(ledger), f)
      ensures finSent == (finishedWriting && rest.None? && left == []) && nextFrame == rest && dataForWriting == left
      ensures flow == Spent(old(flow), |data|) && conn.flow == Spent(old(conn.flow), |data|)
      ensures Stream() == old(Stream())
    {
      f := StreamFrame(Chunk(writeOffset, data), finishedWriting && left == [] && rest.None?);
      FramesSend(retransmissionQueue, numOutstandingFrames, f.fin, ledger, f);
      KeepsWrite(writing, call, ledger.sent, nextFrame, dataForWriting, finalError, data, rest, left);
      Record(f, rest, left);
      conn.flow := Spent(conn.flow, |data|);
    }

    method Record(f: StreamFrame, rest: Option<StreamFrame>, left: seq<Byte>)
      requires var n := |f.chunk.data|;
               ValidData(id, Spent(flow, n), writeOffset + n, ledger.sent + f.chunk.data, rest, f.fin,
                         finishedWriting, left)
      requires ValidWrite(writing, call, (ledger.sent + f.chunk.data) + Buffered(rest), left, finalError)
      requires ValidFrames(cancelled, finalError, retransmissionQueue, numOutstandingFrames + 1,
                           queuedReset, f.fin, Sent(ledger, f))
      requires completed ==> cancelled
      modifies `nextFrame, `dataForWriting, `finSent, `writeOffset, `flow, `numOutstandingFrames, `ledger
      ensures Valid() && ledger == Sent(old(ledger), f)
      ensures finSent == f.fin && nextFrame == rest && dataForWriting == left
      ensures flow == Spent(old(flow), |f.chunk.data|)
    {
      Advance(rest, left, |f.chunk.data|);
      Note(f);
    }

    /** What waits to be sent, and the offsets, after n bytes were taken. */
    method Advance(rest: Option<StreamFrame>, left: seq<Byte>, n: nat)
      modifies `nextFrame, `dataForWriting, `writeOffset, `flow
      ensures nextFrame == rest && dataForWriting == left && writeOffset == old(writeOffset) + n
      ensures flow == Spent(old(flow), n)
    {
      nextFrame, dataForWriting, writeOffset, flow := rest, left, writeOffset + n, Spent(flow, n);
    }

    /** A new frame is under way. */
    method Note(f: StreamFrame)
      modifies `finSent, `numOutstandingFrames, `ledger
      ensures finSent == f.fin && numOutstandingFrames == old(numOutstandingFrames) + 1
      ensures ledger == Sent(old(ledger), f)
    {
      finSent, numOutstandingFrames := f.fin, numOutstandingFrames + 1;
      ledger := Sent(ledger, f);
    }

    /** The first frame queued for retransmission, or as much of it as fits. */
    method Retransmit(maxBytes: int) returns (f: Option<StreamFrame>)
      requires Valid() && finalError.None? && !cancelled && |retransmissionQueue| > 0 && maxBytes <= MAX_POP
      modifies `retransmissionQueue, `numOutstandingFrames, `ledger
      ensures Valid()
      ensures f.None? ==> ledger == old(ledger) && retransmissionQueue == old(retransmissionQueue)
      ensures f.Some? ==>
                ledger == Resent(old(ledger), f.value)
                  && TookFront(old(retransmissionQueue), f.value, retransmissionQueue)
      ensures f.Some? ==> ValidFrame(f.value) && Length(id, f.value, true) <= maxBytes
      ensures f.None? ==> maxBytes < MIN_FRAME_SIZE
      ensures Stream() == old(Stream())
    {
      var first := retransmissionQueue[0];
      assert Good(first, |ledger.sent|);
      match MaybeSplit(id, first, maxBytes) {
        case Fits =>
          f := Some(first);
          ConservesRetransmit(ledger.sent, finSent, ledger.acked, ledger.outstanding, retransmissionQueue);
          retransmissionQueue := retransmissionQueue[1..];
        case Split(head, rest) =>
          f := Some(head);
          ConservesSplit(ledger.sent, finSent, ledger.acked, ledger.outstanding, retransmissionQueue, head, rest);
          retransmissionQueue := [rest] + retransmissionQueue[1..];
        case TooSmall =>
          return None;
      }
      numOutstandingFrames := numOutstandingFrames + 1;
      ledger := Resent(ledger, f.value);
    }

    /** All bytes handed to Write that were or will be sent. */
    ghost function Stream(): seq<Byte>
      reads this
    {
      ledger.sent + Buffered(nextFrame) + dataForWriting
    }

    /** The FIN in a frame of its own, if it is due. */
    method PopFin() returns (f: Option<StreamFrame>)
      requires Valid() && finalError.None? && !cancelled && Pending() == [] && conn.flow.Valid()
      modifies `nextFrame, `dataForWriting, `finSent, `writeOffset, `flow, `numOutstandingFrames, `ledger, conn
      ensures Valid() && conn.flow == old(conn.flow) && Stream() == old(Stream()) && Pending() == []
      ensures (finishedWriting ==> finSent)
      ensures f.None? ==> ledger == old(ledger)
      ensures f.Some? ==>
                ledger == Sent(old(ledger), f.value) && f.value == StreamFrame(Chunk(|ledger.sent|, []), true)
                  && ValidFrame(f.value)
    {
      f := None;
      if finishedWriting && !finSent {
        var fin := SendNew([], None, []);
        f := Some(fin);
      }
    }

    /** STREAM_DATA_BLOCKED, if the frame just sent used up the window of the stream. */
    method MarkBlocked() returns (blocked: Option<nat>)
      requires Valid() && flow.Within()
      modifies `flow
      ensures Valid() && flow.Within() && Stream() == old(Stream()) && Pending() == old(Pending())
      ensures blocked.Some? ==>
                old(flow.lastBlockedAt) < blocked.value == flow.lastBlockedAt == flow.sendWindow == |ledger.sent|
    {
      blocked := None;
      if flow.NewlyBlocked() {
        flow := flow.(lastBlockedAt := flow.sendWindow);
        blocked := Some(writeOffset);
      }
    }

    /** New data, within both flow-control windows. */
    method PopData(maxBytes: int) returns (f: Option<StreamFrame>, blocked: Option<nat>, hasMore: bool)
      requires Valid() && finalError.None? && !cancelled && Pending() != [] && maxBytes <= MAX_POP && conn.flow.Valid()
      modifies `nextFrame, `dataForWriting, `finSent, `writeOffset, `flow, `numOutstandingFrames, `ledger, conn
      ensures Valid() && conn.flow.Valid() && Stream() == old(Stream())
      ensures f.None? ==> ledger == old(ledger) && conn.flow == old(conn.flow) && blocked.None? && hasMore
      ensures f.None? ==> maxBytes < MIN_FRAME_SIZE || Credit() == 0
      ensures f.Some? ==>
                ledger == Sent(old(ledger), f.value) && conn.flow == Spent(old(conn.flow), |f.value.chunk.data|)
      ensures f.Some? ==> flow.Within() && conn.flow.Within()
      ensures f.Some? ==>
                f.value.chunk.offset == |old(ledger.sent)| && ValidFrame(f.value)
                  && Length(id, f.value, true) <= maxBytes
      ensures blocked.Some? ==>
                old(flow.lastBlockedAt) < blocked.value == flow.lastBlockedAt == flow.sendWindow == |ledger.sent|
      ensures !hasMore ==> Pending() == [] && (finishedWriting ==> finSent)
    {
      f, blocked, hasMore := None, None, true;
      var sendWindow := Credit();
      if sendWindow > 0 {
        var data, rest, left;
        data, rest, left, hasMore := NewData(maxBytes, sendWindow);
        if data != [] {
          var frame := SendNew(data, rest, left);
          f := Some(frame);
          if |data| == sendWindow {
            blocked := MarkBlocked();
          }
        }
      }
    }

    /** New data, or else the FIN. */
    method PopNew(maxBytes: int) returns (f: Option<StreamFrame>, blocked: Option<nat>, hasMore: bool)
      requires Valid() && finalError.None? && !cancelled && maxBytes <= MAX_POP && conn.flow.Valid()
      modifies `nextFrame, `dataForWriting, `finSent, `writeOffset, `flow, `numOutstandingFrames, `ledger, conn
      ensures Valid() && conn.flow.Valid() && Stream() == old(Stream())
      ensures f.None? ==> ledger == old(ledger) && conn.flow == old(conn.flow)
      ensures f.Some? ==> f.value.chunk.offset == |old(ledger).sent| && ledger == Sent(old(ledger), f.value)
                          && conn.flow == Spent(old(conn.flow), |f.value.chunk.data|)
      ensures f.Some? && |f.value.chunk.data| > 0 ==> flow.Within() && conn.flow.Within()
      ensures f.Some? ==>
                ValidFrame(f.value)
                  && Length(id, f.value, true) <= Max(maxBytes, if |f.value.chunk.data| > 0 then 0 else 18)
      ensures blocked.Some? ==>
                old(flow.lastBlockedAt) < blocked.value == flow.lastBlockedAt == flow.sendWindow == |ledger.sent|
      ensures !hasMore ==> Pending() == [] && (finishedWriting ==> finSent)
      ensures f.None? && hasMore ==> maxBytes < MIN_FRAME_SIZE || Credit() == 0
    {
      if dataForWriting == [] && nextFrame.None? {
        f := PopFin();
        blocked, hasMore := None, false;
      } else {
        f, blocked, hasMore := PopData(maxBytes);
      }
    }

    /** A popped frame is new and continues the stream, within the credit of the stream and of the
        connection, or it is the front of the retransmission queue. */
    twostate predicate Popped(f: StreamFrame)
      reads this, conn
    {
      || (f.chunk.offset == |old(ledger).sent| && ledger == Sent(old(ledger), f)
          && retransmissionQueue == old(retransmissionQueue)
          && conn.flow == Spent(old(conn.flow), |f.chunk.data|)
          && (|f.chunk.data| > 0 ==> flow.Within() && conn.flow.Within()))
      || (TookFront(old(retransmissionQueue), f, retransmissionQueue) && ledger == Resent(old(ledger), f)
         && conn.flow == old(conn.flow))
    }

    /** The next frame of at most maxBytes bytes (a FIN alone may need 18). A stream that has no
        more data has nothing left to send. */
    method PopStreamFrame(maxBytes: int) returns (f: Option<StreamFrame>, blocked: Option<nat>, hasMore: bool)
      requires Valid() && conn.flow.Valid() && maxBytes <= MAX_POP
      modifies `retransmissionQueue, `nextFrame, `dataForWriting, `finSent, `writeOffset, `flow, `numOutstandingFrames
      modifies `ledger, conn
      ensures Valid() && conn.flow.Valid() && Stream() == old(Stream())
      ensures f.None? ==>
                ledger == old(ledger) && retransmissionQueue == old(retransmissionQueue) && conn.flow == old(conn.flow)
      ensures f.Some? ==> Popped(f.value) && ValidFrame(f.value) && finalError.None?
      ensures f.Some? ==> Length(id, f.value, true) <= Max(maxBytes, if |f.value.chunk.data| > 0 then 0 else 18)
      ensures blocked.Some? ==>
                old(flow.lastBlockedAt) < blocked.value == flow.lastBlockedAt == flow.sendWindow == |ledger.sent|
      ensures !hasMore && finalError.None? ==> Idle()
      ensures f.None? ==>
                || finalError.Some? || Idle() || maxBytes < MIN_FRAME_SIZE
                || (Credit() == 0 && retransmissionQueue == [])
    {
      f, blocked, hasMore := None, None, false;
      if finalError.None? {
        if |retransmissionQueue| > 0 {
          f := Retransmit(maxBytes);
          hasMore := true;
        } else {
          f, blocked, hasMore := PopNew(maxBytes);
        }
      }
    }
  }
}
