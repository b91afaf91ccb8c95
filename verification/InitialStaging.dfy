/** Staging of an Initial packet: frames are taken from copies of the crypto stream and the
    retransmission queue, laid out, and the copies are committed only if the packet fits
    (u_packet_packer.go, with packet_packer.go, retransmission_queue.go, crypto_stream.go and
    internal/wire/crypto_frame.go). */
module InitialStaging {
  import opened Chunks
  import opened Protocol
  import opened Varint
  import L = InitialLayout

  /** The largest budget for which a split CRYPTO frame has a length of at most two bytes. */
  const MAX_PACKET_SIZE := MAX_VARINT_2

  type CryptoFrame = Chunk

  /** A frame of a payload: CRYPTO, or a control frame that is kept as its bytes. */
  datatype Frame = Crypto(crypto: CryptoFrame) | Control(bytes: seq<Byte>)

  datatype Stream = Stream(writeOffset: nat, writeBuf: seq<Byte>)

  datatype Queue = Queue(initial: seq<seq<Byte>>, crypto: seq<CryptoFrame>)

  lemma {:induction false} CountPermuted(a: seq<CryptoFrame>, b: seq<CryptoFrame>, x: int, v: Byte)
    requires multiset(a) == multiset(b)
    ensures ChunkCount(a, x, v) == ChunkCount(b, x, v)
    decreases |a|
  {
    if |a| == 0 {
      assert |b| == |multiset(b)| == 0;
    } else {
      var k := L.RemoveFirst(a, b);
      CountPermuted(a[1..], b[..k] + b[k + 1..], x, v);
      CountConcat(b[..k], [a[0]] + b[k + 1..], x, v);
      CountConcat(b[..k], b[k + 1..], x, v);
      assert ([a[0]] + b[k + 1..])[1..] == b[k + 1..];
    }
  }

  // ----- contiguous frames

  /** The frames follow one another from offset off on. */
  ghost predicate Contiguous(fs: seq<CryptoFrame>, off: int)
    decreases |fs|
  {
    |fs| > 0 ==> fs[0].offset == off && Contiguous(fs[1..], off + |fs[0].data|)
  }

  /** Their data, reassembled. */
  function Reassembled(fs: seq<CryptoFrame>): seq<Byte> {
    if |fs| == 0 then [] else fs[0].data + Reassembled(fs[1..])
  }

  lemma {:induction false} ContiguousCount(fs: seq<CryptoFrame>, off: int, x: int, v: Byte)
    requires Contiguous(fs, off)
    ensures ChunkCount(fs, x, v) == ByteCount(off, Reassembled(fs), x, v)
    decreases |fs|
  {
    if |fs| > 0 {
      ContiguousCount(fs[1..], off + |fs[0].data|, x, v);
    }
  }

  lemma {:induction false} ContiguousConcat(a: seq<CryptoFrame>, b: seq<CryptoFrame>, off: int)
    ensures Reassembled(a + b) == Reassembled(a) + Reassembled(b)
    ensures Contiguous(a + b, off) <==> Contiguous(a, off) && Contiguous(b, off + |Reassembled(a)|)
    decreases |a|
  {
    if |a| == 0 {
      assert a + b == b;
    } else {
      assert (a + b)[1..] == a[1..] + b;
      ContiguousConcat(a[1..], b, off + |a[0].data|);
      assert a[0].data + (Reassembled(a[1..]) + Reassembled(b)) == (a[0].data + Reassembled(a[1..])) + Reassembled(b);
    }
  }

  /** Frames that can be queued: not empty, and within the offsets a varint holds. */
  ghost predicate Queueable(f: CryptoFrame) {
    0 < |f.data| && f.offset + |f.data| <= MAX_VARINT
  }

  ghost predicate AllQueueable(fs: seq<CryptoFrame>) {
    forall i :: 0 <= i < |fs| ==> Queueable(fs[i])
  }

  // ----- CRYPTO frames on the wire

  function CryptoLength(f: CryptoFrame): nat
    requires f.offset <= MAX_VARINT && |f.data| <= MAX_VARINT
  {
    1 + Len(f.offset) + Len(|f.data|) + |f.data|
  }

  /** How much data fits into maxSize bytes; assumes a length of one or two bytes. */
  function MaxDataLen(offset: nat, maxSize: int): nat
    requires offset <= MAX_VARINT && maxSize <= MAX_PACKET_SIZE
  {
    var headerLen := 1 + Len(offset) + 1;
    if headerLen > maxSize then 0
    else
      var m := maxSize - headerLen;
      if Len(m) != 1 then m - 1 else m
  }

  datatype SplitResult = Fits | TooSmall | Split(head: CryptoFrame, rest: CryptoFrame)

  /** A frame that is too long leaves a rest, and its head fits. */
  lemma MaxDataLenFits(offset: nat, n: nat, maxSize: int)
    requires offset + n <= MAX_VARINT && maxSize <= MAX_PACKET_SIZE
    ensures 1 + Len(offset) + Len(n) + n > maxSize ==> MaxDataLen(offset, maxSize) < n || n == 0
    ensures MaxDataLen(offset, maxSize) > 0 && offset + MaxDataLen(offset, maxSize) <= MAX_VARINT ==>
              var m := MaxDataLen(offset, maxSize); 1 + Len(offset) + Len(m) + m <= maxSize
  {
  }

  function MaybeSplit(f: CryptoFrame, maxSize: int): (r: SplitResult)
    requires Queueable(f) && maxSize <= MAX_PACKET_SIZE
    ensures r.Fits? ==> CryptoLength(f) <= maxSize
    ensures r.Split? ==> Queueable(r.head) && Queueable(r.rest) && CryptoLength(r.head) <= maxSize
    ensures r.Split? ==> r.head.offset == f.offset && r.rest.offset == f.offset + |r.head.data|
                         && f.data == r.head.data + r.rest.data
  {
    if CryptoLength(f) <= maxSize then Fits
    else
      var n := MaxDataLen(f.offset, maxSize);
      MaxDataLenFits(f.offset, |f.data|, maxSize);
      if n == 0 then TooSmall
      else Split(Chunk(f.offset, f.data[..n]), Chunk(f.offset + n, f.data[n..]))
  }

  // ----- taking frames from the staged copies

  ghost predicate ValidQueue(q: Queue) {
    AllQueueable(q.crypto) && forall i :: 0 <= i < |q.initial| ==> |q.initial[i]| > 0
  }

  ghost predicate ValidStream(s: Stream) {
    s.writeOffset + |s.writeBuf| <= MAX_VARINT
  }

  /** The offset after the last byte written to the stream. */
  ghost function StreamEnd(s: Stream): nat {
    s.writeOffset + |s.writeBuf|
  }

  predicate HasInitialData(q: Queue) {
    |q.crypto| > 0 || |q.initial| > 0
  }

  /** The next frame that fits into maxLen bytes, CRYPTO first. */
  function GetInitialFrame(q: Queue, maxLen: int): (r: (Option<Frame>, Queue))
    requires ValidQueue(q) && maxLen <= MAX_PACKET_SIZE
    ensures ValidQueue(r.1)
  {
    var split := if |q.crypto| > 0 then MaybeSplit(q.crypto[0], maxLen) else TooSmall;
    match split
    case Fits => (Some(Crypto(q.crypto[0])), q.(crypto := q.crypto[1..]))
    case Split(head, rest) => (Some(Crypto(head)), q.(crypto := [rest] + q.crypto[1..]))
    case TooSmall =>
      if |q.initial| == 0 || |q.initial[0]| > maxLen then (None, q)
      else (Some(Control(q.initial[0])), q.(initial := q.initial[1..]))
  }

  /** In so many bytes fits at least one byte of CRYPTO data. */
  const MIN_ROOM := 11

  /** No frame of the queue fits: there is no room for a byte, or the first control frame is too long. */
  ghost predicate Stuck(q: Queue, budget: int) {
    budget < MIN_ROOM || (q.crypto == [] && (q.initial == [] || |q.initial[0]| > budget))
  }

  lemma NoneIfStuck(q: Queue, maxLen: int)
    requires ValidQueue(q) && maxLen <= MAX_PACKET_SIZE && GetInitialFrame(q, maxLen).0.None?
    ensures Stuck(q, maxLen)
  {
    if |q.crypto| > 0 {
      assert Queueable(q.crypto[0]);
    }
  }

  function CryptoPart(fs: seq<Frame>): seq<CryptoFrame> {
    if |fs| == 0 then []
    else CryptoPart(fs[..|fs| - 1]) + (if fs[|fs| - 1].Crypto? then [fs[|fs| - 1].crypto] else [])
  }

  function ControlPart(fs: seq<Frame>): seq<seq<Byte>> {
    if |fs| == 0 then []
    else ControlPart(fs[..|fs| - 1]) + (if fs[|fs| - 1].Control? then [fs[|fs| - 1].bytes] else [])
  }

  ghost predicate ValidFrames(fs: seq<Frame>) {
    forall i :: 0 <= i < |fs| ==> ValidFrame(fs[i])
  }

  ghost predicate ValidFrame(f: Frame) {
    if f.Crypto? then f.crypto.offset + |f.crypto.data| <= MAX_VARINT else |f.bytes| > 0
  }

  function FrameLength(f: Frame): nat
    requires ValidFrame(f)
  {
    if f.Crypto? then CryptoLength(f.crypto) else |f.bytes|
  }

  function FramesLength(fs: seq<Frame>): nat
    requires ValidFrames(fs)
  {
    if |fs| == 0 then 0 else FramesLength(fs[..|fs| - 1]) + FrameLength(fs[|fs| - 1])
  }

  /** The bytes of `whole`, each at its offset, are those of a and b together. */
  ghost predicate Shared(whole: seq<CryptoFrame>, a: seq<CryptoFrame>, b: seq<CryptoFrame>) {
    forall x: int, v: Byte :: ChunkCount(a, x, v) + ChunkCount(b, x, v) == ChunkCount(whole, x, v)
  }

  /** Frames taken so far and the rest of the queue hold what the queue held, and the CRYPTO
      frames taken and left follow one another from offset off on. */
  ghost predicate Taken(before: Queue, frames: seq<Frame>, q: Queue, off: int) {
    && ValidQueue(q) && ValidFrames(frames) && AllQueueable(CryptoPart(frames))
    && ControlPart(frames) + q.initial == before.initial
    && Contiguous(CryptoPart(frames), off)
    && Contiguous(q.crypto, off + |Reassembled(CryptoPart(frames))|)
    && Shared(before.crypto, CryptoPart(frames), q.crypto)
  }

  lemma TakeControl(before: Queue, frames: seq<Frame>, q: Queue, off: int)
    requires Taken(before, frames, q, off) && |q.initial| > 0
    ensures Taken(before, frames + [Control(q.initial[0])], q.(initial := q.initial[1..]), off)
  {
    var gs := frames + [Control(q.initial[0])];
    assert gs[..|gs| - 1] == frames;
    assert CryptoPart(gs) == CryptoPart(frames);
    assert ControlPart(gs) + q.initial[1..] == ControlPart(frames) + q.initial;
  }

  /** Taking f off the front of the queue, whole or split. */
  lemma TakeCrypto(before: Queue, frames: seq<Frame>, q: Queue, off: int, f: CryptoFrame, rest: seq<CryptoFrame>)
    requires Taken(before, frames, q, off) && |q.crypto| > 0 && Queueable(f) && AllQueueable(rest)
    requires TookFront(q.crypto, f, rest)
    ensures Taken(before, frames + [Crypto(f)], q.(crypto := rest), off)
  {
    var a := CryptoPart(frames);
    PartsAppend(frames, f);
    FrontContiguous(q.crypto, f, rest, off + |Reassembled(a)|);
    AppendContiguous(a, f, off);
    FrontShared(before.crypto, a, q.crypto, f, rest);
  }

  lemma PartsAppend(frames: seq<Frame>, f: CryptoFrame)
    ensures CryptoPart(frames + [Crypto(f)]) == CryptoPart(frames) + [f]
    ensures ControlPart(frames + [Crypto(f)]) == ControlPart(frames)
  {
    var gs := frames + [Crypto(f)];
    assert gs[..|gs| - 1] == frames;
  }

  lemma FrontShared(whole: seq<CryptoFrame>, a: seq<CryptoFrame>, b: seq<CryptoFrame>, f: CryptoFrame,
                    rest: seq<CryptoFrame>)
    requires Shared(whole, a, b) && |b| > 0 && TookFront(b, f, rest)
    ensures Shared(whole, a + [f], rest)
  {
    forall x: int, v: Byte ensures ChunkCount(a + [f], x, v) + ChunkCount(rest, x, v) == ChunkCount(whole, x, v) {
      CountConcat(a, [f], x, v);
      FrontCount(b, f, rest, x, v);
      assert ChunkCount(a, x, v) + ChunkCount(b, x, v) == ChunkCount(whole, x, v);
    }
  }

  /** f is the first frame of b, or its head, and rest is what remains. */
  ghost predicate TookFront(b: seq<CryptoFrame>, f: CryptoFrame, rest: seq<CryptoFrame>)
    requires |b| > 0
  {
    (f == b[0] && rest == b[1..]) ||
    (|rest| > 0 && rest[1..] == b[1..] && f.offset == b[0].offset
     && rest[0].offset == f.offset + |f.data| && b[0].data == f.data + rest[0].data)
  }

  lemma AppendContiguous(a: seq<CryptoFrame>, f: CryptoFrame, off: int)
    requires Contiguous(a, off) && f.offset == off + |Reassembled(a)|
    ensures Contiguous(a + [f], off) && Reassembled(a + [f]) == Reassembled(a) + f.data
  {
    ContiguousConcat(a, [f], off);
    assert [f][1..] == [];
    assert Reassembled([f]) == f.data;
  }

  lemma FrontContiguous(b: seq<CryptoFrame>, f: CryptoFrame, rest: seq<CryptoFrame>, off: int)
    requires |b| > 0 && TookFront(b, f, rest) && Contiguous(b, off)
    ensures f.offset == off && Contiguous(rest, off + |f.data|)
  {
  }

  lemma FrontCount(b: seq<CryptoFrame>, f: CryptoFrame, rest: seq<CryptoFrame>, x: int, v: Byte)
    requires |b| > 0 && TookFront(b, f, rest)
    ensures ChunkCount([f], x, v) + ChunkCount(rest, x, v) == ChunkCount(b, x, v)
  {
    assert [f][1..] == [];
  }

  /** Takes frames while they fit, on a copy of the queue. */
  method TakeRetransmissions(q0: Queue, maxSize: int, ghost off: int) returns (frames: seq<Frame>, q: Queue)
    requires ValidQueue(q0) && Contiguous(q0.crypto, off) && maxSize <= MAX_PACKET_SIZE
    ensures Taken(q0, frames, q, off)
    ensures FramesLength(frames) <= Max(maxSize, 0) && (frames == [] ==> Stuck(q0, maxSize))
  {
    frames, q := [], q0;
    var budget, more := maxSize, true;
    NoneTaken(q0, off);
    while more
      invariant Taken(q0, frames, q, off) && budget <= MAX_PACKET_SIZE
      invariant budget == maxSize - FramesLength(frames) && (frames == [] || budget >= 0)
      invariant frames == [] ==> q == q0 && (more || Stuck(q0, maxSize))
      decreases more, Size(q)
    {
      frames, q, budget, more := TakeNext(q0, frames, q, off, budget);
    }
  }

  lemma NoneTaken(q: Queue, off: int)
    requires ValidQueue(q) && Contiguous(q.crypto, off)
    ensures Taken(q, [], q, off)
  {
    assert ControlPart([]) + q.initial == q.initial;
  }

  ghost function Size(q: Queue): nat {
    |Reassembled(q.crypto)| + |q.crypto| + |q.initial|
  }

  /** Takes one more frame if one fits. */
  method TakeNext(ghost before: Queue, taken: seq<Frame>, q0: Queue, ghost off: int, budget0: int)
    returns (frames: seq<Frame>, q: Queue, budget: int, more: bool)
    requires Taken(before, taken, q0, off) && budget0 <= MAX_PACKET_SIZE
    ensures Taken(before, frames, q, off) && budget == budget0 + FramesLength(taken) - FramesLength(frames)
    ensures more ==> frames != [] && 0 <= budget <= MAX_PACKET_SIZE && Size(q) < Size(q0)
    ensures !more ==> frames == taken && q == q0 && Stuck(q0, budget0)
  {
    var (f, rest) := GetInitialFrame(q0, budget0);
    frames, q, budget, more := taken, q0, budget0, f.Some?;
    if more {
      Take(before, taken, q0, off, budget0);
      frames, q, budget := taken + [f.value], rest, budget0 - FrameLength(f.value);
    } else {
      NoneIfStuck(q0, budget0);
    }
  }

  lemma Take(before: Queue, frames: seq<Frame>, q: Queue, off: int, maxLen: int)
    requires Taken(before, frames, q, off) && maxLen <= MAX_PACKET_SIZE && GetInitialFrame(q, maxLen).0.Some?
    ensures var (f, rest) := GetInitialFrame(q, maxLen);
            && Taken(before, frames + [f.value], rest, off)
            && (frames + [f.value])[..|frames|] == frames
            && FrameLength(f.value) <= maxLen
            && Size(rest) < Size(q)
  {
    var (f, rest) := GetInitialFrame(q, maxLen);
    if f.value.Control? {
      TakeControl(before, frames, q, off);
    } else {
      TakeCrypto(before, frames, q, off, f.value.crypto, rest.crypto);
    }
  }

  ghost predicate SortedByOffset(fs: seq<CryptoFrame>) {
    forall i, j :: 0 <= i < j < |fs| ==> fs[i].offset <= fs[j].offset
  }

  method InsertByOffset(fs: seq<CryptoFrame>, f: CryptoFrame) returns (r: seq<CryptoFrame>)
    requires SortedByOffset(fs)
    ensures SortedByOffset(r) && multiset(r) == multiset(fs) + multiset{f}
  {
    var k := |fs|;
    while k > 0 && fs[k - 1].offset > f.offset
      invariant 0 <= k <= |fs| && forall j :: k <= j < |fs| ==> f.offset < fs[j].offset
    {
      k := k - 1;
    }
    InsertedSorted(fs, f, k);
    InsertedMultiset(fs, f, k);
    r := fs[..k] + ([f] + fs[k..]);
  }

  lemma InsertedSorted(fs: seq<CryptoFrame>, f: CryptoFrame, k: nat)
    requires SortedByOffset(fs) && k <= |fs|
    requires k > 0 ==> fs[k - 1].offset <= f.offset
    requires forall j :: k <= j < |fs| ==> f.offset < fs[j].offset
    ensures SortedByOffset(fs[..k] + ([f] + fs[k..]))
  {
    var r := fs[..k] + ([f] + fs[k..]);
    forall i, j | 0 <= i < j < |r| ensures r[i].offset <= r[j].offset {
      assert r[i] == if i < k then fs[i] else if i == k then f else fs[i - 1];
      assert r[j] == if j < k then fs[j] else if j == k then f else fs[j - 1];
      if i < k {
        assert i == k - 1 || fs[i].offset <= fs[k - 1].offset;
      }
    }
  }

  lemma InsertedMultiset(fs: seq<CryptoFrame>, f: CryptoFrame, k: nat)
    requires k <= |fs|
    ensures multiset(fs[..k] + ([f] + fs[k..])) == multiset(fs) + multiset{f}
  {
    assert multiset([f] + fs[k..]) == multiset{f} + multiset(fs[k..]);
    assert fs == fs[..k] + fs[k..];
    assert multiset(fs) == multiset(fs[..k]) + multiset(fs[k..]);
  }

  /** A permutation sorted by offset. */
  method SortByOffset(fs: seq<CryptoFrame>) returns (r: seq<CryptoFrame>)
    ensures multiset(r) == multiset(fs) && SortedByOffset(r)
  {
    r := [];
    for i := 0 to |fs|
      invariant multiset(r) == multiset(fs[..i]) && SortedByOffset(r)
    {
      assert fs[..i + 1] == fs[..i] + [fs[i]];
      r := InsertByOffset(r, fs[i]);
    }
    assert fs[..|fs|] == fs;
  }

  /** How many frames from the front follow one another. */
  method RunLength(fs: seq<CryptoFrame>) returns (count: nat)
    requires |fs| > 0
    ensures 1 <= count <= |fs| && Contiguous(fs[..count], fs[0].offset)
    ensures count < |fs| ==> fs[count].offset != fs[0].offset + |Reassembled(fs[..count])|
  {
    var end := fs[0].offset + |fs[0].data|;
    count := 1;
    assert fs[..1] == [fs[0]] && [fs[0]][1..] == [];
    assert Reassembled(fs[..1]) == fs[0].data;
    while count < |fs| && fs[count].offset == end
      invariant 1 <= count <= |fs| && Contiguous(fs[..count], fs[0].offset)
      invariant end == fs[0].offset + |Reassembled(fs[..count])|
    {
      AppendContiguous(fs[..count], fs[count], fs[0].offset);
      assert fs[..count + 1] == fs[..count] + [fs[count]];
      end := end + |fs[count].data|;
      count := count + 1;
    }
  }

  /** Splits the queued CRYPTO frames into a contiguous run and the rest, which waits. */
  method FirstRun(crypto: seq<CryptoFrame>) returns (run: seq<CryptoFrame>, deferred: seq<CryptoFrame>, ghost off: int)
    requires AllQueueable(crypto)
    ensures Contiguous(run, off) && AllQueueable(run) && AllQueueable(deferred)
    ensures Shared(crypto, run, deferred)
    ensures |crypto| > 0 ==> |run| > 0
  {
    run, deferred, off := crypto, [], 0;
    if |crypto| > 0 {
      off := crypto[0].offset;
    }
    if |crypto| > 1 {
      var sorted := SortByOffset(crypto);
      PermutedQueueable(crypto, sorted);
      assert |sorted| == |multiset(sorted)| == |multiset(crypto)|;
      var count := RunLength(sorted);
      run, deferred, off := sorted[..count], sorted[count..], sorted[0].offset;
      assert sorted == run + deferred;
      forall x: int, v: Byte ensures ChunkCount(run, x, v) + ChunkCount(deferred, x, v) == ChunkCount(crypto, x, v) {
        CountConcat(run, deferred, x, v);
        CountPermuted(sorted, crypto, x, v);
      }
    }
  }

  lemma PermutedQueueable(a: seq<CryptoFrame>, b: seq<CryptoFrame>)
    requires multiset(a) == multiset(b) && AllQueueable(a)
    ensures AllQueueable(b)
  {
    forall i | 0 <= i < |b| ensures Queueable(b[i]) {
      assert b[i] in multiset(a);
    }
  }

  // ----- laying the frames out

  datatype Builder = Default | Random(spec: L.RandomFrames)

  function Flatten(bs: seq<seq<Byte>>): seq<Byte> {
    if |bs| == 0 then [] else bs[0] + Flatten(bs[1..])
  }

  /** The layout frames that the default builder uses: one per CRYPTO frame. */
  function Specs(fs: seq<CryptoFrame>): (r: seq<L.LayoutFrame>)
    ensures |r| == |fs| && forall i :: 0 <= i < |fs| ==> r[i] == L.Crypto(fs[i].offset, |fs[i].data|)
  {
    seq(|fs|, i requires 0 <= i < |fs| => L.Crypto(fs[i].offset, |fs[i].data|))
  }

  /** The boundaries of contiguous frames. */
  ghost function Bounds(fs: seq<CryptoFrame>, off: int): (b: seq<int>)
    ensures |b| == |fs| + 1 && b[|fs|] == off + |Reassembled(fs)| && forall i :: 0 <= i < |fs| ==> b[i] == fs[i].offset
  {
    seq(|fs|, i requires 0 <= i < |fs| => fs[i].offset) + [off + |Reassembled(fs)|]
  }

  lemma {:induction false} OffsetAt(fs: seq<CryptoFrame>, off: int, i: nat)
    requires Contiguous(fs, off) && i < |fs|
    ensures off <= fs[i].offset && fs[i].offset + |fs[i].data| <= off + |Reassembled(fs)|
    ensures fs[i].offset + |fs[i].data| == if i + 1 < |fs| then fs[i + 1].offset else off + |Reassembled(fs)|
    decreases i
  {
    if i > 0 {
      OffsetAt(fs[1..], off + |fs[0].data|, i - 1);
    } else {
      assert |fs| > 1 ==> fs[1..][0] == fs[1];
    }
  }

  lemma ContiguousCuts(fs: seq<CryptoFrame>, off: nat)
    requires Contiguous(fs, off) && AllQueueable(fs) && |fs| > 0
    ensures off + |Reassembled(fs)| <= MAX_VARINT
    ensures L.Cuts(Bounds(fs, off), off, |Reassembled(fs)|)
    ensures L.Represents(Specs(fs), Bounds(fs, off), off, |Reassembled(fs)|)
  {
    var b, n := Bounds(fs, off), |Reassembled(fs)|;
    OffsetAt(fs, off, |fs| - 1);
    forall i | 0 <= i < |fs| ensures L.CutAt(b, off, n, i) && L.PieceAt(Specs(fs), b, off, n, i) {
      OffsetAt(fs, off, i);
      assert Queueable(fs[i]);
    }
  }

  /** The bytes that CRYPTO frames take. */
  ghost function CryptoSum(fs: seq<CryptoFrame>): nat
    requires AllQueueable(fs)
  {
    if |fs| == 0 then 0
    else
      assert Queueable(fs[0]);
      CryptoLength(fs[0]) + CryptoSum(fs[1..])
  }

  lemma {:induction false} CryptoSumAppend(fs: seq<CryptoFrame>, f: CryptoFrame)
    requires AllQueueable(fs) && Queueable(f)
    ensures CryptoSum(fs + [f]) == CryptoSum(fs) + CryptoLength(f)
  {
    if |fs| > 0 {
      assert (fs + [f])[1..] == fs[1..] + [f];
      CryptoSumAppend(fs[1..], f);
    }
  }

  lemma {:induction false} FlattenAppend(bs: seq<seq<Byte>>, b: seq<Byte>)
    ensures |Flatten(bs + [b])| == |Flatten(bs)| + |b|
  {
    if |bs| > 0 {
      assert (bs + [b])[1..] == bs[1..] + [b];
      FlattenAppend(bs[1..], b);
    }
  }

  /** Frames take as much as their control bytes and their CRYPTO frames. */
  lemma {:induction false} LengthParts(frames: seq<Frame>)
    requires ValidFrames(frames) && AllQueueable(CryptoPart(frames))
    ensures FramesLength(frames) == |Flatten(ControlPart(frames))| + CryptoSum(CryptoPart(frames))
  {
    if |frames| > 0 {
      var rest, f := frames[..|frames| - 1], frames[|frames| - 1];
      assert forall i :: 0 <= i < |CryptoPart(rest)| ==> CryptoPart(rest)[i] == CryptoPart(frames)[i];
      LengthParts(rest);
      if f.Crypto? {
        assert ControlPart(frames) == ControlPart(rest);
        assert CryptoPart(frames)[|CryptoPart(rest)|] == f.crypto;
        CryptoSumAppend(CryptoPart(rest), f.crypto);
      } else {
        assert CryptoPart(frames) == CryptoPart(rest);
        FlattenAppend(ControlPart(rest), f.bytes);
      }
    }
  }

  /** The plain layout takes as much as the frames it was made from. */
  lemma {:induction false} PlainLength(fs: seq<CryptoFrame>, off: nat, i: nat)
    requires Contiguous(fs, off) && AllQueueable(fs) && i <= |fs|
    ensures L.Headers(Bounds(fs, off), i) + (off + |Reassembled(fs)| - Bounds(fs, off)[i]) == CryptoSum(fs[i..])
    decreases |fs| - i
  {
    if i < |fs| {
      PlainLength(fs, off, i + 1);
      OffsetAt(fs, off, i);
      assert fs[i..][1..] == fs[i + 1..] && Queueable(fs[i]);
    }
  }

  /** What a layout must hold: nothing if no byte is sent, else tiles of the bytes sent. */
  ghost predicate Carries(layout: seq<Byte>, base: nat, sent: seq<Byte>) {
    (layout == [] && sent == []) || exists b :: L.CarriesTiles(layout, b, base, sent)
  }

  datatype Laid = NoLayout | Laid(layout: seq<Byte>, consumed: nat)

  /** A layout of fs in `available` bytes. */
  ghost predicate LaysOut(fs: seq<CryptoFrame>, layout: seq<Byte>, consumed: nat, available: int)
    requires |fs| > 0
  {
    && consumed <= |Reassembled(fs)| && |layout| <= available
    && Carries(layout, fs[0].offset, Reassembled(fs)[..consumed])
  }

  method LayPlain(fs: seq<CryptoFrame>, available: int) returns (r: Laid)
    requires |fs| > 0 && Contiguous(fs, fs[0].offset) && AllQueueable(fs)
    ensures r.Laid? ==> LaysOut(fs, r.layout, r.consumed, available) && r.consumed == |Reassembled(fs)|
    ensures r.NoLayout? <==> CryptoSum(fs) > available
  {
    var base, data := fs[0].offset, Reassembled(fs);
    ContiguousCuts(fs, base);
    var layout := L.BuildPlain(Specs(fs), Bounds(fs, base), base, data);
    PlainLength(fs, base, 0);
    assert data[..|data|] == data && fs[0..] == fs;
    r := if |layout| > available then NoLayout else Laid(layout, |data|);
  }

  method LayRandom(fs: seq<CryptoFrame>, spec: L.RandomFrames, available: nat, mayDefer: bool) returns (r: Laid)
    requires |fs| > 0 && Contiguous(fs, fs[0].offset) && AllQueueable(fs)
    ensures r.Laid? ==> LaysOut(fs, r.layout, r.consumed, available) && (mayDefer || r.consumed > 0)
    ensures r.NoLayout? ==> !L.ValidBounds(spec) || (!mayDefer && available < L.Room(spec))
    ensures r.Laid? && r.consumed == 0 ==> available < L.Room(spec)
  {
    var base, data := fs[0].offset, Reassembled(fs);
    ContiguousCuts(fs, base);
    assert Queueable(fs[0]);
    assert |data| >= |fs[0].data| > 0;
    var built, pings, b, caps := L.BuildAtWithLimit(spec, data, base, available);
    match built {
      case Built(payload, consumed) => r := Laid(payload, consumed);
      case OverBudget => r := if mayDefer then Laid([], 0) else NoLayout;
      case BadBounds => r := NoLayout;
    }
  }

  ghost predicate BadBuilder(builder: Builder) {
    builder.Random? && !L.ValidBounds(builder.spec)
  }

  /** A random layout may find no room for a byte. */
  ghost predicate Crowded(builder: Builder, available: int) {
    builder.Random? && available < L.Room(builder.spec)
  }

  /** Lays out contiguous CRYPTO frames in `available` bytes; `mayDefer` says that control
      frames can go alone. */
  method LayCrypto(fs: seq<CryptoFrame>, builder: Builder, available: int, mayDefer: bool) returns (r: Laid)
    requires |fs| > 0 && Contiguous(fs, fs[0].offset) && AllQueueable(fs)
    ensures r.Laid? ==> LaysOut(fs, r.layout, r.consumed, available) && (mayDefer || r.consumed > 0)
    ensures r.NoLayout? ==>
              CryptoSum(fs) > available || BadBuilder(builder) || (!mayDefer && Crowded(builder, available))
    ensures r.Laid? && r.consumed == 0 ==> Crowded(builder, available)
  {
    if available < 0 {
      return NoLayout;
    }
    assert Queueable(fs[0]);
    match builder {
      case Default => r := LayPlain(fs, available);
      case Random(spec) => r := LayRandom(fs, spec, available, mayDefer);
    }
  }

  // ----- recording what was sent

  /** The part of frame f that lies below end, and the part from end on. */
  function Head(f: CryptoFrame, end: int): (r: CryptoFrame) {
    Chunk(f.offset, f.data[..Min(Max(0, end - f.offset), |f.data|)])
  }

  function Tail(f: CryptoFrame, end: int): (r: CryptoFrame) {
    var kept := Min(Max(0, end - f.offset), |f.data|);
    Chunk(f.offset + kept, f.data[kept..])
  }

  /** A frame without data is left out. */
  function AddFrame(fs: seq<CryptoFrame>, f: CryptoFrame): seq<CryptoFrame> {
    if |f.data| > 0 then fs + [f] else fs
  }

  /** The bytes below end went to `kept`, the others to `unsent`. */
  ghost predicate CutAtEnd(fs: seq<CryptoFrame>, kept: seq<CryptoFrame>, unsent: seq<CryptoFrame>, end: int) {
    forall x: int, v: Byte :: CountCut(fs, kept, unsent, end, x, v)
  }

  ghost predicate CountCut(fs: seq<CryptoFrame>, kept: seq<CryptoFrame>, unsent: seq<CryptoFrame>, end: int, x: int,
                           v: Byte)
  {
    && ChunkCount(kept, x, v) == (if x < end then ChunkCount(fs, x, v) else 0)
    && ChunkCount(unsent, x, v) == (if x < end then 0 else ChunkCount(fs, x, v))
  }

  lemma AddChunkCount(fs: seq<CryptoFrame>, f: CryptoFrame, x: int, v: Byte)
    ensures ChunkCount(AddFrame(fs, f), x, v) == ChunkCount(fs, x, v) + ByteCount(f.offset, f.data, x, v)
  {
    CountConcat(fs, [f], x, v);
    assert [f][1..] == [];
  }

  lemma CutFrame(fs: seq<CryptoFrame>, kept: seq<CryptoFrame>, unsent: seq<CryptoFrame>, end: int, f: CryptoFrame)
    requires CutAtEnd(fs, kept, unsent, end) && |f.data| > 0
    ensures CutAtEnd(fs + [f], AddFrame(kept, Head(f, end)), AddFrame(unsent, Tail(f, end)), end)
  {
    forall x: int, v: Byte
      ensures CountCut(fs + [f], AddFrame(kept, Head(f, end)), AddFrame(unsent, Tail(f, end)), end, x, v)
    {
      AddChunkCount(fs, f, x, v);
      AddChunkCount(kept, Head(f, end), x, v);
      AddChunkCount(unsent, Tail(f, end), x, v);
      assert CountCut(fs, kept, unsent, end, x, v);
    }
  }

  lemma {:induction false} PartQueueable(frames: seq<Frame>, i: nat)
    requires i < |frames| && AllQueueable(CryptoPart(frames)) && frames[i].Crypto?
    ensures Queueable(frames[i].crypto)
    decreases |frames|
  {
    var n := |frames| - 1;
    var a := CryptoPart(frames[..n]);
    assert forall k :: 0 <= k < |a| ==> CryptoPart(frames)[k] == a[k];
    if i < n {
      PartQueueable(frames[..n], i);
    } else {
      assert CryptoPart(frames)[|a|] == frames[i].crypto;
    }
  }

  /** Where the settled frames stand after a prefix of the frames. */
  ghost predicate Settled(frames: seq<Frame>, recorded: seq<Frame>, unsent: seq<CryptoFrame>, end: int) {
    && ValidFrames(recorded) && AllQueueable(CryptoPart(recorded)) && AllQueueable(unsent)
    && ControlPart(recorded) == ControlPart(frames)
    && CutAtEnd(CryptoPart(frames), CryptoPart(recorded), unsent, end)
  }

  lemma SettleControl(frames: seq<Frame>, recorded: seq<Frame>, unsent: seq<CryptoFrame>, end: int, f: Frame)
    requires Settled(frames, recorded, unsent, end) && f.Control? && |f.bytes| > 0
    ensures Settled(frames + [f], recorded + [f], unsent, end)
  {
    assert (frames + [f])[..|frames|] == frames && (recorded + [f])[..|recorded|] == recorded;
    assert CryptoPart(frames + [f]) == CryptoPart(frames) && CryptoPart(recorded + [f]) == CryptoPart(recorded);
  }

  function AddRecorded(recorded: seq<Frame>, f: CryptoFrame): seq<Frame> {
    if |f.data| > 0 then recorded + [Crypto(f)] else recorded
  }

  lemma RecordedParts(recorded: seq<Frame>, f: CryptoFrame)
    requires ValidFrames(recorded) && f.offset + |f.data| <= MAX_VARINT
    ensures ValidFrames(AddRecorded(recorded, f))
    ensures CryptoPart(AddRecorded(recorded, f)) == AddFrame(CryptoPart(recorded), f)
    ensures ControlPart(AddRecorded(recorded, f)) == ControlPart(recorded)
  {
    assert (recorded + [Crypto(f)])[..|recorded|] == recorded;
  }

  lemma AddQueueable(fs: seq<CryptoFrame>, f: CryptoFrame)
    requires AllQueueable(fs) && f.offset + |f.data| <= MAX_VARINT
    ensures AllQueueable(AddFrame(fs, f))
  {
  }

  lemma SettleCrypto(frames: seq<Frame>, recorded: seq<Frame>, unsent: seq<CryptoFrame>, end: int, f: CryptoFrame)
    requires Settled(frames, recorded, unsent, end) && Queueable(f)
    ensures Settled(frames + [Crypto(f)], AddRecorded(recorded, Head(f, end)), AddFrame(unsent, Tail(f, end)), end)
  {
    CutFrame(CryptoPart(frames), CryptoPart(recorded), unsent, end, f);
    var head, tail := Head(f, end), Tail(f, end);
    assert (frames + [Crypto(f)])[..|frames|] == frames;
    assert CryptoPart(frames + [Crypto(f)]) == CryptoPart(frames) + [f];
    RecordedParts(recorded, head);
    AddQueueable(CryptoPart(recorded), head);
    AddQueueable(unsent, tail);
  }

  /** Cuts the frames at cryptoEnd: what lies below is recorded, the rest is unsent. */
  method Settle(frames: seq<Frame>, cryptoEnd: int) returns (recorded: seq<Frame>, unsent: seq<CryptoFrame>)
    requires ValidFrames(frames) && AllQueueable(CryptoPart(frames))
    ensures Settled(frames, recorded, unsent, cryptoEnd)
  {
    recorded, unsent := [], [];
    for i := 0 to |frames|
      invariant Settled(frames[..i], recorded, unsent, cryptoEnd)
    {
      assert frames[..i + 1] == frames[..i] + [frames[i]];
      assert ValidFrame(frames[i]);
      if frames[i].Control? {
        SettleControl(frames[..i], recorded, unsent, cryptoEnd, frames[i]);
        recorded := recorded + [frames[i]];
      } else {
        var crypto := frames[i].crypto;
        PartQueueable(frames, i);
        SettleCrypto(frames[..i], recorded, unsent, cryptoEnd, crypto);
        unsent := AddFrame(unsent, Tail(crypto, cryptoEnd));
        recorded := AddRecorded(recorded, Head(crypto, cryptoEnd));
      }
    }
    assert frames[..|frames|] == frames;
  }

  // ----- one packet

  /** How often byte v at offset x waits in the stream or in the queue. */
  ghost function Held(s: Stream, q: Queue, x: int, v: Byte): nat {
    ByteCount(s.writeOffset, s.writeBuf, x, v) + ChunkCount(q.crypto, x, v)
  }

  /** Every CRYPTO byte held before is held after, or is in the frames taken, as often as before. */
  ghost predicate Conserved(s0: Stream, q0: Queue, s: Stream, q: Queue, frames: seq<Frame>) {
    && ControlPart(frames) + q.initial == q0.initial
    && forall x: int, v: Byte :: ChunkCount(CryptoPart(frames), x, v) + Held(s, q, x, v) == Held(s0, q0, x, v)
  }

  lemma SentCounts(s0: Stream, q0: Queue, s: Stream, q: Queue, frames: seq<Frame>, fs: seq<CryptoFrame>, x: int,
                   v: Byte)
    requires Conserved(s0, q0, s, q, frames)
    ensures ChunkCount(fs + CryptoPart(frames), x, v) + Held(s, q, x, v) == ChunkCount(fs, x, v) + Held(s0, q0, x, v)
  {
    CountConcat(fs, CryptoPart(frames), x, v);
  }

  /** Takes one frame off the stream; the frame is empty if not even its header fits. */
  function PopCryptoFrame(s: Stream, maxLen: int): (r: (CryptoFrame, Stream))
    requires ValidStream(s) && maxLen <= MAX_PACKET_SIZE
    ensures ValidStream(r.1) && r.0.offset == s.writeOffset && r.0.data + r.1.writeBuf == s.writeBuf
    ensures r.1.writeOffset == s.writeOffset + |r.0.data|
    ensures |r.0.data| > 0 ==> CryptoLength(r.0) <= maxLen
  {
    var n := Min(MaxDataLen(s.writeOffset, maxLen), |s.writeBuf|);
    (Chunk(s.writeOffset, s.writeBuf[..n]), Stream(s.writeOffset + n, s.writeBuf[n..]))
  }

  /** The staged copies: the frames taken, and what is left of the stream and the queue. */
  datatype Staged = Staged(frames: seq<Frame>, stream: Stream, queue: Queue, deferred: seq<CryptoFrame>)

  ghost predicate ValidStage(s: Stream, q: Queue, t: Staged, budget: int) {
    && ValidFrames(t.frames) && AllQueueable(CryptoPart(t.frames))
    && (exists off :: Contiguous(CryptoPart(t.frames), off))
    && ValidStream(t.stream) && ValidQueue(t.queue) && AllQueueable(t.deferred)
    && Conserved(s, q, t.stream, Rest(t), t.frames)
    && FramesLength(t.frames) <= Max(budget, 0)
  }

  /** The queue once the deferred frames are back at its end. */
  function Rest(t: Staged): Queue {
    t.queue.(crypto := t.queue.crypto + t.deferred)
  }

  method StageQueue(s: Stream, q: Queue, budget: int) returns (t: Staged)
    requires ValidStream(s) && ValidQueue(q) && budget <= MAX_PACKET_SIZE
    ensures ValidStage(s, q, t, budget) && t.stream == s && (t.frames == [] ==> Stuck(q, budget))
  {
    var run, deferred, off := FirstRun(q.crypto);
    var q1 := q.(crypto := run);
    var frames, rest := TakeRetransmissions(q1, budget, off);
    t := Staged(frames, s, rest, deferred);
    forall x: int, v: Byte ensures ChunkCount(CryptoPart(frames), x, v) + Held(s, Rest(t), x, v) == Held(s, q, x, v) {
      CountConcat(rest.crypto, deferred, x, v);
      assert ChunkCount(run, x, v) + ChunkCount(deferred, x, v) == ChunkCount(q.crypto, x, v);
      assert ChunkCount(CryptoPart(frames), x, v) + ChunkCount(rest.crypto, x, v) == ChunkCount(run, x, v);
    }
  }

  lemma SingleFrame(f: CryptoFrame)
    ensures CryptoPart([Crypto(f)]) == [f] && ControlPart([Crypto(f)]) == []
    ensures Contiguous([f], f.offset) && Reassembled([f]) == f.data
    ensures Queueable(f) ==> ValidFrames([Crypto(f)]) && FramesLength([Crypto(f)]) == CryptoLength(f)
    ensures forall x: int, v: Byte :: ChunkCount([f], x, v) == ByteCount(f.offset, f.data, x, v)
  {
    assert [f][1..] == [] && [Crypto(f)][..0] == [];
  }

  /** One frame was popped off the stream, and the queue is untouched. */
  ghost predicate FromStream(s: Stream, q: Queue, t: Staged, budget: int)
    requires ValidStream(s) && budget <= MAX_PACKET_SIZE
  {
    var (f, rest) := PopCryptoFrame(s, budget);
    t == Staged([Crypto(f)], rest, q, [])
  }

  lemma FitsBeside(frames: seq<Frame>, budget: int)
    requires ValidFrames(frames) && frames != [] && FramesLength(frames) <= Max(budget, 0)
    ensures 0 < FramesLength(frames) <= budget
  {
    assert ValidFrame(frames[|frames| - 1]);
  }

  lemma NothingStaged(s: Stream, q: Queue, budget: int)
    requires ValidStream(s) && ValidQueue(q)
    ensures ValidStage(s, q, Staged([], s, q, []), budget)
  {
    assert q.crypto + [] == q.crypto;
    assert Contiguous([], 0);
  }

  method StageStream(s: Stream, q: Queue, budget: int) returns (t: Staged)
    requires ValidStream(s) && ValidQueue(q) && budget <= MAX_PACKET_SIZE && !HasInitialData(q)
    ensures ValidStage(s, q, t, budget)
    ensures t.frames == [] || (FromStream(s, q, t, budget) && s.writeBuf != [])
    ensures t.frames == [] ==> s.writeBuf == [] || budget < MIN_ROOM
  {
    var (f, rest) := PopCryptoFrame(s, budget);
    if |f.data| == 0 {
      NothingStaged(s, q, budget);
      return Staged([], s, q, []);
    }
    OneStaged(s, q, budget);
    t := Staged([Crypto(f)], rest, q, []);
  }

  lemma OneStaged(s: Stream, q: Queue, budget: int)
    requires ValidStream(s) && ValidQueue(q) && budget <= MAX_PACKET_SIZE && PopCryptoFrame(s, budget).0.data != []
    ensures var (f, rest) := PopCryptoFrame(s, budget);
            ValidStage(s, q, Staged([Crypto(f)], rest, q, []), budget)
  {
    SingleFrame(PopCryptoFrame(s, budget).0);
    assert q.crypto + [] == q.crypto;
  }

  datatype Marshalled = Unfit | Marshalled(data: seq<Byte>, cryptoEnd: int)

  /** The layout and the sent bytes that a marshalled payload stands for. */
  ghost predicate Lays(frames: seq<Frame>, layout: seq<Byte>, base: nat, sent: seq<Byte>, cryptoEnd: int) {
    && Carries(layout, base, sent)
    && |sent| <= |Reassembled(CryptoPart(frames))| && sent == Reassembled(CryptoPart(frames))[..|sent|]
    && (if CryptoPart(frames) == [] then layout == [] && sent == []
        else base == CryptoPart(frames)[0].offset && cryptoEnd == base + |sent|)
  }

  /** The ACK and the control frames first, then the layout of the CRYPTO data. */
  method Marshal(frames: seq<Frame>, ack: seq<Byte>, available: int, builder: Builder)
    returns (r: Marshalled, ghost layout: seq<Byte>, ghost base: nat, ghost sent: seq<Byte>)
    requires ValidFrames(frames) && AllQueueable(CryptoPart(frames))
    requires exists off :: Contiguous(CryptoPart(frames), off)
    ensures r.Marshalled? ==> |r.data| <= available && Lays(frames, layout, base, sent, r.cryptoEnd)
    ensures r.Marshalled? ==> r.data == ack + Flatten(ControlPart(frames)) + layout
    ensures r.Marshalled? && ack == [] && ControlPart(frames) == [] && CryptoPart(frames) != [] ==> sent != []
    ensures r.Unfit? ==>
              || |ack| + FramesLength(frames) > available || BadBuilder(builder)
              || (ack == [] && Crowded(builder, available))
    ensures r.Marshalled? && sent == [] && CryptoPart(frames) != [] ==>
              Crowded(builder, available - |ack| - |Flatten(ControlPart(frames))|)
  {
    LengthParts(frames);
    var preserved, crypto := ack + Flatten(ControlPart(frames)), CryptoPart(frames);
    layout, base, sent := [], 0, [];
    if |crypto| == 0 {
      r := if |preserved| > available then Unfit else Marshalled(preserved, 0);
      assert preserved + [] == preserved;
      return;
    }
    base := crypto[0].offset;
    var laid := LayCrypto(crypto, builder, available - |preserved|, |preserved| > 0);
    match laid {
      case NoLayout => r := Unfit;
      case Laid(encoded, consumed) =>
        layout, sent := encoded, Reassembled(crypto)[..consumed];
        r := Marshalled(preserved + encoded, crypto[0].offset + consumed);
    }
  }

  lemma SentCount(fs: seq<CryptoFrame>, kept: seq<CryptoFrame>, unsent: seq<CryptoFrame>, base: nat, sent: seq<Byte>,
                  x: int, v: Byte)
    requires |fs| > 0 && Contiguous(fs, base) && sent <= Reassembled(fs)
    requires CountCut(fs, kept, unsent, base + |sent|, x, v)
    ensures ChunkCount(kept, x, v) == ByteCount(base, sent, x, v)
  {
    ContiguousCount(fs, base, x, v);
  }

  /** The recorded frames hold the bytes that were sent. */
  lemma RecordedSent(frames: seq<Frame>, recorded: seq<Frame>, unsent: seq<CryptoFrame>, layout: seq<Byte>,
                     base: nat, sent: seq<Byte>, end: int)
    requires Settled(frames, recorded, unsent, end) && Lays(frames, layout, base, sent, end)
    requires exists off :: Contiguous(CryptoPart(frames), off)
    ensures forall x: int, v: Byte :: ChunkCount(CryptoPart(recorded), x, v) == ByteCount(base, sent, x, v)
  {
    var fs, kept := CryptoPart(frames), CryptoPart(recorded);
    forall x: int, v: Byte ensures ChunkCount(kept, x, v) == ByteCount(base, sent, x, v) {
      assert CountCut(fs, kept, unsent, end, x, v);
      if |fs| > 0 {
        SentCount(fs, kept, unsent, base, sent, x, v);
      }
    }
  }

  lemma {:induction false} PartSizes(frames: seq<Frame>)
    ensures |CryptoPart(frames)| + |ControlPart(frames)| == |frames|
  {
    if |frames| > 0 {
      PartSizes(frames[..|frames| - 1]);
    }
  }

  /** Without frames recorded, nothing was sent. */
  lemma NothingRecorded(frames: seq<Frame>, unsent: seq<CryptoFrame>, layout: seq<Byte>, base: nat, sent: seq<Byte>,
                        end: int)
    requires Settled(frames, [], unsent, end) && Lays(frames, layout, base, sent, end) && frames != []
    requires exists off :: Contiguous(CryptoPart(frames), off)
    ensures sent == [] && ControlPart(frames) == [] && CryptoPart(frames) != []
  {
    RecordedSent(frames, [], unsent, layout, base, sent, end);
    PartSizes(frames);
    var v: Byte := if sent != [] then sent[0] else 0;
    assert ChunkCount(CryptoPart([]), base, v) == ByteCount(base, sent, base, v);
  }

  lemma CommitQueue(s: Stream, q: Queue, t: Staged, budget: int, recorded: seq<Frame>, unsent: seq<CryptoFrame>,
                    end: int)
    requires ValidStage(s, q, t, budget) && Settled(t.frames, recorded, unsent, end)
    ensures Conserved(s, q, t.stream, Queue(t.queue.initial, unsent + (t.queue.crypto + t.deferred)), recorded)
  {
    var rest := t.queue.crypto + t.deferred;
    var q1 := Queue(t.queue.initial, unsent + rest);
    forall x: int, v: Byte
      ensures ChunkCount(CryptoPart(recorded), x, v) + Held(t.stream, q1, x, v) == Held(s, q, x, v)
    {
      assert CountCut(CryptoPart(t.frames), CryptoPart(recorded), unsent, end, x, v);
      CountConcat(unsent, rest, x, v);
      assert ChunkCount(CryptoPart(t.frames), x, v) + Held(t.stream, Rest(t), x, v) == Held(s, q, x, v);
    }
  }

  /** The stream keeps what was not sent, from the first byte that was not sent on. */
  method CommitStream(s: Stream, q: Queue, t: Staged, ghost budget: int, end: int)
    returns (recorded: seq<Frame>, stream: Stream, ghost unsent: seq<CryptoFrame>)
    requires ValidStream(s) && budget <= MAX_PACKET_SIZE && ValidStage(s, q, t, budget) && FromStream(s, q, t, budget)
    ensures Settled(t.frames, recorded, unsent, end)
    ensures ValidStream(stream) && Conserved(s, q, stream, t.queue, recorded) && StreamEnd(stream) == StreamEnd(s)
  {
    var f := t.frames[0].crypto;
    SingleFrame(f);
    assert Queueable(CryptoPart(t.frames)[0]);
    var head, tail := Head(f, end), Tail(f, end);
    recorded, unsent := Settle(t.frames, end);
    stream := if |tail.data| > 0 then Stream(tail.offset, s.writeBuf[|head.data|..]) else t.stream;
    forall x: int, v: Byte
      ensures ChunkCount(CryptoPart(recorded), x, v) + Held(stream, t.queue, x, v) == Held(s, q, x, v)
    {
      assert CountCut(CryptoPart(t.frames), CryptoPart(recorded), unsent, end, x, v);
      assert t.queue.crypto + [] == t.queue.crypto;
      assert ChunkCount(CryptoPart(t.frames), x, v) + Held(t.stream, Rest(t), x, v) == Held(s, q, x, v);
    }
  }

  /** `Failed` returns an error and sends nothing; a packet may hold frames but leave its
      payload to be laid out later. */
  datatype Prepared = Failed | Prepared(frames: seq<Frame>, data: Option<seq<Byte>>, length: nat)

  /** What does not change while a packet is prepared: sizes, the ACK, and the chosen builder. */
  datatype Plan = Plan(maxSize: int, overhead: nat, onlyAck: bool, ack: Option<seq<Byte>>,
                       hdrLen: nat, pnLen: nat, minDatagram: int, builder: Builder) {
    function Ack(): seq<Byte> {
      if ack.Some? then ack.value else []
    }

    function Available(): int {
      maxSize - overhead - hdrLen
    }
  }

  /** Little room is left beside the ACK: for a byte of CRYPTO data, for the control frame at the front
      of the queue, or for what the random builder may draw around a byte. */
  ghost predicate Tight(p: Plan, q: Queue) {
    var budget := p.Available() - |p.Ack()|;
    || budget < MIN_ROOM
    || (q.crypto == [] && q.initial != [] && |q.initial[0]| > budget)
    || Crowded(p.builder, budget)
  }

  /** The only reasons for an error. */
  ghost predicate MayFail(p: Plan, q: Queue) {
    if p.onlyAck then |p.Ack()| > p.Available()
    else p.minDatagram > p.maxSize || Tight(p, q) || BadBuilder(p.builder)
  }

  /** A payload that was laid out: the ACK and the control frames, the CRYPTO layout, padding
      up to four bytes with the packet number; it fits, and it carries the recorded bytes. */
  ghost predicate Payload(p: Plan, frames: seq<Frame>, data: seq<Byte>, layout: seq<Byte>, base: nat, sent: seq<Byte>) {
    && Carries(layout, base, sent)
    && (forall x: int, v: Byte :: ChunkCount(CryptoPart(frames), x, v) == ByteCount(base, sent, x, v))
    && Padded(p.Ack() + Flatten(ControlPart(frames)) + layout, p.pnLen, data)
    && p.hdrLen + |data| + p.overhead <= p.maxSize
  }

  /** Header protection needs four bytes of packet number and payload. */
  ghost predicate Padded(data: seq<Byte>, pnLen: nat, padded: seq<Byte>) {
    && |padded| + pnLen >= 4
    && exists n: nat :: padded == data + Zeros(n) && (n > 0 ==> |padded| + pnLen == 4)
  }

  method PadShort(data: seq<Byte>, pnLen: nat) returns (padded: seq<Byte>)
    ensures Padded(data, pnLen, padded)
  {
    padded := data;
    ghost var n := 0;
    assert data == data + Zeros(0);
    while |padded| + pnLen < 4
      invariant padded == data + Zeros(n) && (n > 0 ==> |padded| + pnLen <= 4)
    {
      assert Zeros(n + 1) == Zeros(n) + [0];
      padded, n := padded + [0], n + 1;
    }
  }

  /** The payload of the staged frames: it fits, and it lays out their bytes below cryptoEnd. */
  ghost predicate Rendered(p: Plan, frames: seq<Frame>, cryptoEnd: int, data: seq<Byte>, layout: seq<Byte>, base: nat,
                           sent: seq<Byte>)
  {
    && Lays(frames, layout, base, sent, cryptoEnd)
    && Padded(p.Ack() + Flatten(ControlPart(frames)) + layout, p.pnLen, data) && |data| <= p.Available()
  }

  /** Lays out and pads the staged frames. */
  method Render(p: Plan, frames: seq<Frame>)
    returns (r: Marshalled, ghost layout: seq<Byte>, ghost base: nat, ghost sent: seq<Byte>)
    requires ValidFrames(frames) && AllQueueable(CryptoPart(frames)) && frames != []
    requires FramesLength(frames) <= Max(p.Available() - |p.Ack()|, 0)
    requires exists off :: Contiguous(CryptoPart(frames), off)
    ensures r.Marshalled? ==> Rendered(p, frames, r.cryptoEnd, r.data, layout, base, sent)
    ensures r.Marshalled? && sent == [] && ControlPart(frames) == [] && CryptoPart(frames) != [] ==>
              p.Ack() != [] && Crowded(p.builder, p.Available() - |p.Ack()|)
    ensures r.Unfit? ==>
              || p.Available() < MIN_ROOM || BadBuilder(p.builder)
              || (p.Ack() == [] && Crowded(p.builder, p.Available()))
  {
    FitsBeside(frames, p.Available() - |p.Ack()|);
    r, layout, base, sent := Marshal(frames, p.Ack(), p.Available(), p.builder);
    if r.Marshalled? {
      var data := PadShort(r.data, p.pnLen);
      r := if |data| > p.Available() then Unfit else Marshalled(data, r.cryptoEnd);
    }
  }

  lemma SentPayload(p: Plan, frames: seq<Frame>, recorded: seq<Frame>, unsent: seq<CryptoFrame>, cryptoEnd: int,
                    data: seq<Byte>, layout: seq<Byte>, base: nat, sent: seq<Byte>)
    requires Rendered(p, frames, cryptoEnd, data, layout, base, sent)
    requires Settled(frames, recorded, unsent, cryptoEnd)
    requires exists off :: Contiguous(CryptoPart(frames), off)
    ensures Payload(p, recorded, data, layout, base, sent)
  {
    RecordedSent(frames, recorded, unsent, layout, base, sent, cryptoEnd);
  }

  /** Every byte written is in one place, once: acknowledged, under way, or held. */
  ghost predicate OncePlaced(written: seq<Byte>, acked: seq<CryptoFrame>, inFlight: seq<CryptoFrame>, s: Stream,
                             q: Queue)
  {
    forall x: int, v: Byte ::
      ChunkCount(acked, x, v) + ChunkCount(inFlight, x, v) + Held(s, q, x, v) == ByteCount(0, written, x, v)
  }

  lemma PlacedWrite(written: seq<Byte>, acked: seq<CryptoFrame>, inFlight: seq<CryptoFrame>, s: Stream, q: Queue,
                    data: seq<Byte>)
    requires OncePlaced(written, acked, inFlight, s, q) && StreamEnd(s) == |written|
    ensures OncePlaced(written + data, acked, inFlight, Stream(s.writeOffset, s.writeBuf + data), q)
  {
  }

  lemma PlacedSend(written: seq<Byte>, acked: seq<CryptoFrame>, inFlight: seq<CryptoFrame>, s0: Stream, q0: Queue,
                   s: Stream, q: Queue, frames: seq<Frame>)
    requires OncePlaced(written, acked, inFlight, s0, q0) && Conserved(s0, q0, s, q, frames)
    ensures OncePlaced(written, acked, inFlight + CryptoPart(frames), s, q)
  {
    var out := inFlight + CryptoPart(frames);
    forall x: int, v: Byte
      ensures ChunkCount(acked, x, v) + ChunkCount(out, x, v) + Held(s, q, x, v) == ByteCount(0, written, x, v)
    {
      SentCounts(s0, q0, s, q, frames, inFlight, x, v);
      assert ChunkCount(acked, x, v) + ChunkCount(inFlight, x, v) + Held(s0, q0, x, v) == ByteCount(0, written, x, v);
    }
  }

  /** Frame i under way was acknowledged, or it was lost and is queued again. */
  lemma PlacedReport(written: seq<Byte>, acked: seq<CryptoFrame>, inFlight: seq<CryptoFrame>, s: Stream, q: Queue,
                     i: nat)
    requires OncePlaced(written, acked, inFlight, s, q) && i < |inFlight|
    ensures OncePlaced(written, acked + [inFlight[i]], inFlight[..i] + inFlight[i + 1..], s, q)
    ensures OncePlaced(written, acked, inFlight[..i] + inFlight[i + 1..], s,
                       q.(crypto := q.crypto + [inFlight[i]]))
  {
    var f, out := inFlight[i], inFlight[..i] + inFlight[i + 1..];
    forall x: int, v: Byte
      ensures ChunkCount(acked + [f], x, v) + ChunkCount(out, x, v) ==
              ChunkCount(acked, x, v) + ChunkCount(inFlight, x, v)
      ensures ChunkCount(out, x, v) + ChunkCount(q.crypto + [f], x, v) ==
              ChunkCount(inFlight, x, v) + ChunkCount(q.crypto, x, v)
    {
      Without(inFlight, i, x, v);
      CountConcat(acked, [f], x, v);
      CountConcat(q.crypto, [f], x, v);
    }
    forall x: int, v: Byte
      ensures ChunkCount(acked + [f], x, v) + ChunkCount(out, x, v) + Held(s, q, x, v) == ByteCount(0, written, x, v)
    {
      assert ChunkCount(acked, x, v) + ChunkCount(inFlight, x, v) + Held(s, q, x, v) == ByteCount(0, written, x, v);
    }
    var q1 := q.(crypto := q.crypto + [f]);
    forall x: int, v: Byte
      ensures ChunkCount(acked, x, v) + ChunkCount(out, x, v) + Held(s, q1, x, v) == ByteCount(0, written, x, v)
    {
      assert ChunkCount(acked, x, v) + ChunkCount(inFlight, x, v) + Held(s, q, x, v) == ByteCount(0, written, x, v);
    }
  }

  /** The part of the packer that prepares Initial packets. */
  class InitialPacker {
    var stream: Stream
    var queue: Queue

    /** All handshake data written so far, and the frames that are under way or acknowledged. */
    ghost var written: seq<Byte>
    ghost var inFlight: seq<CryptoFrame>
    ghost var acked: seq<CryptoFrame>

    ghost predicate Valid()
      reads this
    {
      ValidStream(stream) && ValidQueue(queue)
    }

    /** Every byte written is in one place, and only once: acknowledged, under way, or held. */
    ghost predicate Accounted()
      reads this
    {
      && Valid() && AllQueueable(inFlight) && StreamEnd(stream) == |written|
      && OncePlaced(written, acked, inFlight, stream, queue)
    }

    predicate HasData()
      reads this
    {
      |stream.writeBuf| > 0 || HasInitialData(queue)
    }

    constructor ()
      ensures Accounted() && written == [] && stream == Stream(0, []) && queue == Queue([], [])
    {
      stream, queue := Stream(0, []), Queue([], []);
      written, inFlight, acked := [], [], [];
    }

    /** Handshake data to send. */
    method Write(data: seq<Byte>)
      requires Accounted() && |written| + |data| <= MAX_VARINT
      modifies this
      ensures Accounted() && queue == old(queue) && written == old(written) + data
      ensures stream == Stream(old(stream.writeOffset), old(stream.writeBuf) + data)
    {
      PlacedWrite(written, acked, inFlight, stream, queue, data);
      stream := Stream(stream.writeOffset, stream.writeBuf + data);
      written := written + data;
    }

    /** Sends one packet. */
    method Transmit(p: Plan) returns (r: Prepared)
      requires Accounted() && p.maxSize <= MAX_PACKET_SIZE
      modifies this
      ensures Accounted() && written == old(written) && acked == old(acked)
      ensures inFlight == old(inFlight) + if r.Prepared? then CryptoPart(r.frames) else []
    {
      ghost var layout, base, sent;
      r, layout, base, sent := Prepare(p);
      if r.Prepared? {
        PlacedSend(written, acked, inFlight, old(stream), old(queue), stream, queue, r.frames);
        inFlight := inFlight + CryptoPart(r.frames);
      }
    }

    /** The i-th frame under way was acknowledged. */
    ghost method OnAcked(i: nat)
      requires Accounted() && i < |inFlight|
      modifies this
      ensures Accounted() && written == old(written) && stream == old(stream) && queue == old(queue)
      ensures acked == old(acked) + [old(inFlight)[i]] && inFlight == old(inFlight)[..i] + old(inFlight)[i + 1..]
    {
      PlacedReport(written, acked, inFlight, stream, queue, i);
      acked, inFlight := acked + [inFlight[i]], inFlight[..i] + inFlight[i + 1..];
    }

    /** A frame was lost, the i-th one under way if it is a CRYPTO frame: it is queued again. */
    method OnLost(f: Frame, ghost i: nat)
      requires Accounted() && ValidFrame(f) && (f.Crypto? ==> i < |inFlight| && inFlight[i] == f.crypto)
      modifies this
      ensures Accounted() && written == old(written) && stream == old(stream) && acked == old(acked)
      ensures f.Crypto? ==>
                && queue == old(queue).(crypto := old(queue.crypto) + [f.crypto])
                && inFlight == old(inFlight)[..i] + old(inFlight)[i + 1..]
      ensures f.Control? ==>
                queue == old(queue).(initial := old(queue.initial) + [f.bytes]) && inFlight == old(inFlight)
    {
      if f.Control? {
        queue := queue.(initial := queue.initial + [f.bytes]);
        return;
      }
      assert Queueable(f.crypto);
      PlacedReport(written, acked, inFlight, stream, queue, i);
      queue := queue.(crypto := queue.crypto + [f.crypto]);
      inFlight := inFlight[..i] + inFlight[i + 1..];
    }

    /** Takes frames on copies of the stream and the queue. */
    method Stage(p: Plan) returns (t: Staged)
      requires Valid() && !p.onlyAck && p.maxSize <= MAX_PACKET_SIZE
      ensures ValidStage(stream, queue, t, p.Available() - |p.Ack()|)
      ensures HasInitialData(queue) ==> t.stream == stream
      ensures !HasInitialData(queue) ==> t.frames == [] || FromStream(stream, queue, t, p.Available() - |p.Ack()|)
      ensures t.frames != [] ==> HasData()
      ensures t.frames == [] && HasData() ==> Tight(p, queue)
    {
      if HasInitialData(queue) {
        t := StageQueue(stream, queue, p.Available() - |p.Ack()|);
      } else {
        t := StageStream(stream, queue, p.Available() - |p.Ack()|);
      }
    }

    /** Commits the staged copies; what the layout did not take stays with the stream or
        goes to the front of the queue. */
    method Commit(t: Staged, ghost budget: int, cryptoEnd: int)
      returns (recorded: seq<Frame>, ghost unsent: seq<CryptoFrame>)
      requires Valid() && budget <= MAX_PACKET_SIZE && ValidStage(stream, queue, t, budget) && t.frames != []
      requires HasInitialData(queue) ==> t.stream == stream
      requires !HasInitialData(queue) ==> FromStream(stream, queue, t, budget)
      modifies `stream, `queue
      ensures StreamEnd(stream) == old(StreamEnd(stream))
      ensures Valid() && Settled(t.frames, recorded, unsent, cryptoEnd)
      ensures Conserved(old(stream), old(queue), stream, queue, recorded)
    {
      if HasInitialData(queue) {
        var left;
        recorded, left := Settle(t.frames, cryptoEnd);
        unsent := left;
        CommitQueue(stream, queue, t, budget, recorded, left, cryptoEnd);
        queue := Queue(t.queue.initial, left + (t.queue.crypto + t.deferred));
      } else {
        recorded, stream, unsent := CommitStream(stream, queue, t, budget, cryptoEnd);
      }
    }

    /** Lays out the staged frames and commits them; an error commits nothing. */
    method Send(p: Plan, t: Staged) returns (r: Prepared, ghost layout: seq<Byte>, ghost base: nat,
                ghost sent: seq<Byte>)
      requires Valid() && p.maxSize <= MAX_PACKET_SIZE && ValidStage(stream, queue, t, p.Available() - |p.Ack()|)
      requires t.frames != []
      requires HasInitialData(queue) ==> t.stream == stream
      requires !HasInitialData(queue) ==> FromStream(stream, queue, t, p.Available() - |p.Ack()|)
      modifies `stream, `queue
      ensures StreamEnd(stream) == old(StreamEnd(stream))
      ensures Valid()
      ensures r.Failed? ==> stream == old(stream) && queue == old(queue)
      ensures r.Prepared? ==> Conserved(old(stream), old(queue), stream, queue, r.frames)
      ensures r.Prepared? ==>
                ValidFrames(r.frames) && AllQueueable(CryptoPart(r.frames))
                  && r.length == |p.Ack()| + FramesLength(r.frames)
      ensures r.Prepared? ==>
                (r.data.None? <==> r.frames == []) && (r.frames == [] ==> p.Ack() != [] && r.length <= p.Available())
      ensures r.Prepared? && r.data.Some? ==> Payload(p, r.frames, r.data.value, layout, base, sent)
      ensures r.Prepared? ==> r.length > 0
      ensures r.Failed? || r.frames == [] ==> Tight(p, old(queue)) || (r.Failed? && BadBuilder(p.builder))
    {
      var m;
      m, layout, base, sent := Render(p, t.frames);
      if m.Unfit? {
        return Failed, layout, base, sent;
      }
      var data, cryptoEnd := m.data, m.cryptoEnd;
      var recorded, unsent := Commit(t, p.Available() - |p.Ack()|, cryptoEnd);
      if recorded == [] {
        NothingRecorded(t.frames, unsent, layout, base, sent, cryptoEnd);
      } else {
        assert ValidFrame(recorded[|recorded| - 1]);
      }
      SentPayload(p, t.frames, recorded, unsent, cryptoEnd, data, layout, base, sent);
      r := Prepared(recorded, if recorded == [] then None else Some(data), |p.Ack()| + FramesLength(recorded));
    }

    /** Prepares one packet. A failure changes nothing. Otherwise every CRYPTO byte is still
        held or is in the recorded frames, as often as before, and the payload fits and
        carries exactly the recorded bytes. */
    method Prepare(p: Plan) returns (r: Prepared, ghost layout: seq<Byte>, ghost base: nat, ghost sent: seq<Byte>)
      requires Valid() && p.maxSize <= MAX_PACKET_SIZE
      modifies `stream, `queue
      ensures StreamEnd(stream) == old(StreamEnd(stream))
      ensures Valid()
      ensures r.Failed? ==> stream == old(stream) && queue == old(queue)
      ensures r.Prepared? ==> Conserved(old(stream), old(queue), stream, queue, r.frames)
      ensures r.Prepared? ==>
                ValidFrames(r.frames) && AllQueueable(CryptoPart(r.frames))
                  && r.length == |p.Ack()| + FramesLength(r.frames)
      ensures r.Prepared? ==> (r.data.None? <==> r.frames == [])
      ensures r.Prepared? && r.data.Some? ==> Payload(p, r.frames, r.data.value, layout, base, sent)
      ensures r.Prepared? && r.length == 0 ==> p.onlyAck || !old(HasData())
      ensures r.Prepared? && r.data.Some? ==> p.minDatagram <= p.maxSize
      ensures r.Prepared? && r.data.None? && r.length > 0 ==> r.length <= p.Available()
      ensures r.Failed? ==> MayFail(p, old(queue))
      ensures r.Prepared? && r.frames == [] && old(HasData()) ==> p.onlyAck || Tight(p, old(queue))
    {
      layout, base, sent := [], 0, [];
      if p.onlyAck {
        if |p.Ack()| > 0 && |p.Ack()| > p.Available() {
          return Failed, layout, base, sent;
        }
        return Prepared([], None, |p.Ack()|), layout, base, sent;
      }
      if HasData() && p.minDatagram > p.maxSize {
        return Failed, layout, base, sent;
      }
      var t := Stage(p);
      var length := |p.Ack()| + FramesLength(t.frames);
      if length > 0 && length > p.Available() {
        return Failed, layout, base, sent;
      }
      if t.frames == [] {
        if length == 0 && HasData() {
          return Failed, layout, base, sent;
        }
        return Prepared([], None, length), layout, base, sent;
      }
      r, layout, base, sent := Send(p, t);
    }
  }
}
