/** One stream from end to end: a sender (send_stream.go) and the reassembly of its frames
    (frame_sorter.go), over a network that loses, repeats and reorders packets. */
module StreamLinking {
  import opened Chunks
  import opened Protocol
  import opened SendStreams
  import F = FrameSorting

  // ----- frames are slices of what was sent

  ghost predicate Slice(offset: int, data: seq<Byte>, s: seq<Byte>) {
    0 <= offset && offset + |data| <= |s| && data == s[offset..offset + |data|]
  }

  ghost predicate FrameSlice(f: StreamFrame, s: seq<Byte>) {
    Slice(f.chunk.offset, f.chunk.data, s)
  }

  /** The conserved frames hold the bytes that were sent. */
  lemma OutstandingSlice(sent: seq<Byte>, fin: bool, acked: seq<StreamFrame>, out: seq<StreamFrame>,
                         queued: seq<StreamFrame>, i: nat)
    requires Conserves(sent, fin, acked, out, queued) && i < |out|
    ensures FrameSlice(out[i], sent)
  {
    var c := out[i].chunk;
    RemovedCount(out, i);
    assert Good(out[i], |sent|);
    forall k | 0 <= k < |c.data| ensures c.data[k] == sent[c.offset + k] {
      var x, v := c.offset + k, c.data[k];
      assert Places(acked, out, queued, x, v) == ByteCount(0, sent, x, v);
      assert ByteCount(c.offset, c.data, x, v) == 1;
    }
  }

  lemma SliceGrows(offset: int, data: seq<Byte>, s: seq<Byte>, t: seq<Byte>)
    requires Slice(offset, data, s)
    ensures Slice(offset, data, s + t)
  {
  }

  lemma SlicePart(offset: int, data: seq<Byte>, s: seq<Byte>, k: int, part: seq<Byte>)
    requires Slice(offset, data, s) && offset <= k && k + |part| <= offset + |data|
    requires part == data[k - offset..k - offset + |part|]
    ensures Slice(k, part, s)
  {
    assert forall i :: 0 <= i < |part| ==> part[i] == data[k - offset + i] == s[k + i];
  }

  ghost predicate AllSlices(fs: set<StreamFrame>, s: seq<Byte>) {
    forall f :: f in fs ==> FrameSlice(f, s)
  }

  ghost predicate QueueSlices(queue: F.Queue, s: seq<Byte>) {
    forall k :: k in queue ==> Slice(k, queue[k].data, s)
  }

  lemma AllGrow(fs: set<StreamFrame>, queue: F.Queue, s: seq<Byte>, t: seq<Byte>)
    requires AllSlices(fs, s) && QueueSlices(queue, s)
    ensures AllSlices(fs, s + t) && QueueSlices(queue, s + t)
  {
    forall f | f in fs ensures FrameSlice(f, s + t) {
      assert FrameSlice(f, s);
      SliceGrows(f.chunk.offset, f.chunk.data, s, t);
    }
    forall k | k in queue ensures Slice(k, queue[k].data, s + t) {
      SliceGrows(k, queue[k].data, s, t);
    }
  }

  lemma PushedSlices(queue: F.Queue, before: F.Queue, data: seq<Byte>, offset: int, s: seq<Byte>)
    requires QueueSlices(before, s) && Slice(offset, data, s) && F.ChunksFrom(queue, before, data, offset)
    ensures QueueSlices(queue, s)
  {
    forall k | k in queue ensures Slice(k, queue[k].data, s) {
      if !(k in before && queue[k] == before[k]) {
        SlicePart(offset, data, s, k, queue[k].data);
      }
    }
  }

  // ----- what has arrived

  ghost predicate Holds(f: StreamFrame, x: int) {
    f.chunk.offset <= x < f.chunk.offset + |f.chunk.data|
  }

  ghost predicate Covered(fs: set<StreamFrame>, x: int) {
    exists f :: f in fs && Holds(f, x)
  }

  /** The gaps are what has not arrived. */
  ghost predicate Missing(gaps: seq<F.Interval>, arrived: set<StreamFrame>) {
    forall x :: F.InGaps(gaps, x) <==> 0 <= x < MAX_BYTE_COUNT && !Covered(arrived, x)
  }

  lemma ArrivedMissing(before: seq<F.Interval>, after: seq<F.Interval>, arrived: set<StreamFrame>, f: StreamFrame)
    requires Missing(before, arrived) && F.Difference(before, f.chunk.offset, f.chunk.offset + |f.chunk.data|, after)
    ensures Missing(after, arrived + {f})
  {
    forall x ensures F.InGaps(after, x) <==> 0 <= x < MAX_BYTE_COUNT && !Covered(arrived + {f}, x) {
      assert Covered(arrived + {f}, x) <==> Covered(arrived, x) || Holds(f, x) by {
        if Covered(arrived, x) {
          var g :| g in arrived && Holds(g, x);
          assert g in arrived + {f};
        }
        assert f in arrived + {f};
      }
      assert F.InGaps(after, x) <==> F.InGaps(before, x) && !Holds(f, x);
    }
  }

  /** A byte of a conserved stream of which nothing is under way was acknowledged. */
  lemma {:induction false} CountedFrame(fs: seq<StreamFrame>, x: int, v: Byte)
    requires Count(fs, x, v) > 0
    ensures exists i :: 0 <= i < |fs| && Holds(fs[i], x)
    decreases |fs|
  {
    RemovedBytes(fs, 0, x, v);
    if !Holds(fs[0], x) {
      CountedFrame(Removed(fs, 0), x, v);
      assert Removed(fs, 0) == fs[1..];
    }
  }

  lemma AckedCovers(acked: seq<StreamFrame>, arrived: set<StreamFrame>, sent: seq<Byte>, x: int)
    requires forall i :: 0 <= i < |acked| ==> acked[i] in arrived
    requires forall y: int, v: Byte :: Count(acked, y, v) == ByteCount(0, sent, y, v)
    requires 0 <= x < |sent|
    ensures Covered(arrived, x)
  {
    assert ByteCount(0, sent, x, sent[x]) == 1;
    CountedFrame(acked, x, sent[x]);
  }

  /** What holds of the frames, the reassembly and the bytes read. */
  ghost predicate Linked(ledger: Ledger, flown: set<StreamFrame>, arrived: set<StreamFrame>, queue: F.Queue,
                         gaps: seq<F.Interval>,
                         readPos: int, delivered: seq<Byte>)
  {
    && AllSlices(flown, ledger.sent) && arrived <= flown
    && (forall i :: 0 <= i < |ledger.outstanding| ==> ledger.outstanding[i] in flown)
    && (forall i :: 0 <= i < |ledger.acked| ==> ledger.acked[i] in arrived)
    && QueueSlices(queue, ledger.sent) && Missing(gaps, arrived)
    && Slice(0, delivered, ledger.sent) && |delivered| == readPos
  }

  lemma LinkedSend(l0: Ledger, l1: Ledger, t: seq<Byte>, f: StreamFrame, flown: set<StreamFrame>,
                   arrived: set<StreamFrame>,
                   queue: F.Queue, gaps: seq<F.Interval>, readPos: int, delivered: seq<Byte>)
    requires Linked(l0, flown, arrived, queue, gaps, readPos, delivered)
    requires l1.sent == l0.sent + t && l1.acked == l0.acked && l1.outstanding == l0.outstanding + [f]
    requires FrameSlice(f, l1.sent)
    ensures Linked(l1, flown + {f}, arrived, queue, gaps, readPos, delivered)
  {
    AllGrow(flown, queue, l0.sent, t);
    SliceGrows(0, delivered, l0.sent, t);
  }

  class StreamLink {
    const sender: SendStream
    const sorter: F.FrameSorter

    /** The frames that were ever sent, and those of them that arrived. */
    ghost var flown: set<StreamFrame>
    ghost var arrived: set<StreamFrame>

    /** What the receiving application has read. */
    ghost var delivered: seq<Byte>

    ghost predicate Valid()
      reads this, sender, sender.conn, sorter
    {
      && sender.Valid() && sender.conn.flow.Valid() && sorter.Valid()
      && Linked(sender.ledger, flown, arrived, sorter.queue, sorter.gaps, sorter.readPos, delivered)
    }

    constructor (id: nat, conn: Connection, limit: nat)
      requires id <= MAX_BYTE_COUNT && limit <= MAX_BYTE_COUNT && conn.flow.Valid()
      ensures Valid() && delivered == [] && sender.conn == conn && fresh(sender) && fresh(sorter)
    {
      sender := new SendStream(id, conn, limit);
      sorter := new F.FrameSorter();
      flown, arrived, delivered := {}, {}, [];
      new;
      assert [F.Interval(0, MAX_BYTE_COUNT)][0] == F.Interval(0, MAX_BYTE_COUNT);
    }

    /** A packet is sent: the frame is a slice of the stream. */
    method Send(maxBytes: int) returns (f: Option<StreamFrame>)
      requires Valid() && maxBytes <= MAX_POP
      modifies this, sender, sender.conn
      ensures Valid() && delivered == old(delivered) && arrived == old(arrived)
      ensures f.Some? ==> f.value in flown
    {
      var blocked, more;
      f, blocked, more := sender.PopStreamFrame(maxBytes);
      if f.Some? {
        ghost var l := sender.ledger;
        OutstandingSlice(l.sent, sender.finSent, l.acked, l.outstanding, sender.retransmissionQueue,
          |l.outstanding| - 1);
        ghost var t := if l == Resent(old(sender.ledger), f.value) then [] else f.value.chunk.data;
        LinkedSend(old(sender.ledger), l, t, f.value, flown, arrived, sorter.queue, sorter.gaps, sorter.readPos,
          delivered);
        flown := flown + {f.value};
      }
    }

    /** A frame that was sent arrives, perhaps again. */
    method Arrive(f: StreamFrame) returns (r: F.PushResult)
      requires Valid() && f in flown
      modifies this, sorter
      ensures r.Pushed? ==>
                Valid() && arrived == old(arrived) + {f} && flown == old(flown) && delivered == old(delivered)
      ensures r.PushFailed? <==>
                && |old(sorter.gaps)| == F.MAX_GAPS
                && F.Splits(old(sorter.gaps), f.chunk.offset, f.chunk.offset + |f.chunk.data|)
      ensures r.PushPanicked? ==> |sender.ledger.sent| == MAX_BYTE_COUNT
    {
      assert FrameSlice(f, sender.ledger.sent);
      r := sorter.Push(f.chunk.data, f.chunk.offset, None);
      if r.Pushed? {
        ArrivedMissing(old(sorter.gaps), sorter.gaps, arrived, f);
        PushedSlices(sorter.queue, old(sorter.queue), f.chunk.data, f.chunk.offset, sender.ledger.sent);
        arrived := arrived + {f};
      }
    }

    /** The receiver acknowledges a frame, which has arrived then. */
    method Acknowledge(f: StreamFrame, ghost i: nat) returns (newlyCompleted: bool)
      requires Valid() && i < |sender.ledger.outstanding| && sender.ledger.outstanding[i] == f && f in arrived
      modifies sender
      ensures Valid() && sender.completed == (old(sender.completed) || newlyCompleted)
    {
      newlyCompleted := sender.OnAcked(f, i);
    }

    method Lose(f: StreamFrame, ghost i: nat)
      requires Valid() && i < |sender.ledger.outstanding| && sender.ledger.outstanding[i] == f
      modifies sender
      ensures Valid()
    {
      sender.OnLost(f, i);
    }

    /** The receiving application reads. */
    method Read() returns (data: seq<Byte>)
      requires Valid()
      modifies this, sorter
      ensures Valid() && delivered == old(delivered) + data && flown == old(flown) && arrived == old(arrived)
      ensures sorter.gaps == old(sorter.gaps)
      ensures data == [] <==> !Covered(arrived, |old(delivered)|) || |old(delivered)| == MAX_BYTE_COUNT
      ensures data != [] ==> sorter.queue.Keys < old(sorter.queue.Keys)
    {
      var offset, cb, panicked;
      offset, data, cb, panicked := sorter.Pop();
      delivered := delivered + data;
    }

    /** Reads all there is: a prefix of what was written. If the sender has completed without being
        cancelled, it is everything that was written. */
    method ReadAll()
      requires Valid()
      modifies this, sorter
      ensures Valid() && old(delivered) <= delivered <= sender.Accepted()
      ensures !Covered(arrived, |delivered|) || |delivered| == MAX_BYTE_COUNT
      ensures sender.completed && !sender.cancelled ==> delivered == sender.Accepted()
    {
      var more := true;
      while more
        invariant Valid() && arrived == old(arrived) && old(delivered) <= delivered
        invariant !more ==> !Covered(arrived, |delivered|) || |delivered| == MAX_BYTE_COUNT
        decreases more, sorter.queue.Keys
      {
        var data := Read();
        more := data != [];
      }
      if sender.completed && !sender.cancelled {
        CompleteArrived();
      }
    }

    /** Everything written has arrived when the sender has completed without being cancelled. */
    lemma CompleteArrived()
      requires Valid() && sender.completed && !sender.cancelled
      ensures sender.Accepted() == sender.ledger.sent
      ensures forall x :: 0 <= x < |sender.ledger.sent| ==> Covered(arrived, x)
    {
      sender.CompletedDelivered();
      forall x | 0 <= x < |sender.ledger.sent| ensures Covered(arrived, x) {
        AckedCovers(sender.ledger.acked, arrived, sender.ledger.sent, x);
      }
    }

    /** The sending application writes, closes or cancels; none of this touches a frame that was sent. */
    method Apply(call: Call) returns (newlyCompleted: bool)
      requires Valid() && (call.Write? ==> sender.writing.None?) && (call.Continue? ==> sender.writing.Some?)
      modifies sender
      ensures Valid() && sender.completed == (old(sender.completed) || newlyCompleted)
      ensures old(sender.Accepted()) <= sender.Accepted()
    {
      var r, c;
      match call {
        case Write(p, expired) => r, newlyCompleted := sender.BeginWrite(p, expired);
        case Continue(expired) => r, newlyCompleted := sender.ContinueWrite(expired);
        case Close => c, newlyCompleted := sender.Close();
        case Cancel(code, remote) => newlyCompleted := sender.CancelWrite(code, remote);
      }
    }
  }

  datatype Call = Write(p: seq<Byte>, expired: bool) | Continue(expired: bool) | Close | Cancel(code: nat, remote: bool)
}
