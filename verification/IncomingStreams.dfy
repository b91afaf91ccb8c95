/** The streams that the peer opens (streams_map_incoming.go; section 4.6 of RFC 9000). */
module IncomingStreaming {
  import opened Protocol

  /** The largest stream count that fits into a MAX_STREAMS frame, 2^60. */
  const MAX_STREAM_COUNT := 0x1000_0000_0000_0000

  /** A stream that is done is kept until the application has accepted it. */
  datatype Entry = Entry(stream: nat, shouldDelete: bool)

  datatype AcceptResult = Closed | Wait | Accepted(stream: nat)
  datatype OpenResult = LimitError | Gone | Open(stream: nat)
  datatype DeleteResult = UnknownStream | DeletedTwice | Postponed | Deleted

  lemma Removed(m: map<nat, Entry>, k: nat)
    requires k in m
    ensures |m - {k}| == |m| - 1
  {
    assert (m - {k}).Keys == m.Keys - {k};
    assert m.Keys == (m.Keys - {k}) + {k};
  }

  lemma Inserted(m: map<nat, Entry>, k: nat, e: Entry)
    ensures |m[k := e]| == if k in m then |m| else |m| + 1
  {
    assert m[k := e].Keys == m.Keys + {k};
  }

  /** The numbers of the streams, one after the other. */
  method AllStreams(m: map<nat, Entry>) returns (nums: set<nat>)
    requires forall n :: n in m ==> m[n].stream == n
    ensures nums == m.Keys
  {
    nums := {};
    var left := m.Keys;
    while left != {}
      invariant left <= m.Keys && nums + left == m.Keys
      decreases left
    {
      var n :| n in left;
      nums, left := nums + {m[n].stream}, left - {n};
    }
  }

  class IncomingStreams {
    const maxNumStreams: nat
    var streams: map<nat, Entry>
    var nextToAccept: nat
    var nextToOpen: nat
    var maxStream: nat
    var closed: bool

    /** The streams that were shut down with an error. */
    var shutDown: set<nat>

    /** The limits of the MAX_STREAMS frames queued so far. */
    var maxStreamsFrames: seq<nat>

    /** The streams accepted so far. */
    ghost var accepted: seq<nat>

    /** Streams that exist and streams that the peer may still open are together at most
        maxNumStreams; what waits for being accepted exists. */
    ghost predicate Valid()
      reads this
    {
      ValidBut(0)
    }

    /** Stream num may still be marked although it was accepted. */
    ghost predicate ValidBut(num: nat)
      reads this
    {
      && 1 <= nextToAccept <= nextToOpen <= maxStream + 1 && maxStream <= MAX_STREAM_COUNT
      && |streams| + (maxStream + 1 - nextToOpen) <= maxNumStreams <= MAX_STREAM_COUNT
      && (forall n :: n in streams ==>
            && 1 <= n < nextToOpen && streams[n].stream == n
            && (streams[n].shouldDelete ==> nextToAccept <= n || n == num))
      && (forall n :: nextToAccept <= n < nextToOpen ==> n in streams)
      && (forall i, j :: 0 <= i < j < |maxStreamsFrames| ==> maxStreamsFrames[i] < maxStreamsFrames[j])
      && (forall i :: 0 <= i < |maxStreamsFrames| ==> maxStreamsFrames[i] <= maxStream)
      && |accepted| == nextToAccept - 1 && forall i :: 0 <= i < |accepted| ==> accepted[i] == i + 1
    }

    /** The limit has grown so that exactly maxNumStreams streams exist or may be opened, unless that
        is no valid stream count, and the new limit was announced. */
    ghost predicate Credited(limit: nat, frames: seq<nat>, left: map<nat, Entry>, next: nat, newLimit: nat,
                             newFrames: seq<nat>)
    {
      if next + maxNumStreams - |left| - 1 <= MAX_STREAM_COUNT then
        newLimit > limit && newFrames == frames + [newLimit] && |left| + (newLimit + 1 - next) == maxNumStreams
      else newLimit == limit && newFrames == frames
    }

    constructor (maxStreams: nat)
      requires maxStreams <= MAX_STREAM_COUNT
      ensures Valid() && streams == map[] && maxStream == maxNumStreams == maxStreams && maxStreamsFrames == []
      ensures accepted == [] && !closed && shutDown == {}
    {
      maxNumStreams, maxStream, shutDown := maxStreams, maxStreams, {};
      streams, nextToAccept, nextToOpen, closed, maxStreamsFrames, accepted := map[], 1, 1, false, [], [];
    }

    /** The next stream in order, each once, even one that is done already; waits exactly if the
        peer has opened no other. */
    method Accept() returns (r: AcceptResult)
      requires Valid()
      modifies this
      ensures Valid() && nextToOpen == old(nextToOpen) && maxStream >= old(maxStream)
      ensures r.Closed? <==> closed
      ensures r.Wait? <==> !closed && old(nextToAccept) == old(nextToOpen)
      ensures closed == old(closed) && shutDown == old(shutDown)
      ensures !r.Accepted? ==> accepted == old(accepted) && streams == old(streams)
      ensures r.Accepted? ==> r.stream == old(nextToAccept) && accepted == old(accepted) + [r.stream]
      ensures r.Accepted? ==>
                streams == if old(streams)[r.stream].shouldDelete then old(streams) - {r.stream} else old(streams)
      ensures r.Accepted? && old(streams)[r.stream].shouldDelete ==>
                Credited(old(maxStream), old(maxStreamsFrames), streams, nextToOpen, maxStream, maxStreamsFrames)
      ensures !(r.Accepted? && old(streams)[r.stream].shouldDelete) ==>
                maxStream == old(maxStream) && maxStreamsFrames == old(maxStreamsFrames)
    {
      var num := nextToAccept;
      if closed {
        return Closed;
      }
      if num !in streams {
        return Wait;
      }
      var entry := streams[num];
      nextToAccept, accepted := num + 1, accepted + [num];
      if entry.shouldDelete {
        Drop(num);
      }
      r := Accepted(entry.stream);
    }

    /** A stream is done. One not accepted yet is kept; otherwise the peer may open another, and
        the limit grows. */
    method Delete(num: nat) returns (r: DeleteResult)
      requires Valid()
      modifies `streams, `maxStream, `maxStreamsFrames
      ensures Valid() && maxStream >= old(maxStream)
      ensures r.UnknownStream? <==> num !in old(streams)
      ensures r.DeletedTwice? <==> num in old(streams) && old(streams)[num].shouldDelete
      ensures r.Postponed? ==> num >= nextToAccept && streams == old(streams)[num := Entry(num, true)]
      ensures r.Deleted? <==> num in old(streams) && num < nextToAccept
      ensures r.Deleted? ==> streams == old(streams) - {num}
      ensures r.Deleted? ==>
                Credited(old(maxStream), old(maxStreamsFrames), streams, nextToOpen, maxStream, maxStreamsFrames)
      ensures !r.Deleted? ==> maxStream == old(maxStream) && maxStreamsFrames == old(maxStreamsFrames)
      ensures r.UnknownStream? || r.DeletedTwice? ==> streams == old(streams)
    {
      if num !in streams {
        return UnknownStream;
      }
      if num >= nextToAccept {
        if streams[num].shouldDelete {
          return DeletedTwice;
        }
        Inserted(streams, num, streams[num].(shouldDelete := true));
        streams := streams[num := streams[num].(shouldDelete := true)];
        return Postponed;
      }
      Drop(num);
      r := Deleted;
    }

    /** Removes a stream that was accepted. */
    method Drop(num: nat)
      requires ValidBut(num) && num in streams && num < nextToAccept
      modifies `streams, `maxStream, `maxStreamsFrames
      ensures Valid() && streams == old(streams) - {num}
      ensures Credited(old(maxStream), old(maxStreamsFrames), streams, nextToOpen, maxStream, maxStreamsFrames)
    {
      Removed(streams, num);
      streams := streams - {num};
      if maxNumStreams > |streams| {
        var limit := nextToOpen + (maxNumStreams - |streams|) - 1;
        if limit <= MAX_STREAM_COUNT {
          maxStream := limit;
          maxStreamsFrames := maxStreamsFrames + [maxStream];
        }
      }
    }

    /** The stream with number num, which the peer opens if it is higher than all before, along
        with those between. */
    method GetOrOpen(num: nat) returns (r: OpenResult)
      requires Valid() && num >= 1
      modifies `streams, `nextToOpen
      ensures Valid() && nextToOpen == (if r.LimitError? then old(nextToOpen) else Max(old(nextToOpen), num + 1))
      ensures r.LimitError? <==> num > maxStream
      ensures r.Gone? <==> num < old(nextToOpen) && (num !in old(streams) || old(streams)[num].shouldDelete)
      ensures r.Open? ==> r.stream == num && num in streams
      ensures forall n :: n in streams <==> n in old(streams) || old(nextToOpen) <= n < nextToOpen
      ensures forall n :: n in old(streams) ==> streams[n] == old(streams)[n]
    {
      if num > maxStream {
        return LimitError;
      }
      if num < nextToOpen {
        return if num in streams && !streams[num].shouldDelete then Open(streams[num].stream) else Gone;
      }
      var newNum := nextToOpen;
      while newNum <= num
        invariant old(nextToOpen) <= newNum <= num + 1 && nextToOpen == old(nextToOpen)
        invariant |streams| == |old(streams)| + (newNum - nextToOpen)
        invariant forall n :: n in streams <==> n in old(streams) || nextToOpen <= n < newNum
        invariant forall n :: n in old(streams) ==> streams[n] == old(streams)[n]
        invariant forall n :: nextToOpen <= n < newNum ==> streams[n] == Entry(n, false)
      {
        Inserted(streams, newNum, Entry(newNum, false));
        streams := streams[newNum := Entry(newNum, false)];
        newNum := newNum + 1;
      }
      nextToOpen := num + 1;
      r := Open(streams[num].stream);
    }

    /** Every stream is shut down, and none is accepted from now on. */
    method CloseWithError()
      requires Valid()
      modifies `closed, `shutDown
      ensures Valid() && closed && shutDown == old(shutDown) + streams.Keys
    {
      var nums := AllStreams(streams);
      closed, shutDown := true, shutDown + nums;
    }
  }
}
