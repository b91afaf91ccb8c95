/** Filling a packet with control frames and STREAM frames (framer.go). */
module Framing {
  import opened Protocol
  import opened SendStreams
  import opened StreamCodec
  import opened Varint

  const MIN_STREAM_FRAME_SIZE := 128

  /** The largest RESET_STREAM frame, which is the largest control frame of a stream. */
  const MAX_STREAM_CONTROL_FRAME_SIZE := 25

  /** A control frame, as its bytes. */
  type ControlFrame = seq<Byte>

  /** What belongs to stream id, in order. */
  ghost function From<T>(s: seq<(nat, T)>, id: nat): seq<T> {
    if |s| == 0 then []
    else From(s[..|s| - 1], id) + if s[|s| - 1].0 == id then [s[|s| - 1].1] else []
  }

  lemma FromAppend<T>(s: seq<(nat, T)>, i: nat, t: T, id: nat)
    ensures From(s + [(i, t)], id) == From(s, id) + if i == id then [t] else []
  {
    assert (s + [(i, t)])[..|s|] == s;
  }

  function Seconds<T>(s: seq<(nat, T)>): (r: seq<T>)
    ensures |r| == |s|
  {
    seq(|s|, i requires 0 <= i < |s| => s[i].1)
  }

  function TotalLen(fs: seq<ControlFrame>): nat {
    if |fs| == 0 then 0 else TotalLen(fs[..|fs| - 1]) + |fs[|fs| - 1]|
  }

  lemma TotalLenAppend(fs: seq<ControlFrame>, f: ControlFrame)
    ensures TotalLen(fs + [f]) == TotalLen(fs) + |f|
  {
    assert (fs + [f])[..|fs|] == fs;
  }

  lemma {:induction false} TotalLenConcat(a: seq<ControlFrame>, b: seq<ControlFrame>)
    ensures TotalLen(a + b) == TotalLen(a) + TotalLen(b)
  {
    if |b| == 0 {
      assert a + b == a;
    } else {
      assert a + b == (a + b[..|b| - 1]) + [b[|b| - 1]];
      TotalLenAppend(a + b[..|b| - 1], b[|b| - 1]);
      TotalLenConcat(a, b[..|b| - 1]);
    }
  }

  lemma TotalLenThree(a: seq<ControlFrame>, b: seq<ControlFrame>, c: seq<ControlFrame>)
    ensures TotalLen(a + (b + c)) == TotalLen(a) + TotalLen(b) + TotalLen(c)
  {
    TotalLenConcat(b, c);
    TotalLenConcat(a, b + c);
  }

  function StreamDataBlocked(id: nat, limit: nat): (r: ControlFrame)
    requires id <= MAX_VARINT && limit <= MAX_VARINT
    ensures |r| == 1 + Len(id) + Len(limit)
  {
    [0x15] + Encode(id) + Encode(limit)
  }

  /** A stream that reports being blocked has sent up to its limit. */
  ghost predicate Reports(f: Option<ControlFrame>, id: nat, sent: nat) {
    f.Some? ==> id <= MAX_VARINT && sent <= MAX_VARINT && f.value == StreamDataBlocked(id, sent)
  }

  function DataBlocked(limit: nat): (r: ControlFrame)
    requires limit <= MAX_VARINT
    ensures |r| == 1 + Len(limit)
  {
    [0x14] + Encode(limit)
  }

  /** The control frames of one stream. */
  ghost function Queued(m: map<nat, seq<ControlFrame>>, id: nat): seq<ControlFrame> {
    if id in m then m[id] else []
  }

  /** The frames `taken` and those left are those that were queued, stream by stream. */
  ghost predicate TakenFrom(before: map<nat, seq<ControlFrame>>, taken: seq<(nat, ControlFrame)>, after: map<nat,
                            seq<ControlFrame>>)
  {
    forall id: nat :: From(taken, id) + Queued(after, id) == Queued(before, id)
  }

  ghost predicate AllSmall(m: map<nat, seq<ControlFrame>>) {
    forall id, i :: id in m && 0 <= i < |m[id]| ==> |m[id][i]| <= MAX_STREAM_CONTROL_FRAME_SIZE
  }

  lemma TakeOne(before: map<nat, seq<ControlFrame>>, taken: seq<(nat, ControlFrame)>, m: map<nat, seq<ControlFrame>>,
                id: nat)
    requires TakenFrom(before, taken, m) && id in m && |m[id]| > 0
    ensures TakenFrom(before, taken + [(id, m[id][0])], m[id := m[id][1..]])
  {
    var t := taken + [(id, m[id][0])];
    forall j: nat ensures From(t, j) + Queued(m[id := m[id][1..]], j) == Queued(before, j) {
      FromAppend(taken, id, m[id][0], j);
      assert From(taken, j) + Queued(m, j) == Queued(before, j);
      assert j == id ==> (From(taken, id) + [m[id][0]]) + m[id][1..] == From(taken, id) + m[id];
    }
  }

  lemma DropEmpty(before: map<nat, seq<ControlFrame>>, taken: seq<(nat, ControlFrame)>, m: map<nat, seq<ControlFrame>>,
                  id: nat)
    requires TakenFrom(before, taken, m) && id in m && m[id] == []
    ensures TakenFrom(before, taken, m - {id})
  {
    forall j: nat ensures From(taken, j) + Queued(m - {id}, j) == Queued(before, j) {
      assert From(taken, j) + Queued(m, j) == Queued(before, j);
    }
  }

  /** Takes control frames of streams, in any order of the streams, while the largest would fit. */
  method TakeStreamFrames(m0: map<nat, seq<ControlFrame>>, maxLen: int)
    returns (m: map<nat, seq<ControlFrame>>, taken: seq<(nat, ControlFrame)>)
    requires AllSmall(m0)
    ensures TakenFrom(m0, taken, m) && AllSmall(m)
    ensures TotalLen(Seconds(taken)) <= Max(maxLen, 0)
    ensures m == map[] || maxLen - TotalLen(Seconds(taken)) <= MAX_STREAM_CONTROL_FRAME_SIZE
  {
    m, taken := m0, [];
    var length, ids := 0, m.Keys;
    while ids != {} && maxLen - length > MAX_STREAM_CONTROL_FRAME_SIZE
      invariant TakenFrom(m0, taken, m) && AllSmall(m) && ids <= m.Keys
      invariant m.Keys == ids || maxLen - length <= MAX_STREAM_CONTROL_FRAME_SIZE
      invariant length == TotalLen(Seconds(taken)) <= Max(maxLen, 0)
    {
      var id :| id in ids;
      ids := ids - {id};
      m, taken, length := TakeFromStream(m0, m, id, maxLen, taken, length);
    }
  }

  /** All frames of one stream, while they fit; a stream that has no more is removed. */
  method TakeFromStream(ghost m0: map<nat, seq<ControlFrame>>, m1: map<nat, seq<ControlFrame>>, id: nat, maxLen: int,
                        taken1: seq<(nat, ControlFrame)>, length1: nat)
    returns (m: map<nat, seq<ControlFrame>>, taken: seq<(nat, ControlFrame)>, length: nat)
    requires TakenFrom(m0, taken1, m1) && AllSmall(m1) && id in m1
    requires length1 == TotalLen(Seconds(taken1)) <= Max(maxLen, 0)
    ensures TakenFrom(m0, taken, m) && AllSmall(m) && m1.Keys - {id} <= m.Keys
    ensures length == TotalLen(Seconds(taken)) <= Max(maxLen, 0)
    ensures m.Keys == m1.Keys - {id} || maxLen - length <= MAX_STREAM_CONTROL_FRAME_SIZE
  {
    m, taken, length := m1, taken1, length1;
    while |m[id]| > 0 && maxLen - length > MAX_STREAM_CONTROL_FRAME_SIZE
      invariant id in m && m.Keys == m1.Keys && TakenFrom(m0, taken, m) && AllSmall(m)
      invariant length == TotalLen(Seconds(taken)) <= Max(maxLen, 0)
      decreases |m[id]|
    {
      var f := m[id][0];
      TakeOne(m0, taken, m, id);
      assert Seconds(taken + [(id, f)]) == Seconds(taken) + [f];
      TotalLenAppend(Seconds(taken), f);
      taken, length := taken + [(id, f)], length + |f|;
      m := m[id := m[id][1..]];
    }
    if |m[id]| == 0 {
      DropEmpty(m0, taken, m, id);
      m := m - {id};
    }
  }

  /** The control frames at the end of the queue, while they fit, last first. */
  method TakeLast(queue: seq<ControlFrame>, maxLen: int) returns (rest: seq<ControlFrame>, taken: seq<ControlFrame>)
    ensures rest + Reversed(taken) == queue && TotalLen(taken) <= Max(maxLen, 0)
    ensures rest != [] ==> TotalLen(taken) + |rest[|rest| - 1]| > maxLen
  {
    rest, taken := queue, [];
    var length := 0;
    while |rest| > 0 && length + |rest[|rest| - 1]| <= maxLen
      invariant rest + Reversed(taken) == queue && length == TotalLen(taken) <= Max(maxLen, 0)
    {
      var f := rest[|rest| - 1];
      TotalLenAppend(taken, f);
      ReversedAppend(taken, f);
      assert rest[..|rest| - 1] + ([f] + Reversed(taken)) == rest + Reversed(taken);
      rest, taken, length := rest[..|rest| - 1], taken + [f], length + |f|;
    }
  }

  ghost function Reversed(s: seq<ControlFrame>): seq<ControlFrame> {
    if |s| == 0 then [] else [s[|s| - 1]] + Reversed(s[..|s| - 1])
  }

  lemma ReversedAppend(s: seq<ControlFrame>, f: ControlFrame)
    ensures Reversed(s + [f]) == [f] + Reversed(s)
  {
    assert (s + [f])[..|s|] == s;
  }

  // ----- STREAM frames

  /** The number of bytes of the STREAM frames. */
  function StreamLen(ps: seq<Packed>): nat
    requires forall i :: 0 <= i < |ps| ==> ValidPacked(ps[i])
  {
    if |ps| == 0 then 0 else StreamLen(ps[..|ps| - 1]) + Size(ps[|ps| - 1])
  }

  lemma StreamLenAppend(ps: seq<Packed>, p: Packed)
    requires (forall i :: 0 <= i < |ps| ==> ValidPacked(ps[i])) && ValidPacked(p)
    ensures StreamLen(ps + [p]) == StreamLen(ps) + Size(p)
  {
    assert (ps + [p])[..|ps|] == ps;
  }

  lemma {:induction false} SerialisedLength(ps: seq<Packed>)
    requires forall i :: 0 <= i < |ps| ==> ValidPacked(ps[i])
    ensures |Serialise(ps)| == StreamLen(ps)
  {
    if |ps| > 0 {
      SerialisedLength(ps[1..]);
      StreamLenFirst(ps);
    }
  }

  lemma {:induction false} StreamLenFirst(ps: seq<Packed>)
    requires |ps| > 0 && forall i :: 0 <= i < |ps| ==> ValidPacked(ps[i])
    ensures StreamLen(ps) == Size(ps[0]) + StreamLen(ps[1..])
    decreases |ps|
  {
    if |ps| > 1 {
      var init := ps[..|ps| - 1];
      StreamLenFirst(init);
      assert init[1..] + [ps[|ps| - 1]] == ps[1..];
      StreamLenAppend(init[1..], ps[|ps| - 1]);
    }
  }

  /** The frames of stream id among ps, in order. */
  ghost function Frames(ps: seq<Packed>, id: nat): seq<StreamFrame> {
    if |ps| == 0 then []
    else Frames(ps[..|ps| - 1], id) + if ps[|ps| - 1].id == id then [ps[|ps| - 1].frame] else []
  }

  lemma FramesAppend(ps: seq<Packed>, p: Packed, id: nat)
    ensures Frames(ps + [p], id) == Frames(ps, id) + if p.id == id then [p.frame] else []
  {
    assert (ps + [p])[..|ps|] == ps;
  }

  /** The last frame without its length field. */
  function Shortened(ps: seq<Packed>): (r: seq<Packed>)
    ensures |r| == |ps|
  {
    if |ps| == 0 then [] else ps[..|ps| - 1] + [ps[|ps| - 1].(withLen := false)]
  }

  /** A frame popped for a budget inflated by the length of its length field fits without it. */
  lemma ShortFits(id: nat, f: StreamFrame, remaining: nat)
    requires id <= MAX_VARINT && ValidFrame(f) && MIN_STREAM_FRAME_SIZE <= remaining <= MAX_VARINT_2
    requires Length(id, f, true) <= Max(remaining + Len(remaining), if |f.chunk.data| > 0 then 0 else 18)
    ensures Length(id, f, false) <= remaining
  {
  }

  class Framer {
    const conn: Connection
    var activeStreams: map<nat, SendStream>
    var streamQueue: seq<nat>
    var streamsWithControlFrames: map<nat, seq<ControlFrame>>
    var controlFrames: seq<ControlFrame>
    var pathResponses: seq<ControlFrame>

    /** Every active stream waits for its turn. */
    ghost predicate Valid()
      reads this, conn, activeStreams.Values
    {
      && conn.flow.Valid() && AllSmall(streamsWithControlFrames)
      && forall id :: id in activeStreams ==> id in streamQueue && Member(activeStreams[id], id)
    }

    ghost predicate Member(s: SendStream, id: nat)
      reads s
    {
      s.Valid() && s.id == id && s.conn == conn
    }

    constructor (conn: Connection)
      requires conn.flow.Valid()
      ensures Valid() && this.conn == conn && activeStreams == map[] && streamQueue == []
    {
      this.conn := conn;
      activeStreams, streamQueue, streamsWithControlFrames, controlFrames, pathResponses := map[], [], map[], [], [];
    }

    method AddActiveStream(s: SendStream)
      requires Valid() && Member(s, s.id)
      modifies this
      ensures Valid() && s.id in activeStreams
      ensures if s.id in old(activeStreams) then activeStreams == old(activeStreams) && streamQueue == old(streamQueue)
              else activeStreams == old(activeStreams)[s.id := s] && streamQueue == old(streamQueue) + [s.id]
    {
      if s.id !in activeStreams {
        streamQueue := streamQueue + [s.id];
        activeStreams := activeStreams[s.id := s];
      }
    }

    method RemoveActiveStream(id: nat)
      requires Valid()
      modifies this
      ensures Valid() && activeStreams == old(activeStreams) - {id} && streamQueue == old(streamQueue)
    {
      activeStreams := activeStreams - {id};
    }

    ghost function Control(): ControlQueues
      reads this
    {
      ControlQueues(pathResponses, streamsWithControlFrames, controlFrames)
    }

    /** One PATH_RESPONSE at most, then the control frames of streams, then the others. */
    method AppendControlFrames(maxLen: nat) returns (frames: seq<ControlFrame>, ghost sent: ControlSent)
      requires AllSmall(streamsWithControlFrames)
      modifies `streamsWithControlFrames, `controlFrames, `pathResponses
      ensures AllSmall(streamsWithControlFrames) && TotalLen(frames) <= maxLen
      ensures frames == Listing(sent) && TookControl(old(Control()), sent, Control())
      ensures OnlyForRoom(sent, Control(), maxLen)
    {
      var path := PopPathResponse(maxLen);
      var m, taken := TakeStreamFrames(streamsWithControlFrames, maxLen - TotalLen(path));
      var own := Seconds(taken);
      var rest, others := TakeLast(controlFrames, maxLen - TotalLen(path) - TotalLen(own));
      streamsWithControlFrames, controlFrames := m, rest;
      frames, sent := path + (own + others), ControlSent(path, taken, others);
      TotalLenThree(path, own, others);
    }

    method PopPathResponse(maxLen: nat) returns (path: seq<ControlFrame>)
      modifies `pathResponses
      ensures old(pathResponses) == path + pathResponses && |path| <= 1 && TotalLen(path) <= maxLen
      ensures path == [] ==> pathResponses == [] || |pathResponses[0]| > maxLen
    {
      path := [];
      if |pathResponses| > 0 && |pathResponses[0]| <= maxLen {
        path, pathResponses := [pathResponses[0]], pathResponses[1..];
        TotalLenAppend([], path[0]);
        assert [] + path == path;
      }
    }

    /** A frame of stream s that fits into maxLen bytes without its length field. */
    method PopFrom(s: SendStream, maxLen: nat) returns (p: Option<Packed>, blocked: Option<ControlFrame>, hasMore: bool)
      requires Member(s, s.id) && conn.flow.Valid() && MIN_STREAM_FRAME_SIZE <= maxLen <= MAX_VARINT_2
      modifies s, conn
      ensures Member(s, s.id) && conn.flow.Valid() && s.Stream() == old(s.Stream())
      ensures (hasMore || s.Idle() || s.finalError.Some?)
      ensures p.None? ==> s.Idle() || s.finalError.Some? || s.Credit() == 0
      ensures s.ledger.outstanding == old(s.ledger.outstanding) + if p.Some? then [p.value.frame] else []
      ensures p.Some? ==>
                ValidPacked(p.value) && p.value.withLen && p.value.id == s.id
                  && Length(s.id, p.value.frame, false) <= maxLen
      ensures Reports(blocked, s.id, |s.ledger.sent|)
    {
      var f, limit;
      f, limit, hasMore := s.PopStreamFrame(maxLen + Len(maxLen));
      p := if f.Some? then Some(Packed(s.id, f.value, true)) else None;
      blocked := if limit.Some? then Some(StreamDataBlocked(s.id, limit.value)) else None;
      if f.Some? {
        ShortFits(s.id, f.value, maxLen);
      }
    }

    /** The stream whose turn it is, unless it was removed. */
    ghost function Front(): set<SendStream>
      reads this
      requires |streamQueue| > 0
    {
      if streamQueue[0] in activeStreams then {activeStreams[streamQueue[0]]} else {}
    }

    /** A frame of the next stream. A stream with more data goes to the end of the queue; one
        that leaves has nothing left to send or was given up. */
    method NextStreamFrame(maxLen: nat) returns (p: Option<Packed>, blocked: Option<ControlFrame>)
      requires Valid() && |streamQueue| > 0 && MIN_STREAM_FRAME_SIZE <= maxLen <= MAX_VARINT_2
      modifies `streamQueue, `activeStreams, conn, Front()
      ensures Valid()
      ensures streamQueue == old(streamQueue)[1..]
              + if old(streamQueue)[0] in activeStreams then [old(streamQueue)[0]] else []
      ensures activeStreams == old(activeStreams) || activeStreams == old(activeStreams) - {old(streamQueue)[0]}
      ensures forall s :: s in old(Front()) ==>
                Member(s, old(streamQueue)[0]) && s.Stream() == old(s.Stream())
                  && (s.id in activeStreams || s.Idle() || s.finalError.Some?)
                  && (p.None? ==> s.Idle() || s.finalError.Some? || s.Credit() == 0)
      ensures blocked.Some? ==> old(Front()) != {} && |blocked.value| <= 17
      ensures forall s :: s in old(Front()) ==>
                s.ledger.outstanding == old(s.ledger.outstanding) + if p.Some? then [p.value.frame] else []
      ensures p.Some? ==>
                old(Front()) != {} && ValidPacked(p.value) && p.value.withLen && p.value.id == old(streamQueue)[0]
                          && Length(p.value.id, p.value.frame, false) <= maxLen
    {
      var id := streamQueue[0];
      var hasMore := false;
      p, blocked := None, None;
      if id in activeStreams {
        p, blocked, hasMore := PopFrom(activeStreams[id], maxLen);
      }
      Advance(hasMore);
    }

    /** The stream at the front of the queue goes to its end, or leaves. */
    method Advance(hasMore: bool)
      requires Valid() && |streamQueue| > 0 && (hasMore ==> streamQueue[0] in activeStreams)
      modifies `streamQueue, `activeStreams
      ensures Valid()
      ensures streamQueue == old(streamQueue)[1..] + if hasMore then [old(streamQueue)[0]] else []
      ensures activeStreams == if hasMore then old(activeStreams) else old(activeStreams) - {old(streamQueue)[0]}
    {
      var id := streamQueue[0];
      streamQueue := streamQueue[1..];
      if hasMore {
        streamQueue := streamQueue + [id];
      } else {
        activeStreams := activeStreams - {id};
      }
    }

    /** Where stream s stood before. */
    ghost function Snapshot(m: map<nat, SendStream>): (r: map<nat, Standing>)
      reads m.Values
      ensures r.Keys == m.Keys
    {
      map id | id in m :: Standing(m[id].Stream(), m[id].ledger.outstanding)
    }

    /** Stream s has handed out its frames among ps and lost nothing; if it left, it has
        nothing left to send or was given up. */
    ghost predicate Fed(s: SendStream, id: nat, was: Standing, ps: seq<Packed>)
      reads `activeStreams, s
    {
      && Member(s, id) && s.Stream() == was.data && s.ledger.outstanding == was.outstanding + Frames(ps, id)
      && (id in activeStreams || s.Idle() || s.finalError.Some?)
    }

    ghost predicate AllFed(m: map<nat, SendStream>, was: map<nat, Standing>, ps: seq<Packed>)
      reads `activeStreams, m.Values
      requires was.Keys == m.Keys
    {
      && activeStreams.Keys <= m.Keys && (forall id :: id in activeStreams ==> activeStreams[id] == m[id])
      && forall id :: id in m ==> Fed(m[id], id, was[id], ps)
    }

    method FeedNext(maxLen: nat, ghost m: map<nat, SendStream>, ghost was: map<nat, Standing>, ghost ps: seq<Packed>)
      returns (p: Option<Packed>, blocked: Option<ControlFrame>)
      requires Valid() && |streamQueue| > 0 && MIN_STREAM_FRAME_SIZE <= maxLen <= MAX_VARINT_2
      requires was.Keys == m.Keys && AllFed(m, was, ps)
      modifies `streamQueue, `activeStreams, conn, m.Values
      ensures Valid() && AllFed(m, was, ps + Listed(p))
      ensures streamQueue == old(streamQueue)[1..]
              + if old(streamQueue)[0] in activeStreams then [old(streamQueue)[0]] else []
      ensures p.Some? ==> ValidPacked(p.value) && p.value.withLen && Length(p.value.id, p.value.frame, false) <= maxLen
      ensures blocked.Some? ==> |blocked.value| <= 17
    {
      ghost var front := streamQueue[0];
      p, blocked := NextStreamFrame(maxLen);
      forall id | id in m ensures Fed(m[id], id, was[id], ps + Listed(p)) {
        FramesListed(was[id].outstanding, ps, p, id);
        assert old(Fed(m[id], id, was[id], ps));
        if id == front && id in old(activeStreams) {
          assert m[id] in old(Front());
        } else {
          assert m[id] !in old(Front());
        }
      }
    }

    /** STREAM frames, one stream after the other, until less than 128 bytes are left; and
        STREAM_DATA_BLOCKED frames, of which one that does not fit is postponed. */
    method AppendStreamFrames(maxLen: int, ghost m: map<nat, SendStream>, ghost was: map<nat, Standing>)
      returns (ps: seq<Packed>, extra: seq<ControlFrame>, remaining: int, postponed: seq<ControlFrame>, ghost k: nat,
               ghost requeued: seq<nat>)
      requires Valid() && maxLen <= MAX_VARINT_2 && was.Keys == m.Keys && AllFed(m, was, [])
      modifies `streamQueue, `activeStreams, conn, m.Values
      ensures Valid() && AllFed(m, was, ps) && FitSoFar(maxLen, ps, extra, remaining)
      ensures Rotated(old(streamQueue), k, requeued, streamQueue)
      ensures k == |old(streamQueue)| || remaining < MIN_STREAM_FRAME_SIZE
    {
      var n := |streamQueue|;
      k, requeued, postponed := 0, [], [];
      ps, extra, remaining := [], [], maxLen;
      assert streamQueue[0..] + [] == streamQueue;
      var i := 0;
      while i < n && postponed == [] && MIN_STREAM_FRAME_SIZE <= remaining
        invariant Valid() && AllFed(m, was, ps) && FitSoFar(maxLen, ps, extra, remaining)
        invariant postponed != [] ==> remaining < MIN_STREAM_FRAME_SIZE
        invariant i == k <= n == |old(streamQueue)| && Rotated(old(streamQueue), k, requeued, streamQueue)
      {
        RotatedFront(old(streamQueue), k, requeued, streamQueue);
        ps, extra, remaining, postponed, requeued :=
          Step(maxLen, m, was, ps, extra, remaining, old(streamQueue), k, requeued);
        i, k := i + 1, k + 1;
      }
    }

    /** DATA_BLOCKED, if the connection's credit has just been used up. */
    method ReportBlocked() returns (f: Option<ControlFrame>)
      requires conn.flow.Valid()
      modifies conn
      ensures conn.flow.Valid() && conn.flow.bytesSent == old(conn.flow.bytesSent)
      ensures f.Some? ==> conn.flow.SendWindowSize() == 0 && f.value == DataBlocked(conn.flow.sendWindow)
                          && old(conn.flow.lastBlockedAt) < conn.flow.sendWindow == conn.flow.lastBlockedAt
    {
      var limit := conn.IsNewlyBlocked();
      f := if limit.Some? then Some(DataBlocked(limit.value)) else None;
    }

    /** The STREAM frames and what reports of being blocked there are. */
    method AppendStreams(maxLen: nat, ghost m: map<nat, SendStream>, ghost was: map<nat, Standing>)
      returns (ps: seq<Packed>, extra: seq<ControlFrame>, postponed: seq<ControlFrame>, ghost k: nat,
               ghost requeued: seq<nat>)
      requires Valid() && maxLen <= MAX_VARINT_2 && was.Keys == m.Keys && AllFed(m, was, [])
      modifies `streamQueue, `activeStreams, conn, m.Values
      ensures Valid() && AllFed(m, was, ps) && Rotated(old(streamQueue), k, requeued, streamQueue)
      ensures Filled(maxLen, ps, extra, k == |old(streamQueue)|)
    {
      var ps0, remaining;
      ps0, extra, remaining, postponed, k, requeued := AppendStreamFrames(maxLen, m, was);
      extra, remaining, postponed := AppendBlocked(maxLen, m, was, ps0, extra, remaining, postponed);
      ps := Shortened(ps0);
      ShortenedFits(maxLen, ps0, extra, remaining, k == |old(streamQueue)|);
      ShortenedFed(m, was, ps0);
    }

    /** Adds DATA_BLOCKED if it is due, or postpones it if it does not fit. */
    method AppendBlocked(ghost maxLen: nat, ghost m: map<nat, SendStream>, ghost was: map<nat, Standing>,
                         ghost ps: seq<Packed>, extra0: seq<ControlFrame>, remaining0: int,
                         postponed0: seq<ControlFrame>)
      returns (extra: seq<ControlFrame>, remaining: int, postponed: seq<ControlFrame>)
      requires Valid() && FitSoFar(maxLen, ps, extra0, remaining0) && was.Keys == m.Keys && AllFed(m, was, ps)
      modifies conn
      ensures Valid() && AllFed(m, was, ps) && FitSoFar(maxLen, ps, extra, remaining) && remaining <= remaining0
    {
      extra, remaining, postponed := extra0, remaining0, postponed0;
      var blocked := ReportBlocked();
      if blocked.Some? && remaining >= |blocked.value| {
        FitBlocked(maxLen, ps, extra, remaining, blocked.value);
        extra, remaining := extra + [blocked.value], remaining - |blocked.value|;
      } else if blocked.Some? {
        postponed := postponed + [blocked.value];
      }
    }

    lemma ShortenedFed(m: map<nat, SendStream>, was: map<nat, Standing>, ps: seq<Packed>)
      requires was.Keys == m.Keys && AllFed(m, was, ps)
      ensures AllFed(m, was, Shortened(ps))
    {
      forall id | id in m ensures Fed(m[id], id, was[id], Shortened(ps)) {
        ShortenedFrames(ps, id);
      }
    }

    /** Fills at most maxLen bytes. The length returned is that of the frames as they are
        serialised; no control frame is lost or sent twice; every stream has handed out the
        STREAM frames that are in the packet, in order, and keeps the rest; every active
        stream had its turn, unless the packet is full. */
    method Append(maxLen: nat) returns (frames: seq<ControlFrame>, ps: seq<Packed>, length: nat, ghost log: PacketLog)
      requires Valid() && maxLen <= MAX_VARINT_2
      modifies this, conn, activeStreams.Values
      ensures log.was == old(Snapshot(activeStreams))
      ensures Valid() && AllFed(old(activeStreams), log.was, ps)
      ensures OnlyLastOpen(ps) && length == TotalLen(frames) + |Serialise(ps)| <= maxLen
      ensures maxLen <= MAX_PACKET_BUFFER_SIZE ==> ParseAll(Serialise(ps)) == Some(ps)
      ensures Rotated(old(streamQueue), log.turns, log.requeued, streamQueue)
      ensures frames == Listing(log.sent) + log.extra && TookControl(old(Control()), log.sent, log.left)
      ensures OnlyForRoom(log.sent, log.left, maxLen)
      ensures Control() == log.left.(others := log.left.others + log.postponed)
      ensures log.turns == |old(streamQueue)| || Full(maxLen - length)
    {
      ghost var was := Snapshot(activeStreams);
      var own, sent := BeginPacket(maxLen);
      log := PacketLog(was, sent, Control(), [], [], 0, []);
      frames, ps, length, log := FinishPacket(maxLen, own, log);
    }

    /** The STREAM frames after the control frames, and the length of them all. */
    method FinishPacket(maxLen: nat, own: seq<ControlFrame>, ghost begun: PacketLog)
      returns (frames: seq<ControlFrame>, ps: seq<Packed>, length: nat, ghost log: PacketLog)
      requires Valid() && TotalLen(own) <= maxLen <= MAX_VARINT_2
      requires begun.was.Keys == activeStreams.Keys && AllFed(activeStreams, begun.was, [])
      modifies `streamQueue, `activeStreams, `controlFrames, conn, activeStreams.Values
      ensures Valid() && AllFed(old(activeStreams), begun.was, ps)
      ensures OnlyLastOpen(ps) && length == TotalLen(frames) + |Serialise(ps)| <= maxLen
      ensures maxLen <= MAX_PACKET_BUFFER_SIZE ==> ParseAll(Serialise(ps)) == Some(ps)
      ensures log.was == begun.was && log.sent == begun.sent && log.left == begun.left
      ensures Rotated(old(streamQueue), log.turns, log.requeued, streamQueue) && frames == own + log.extra
      ensures Control() == old(Control()).(others := old(controlFrames) + log.postponed)
      ensures log.turns == |old(streamQueue)| || Full(maxLen - length)
    {
      var more, later;
      ghost var k, requeued;
      ps, more, later, k, requeued := AppendStreams(maxLen - TotalLen(own), activeStreams, begun.was);
      Postpone(later, old(activeStreams), begun.was, ps);
      Measured(own, more, ps);
      frames, length := own + more, TotalLen(own) + TotalLen(more) + StreamLen(ps);
      log := begun.(extra := more, postponed := later, turns := k, requeued := requeued);
    }

    method BeginPacket(maxLen: nat) returns (frames: seq<ControlFrame>, ghost sent: ControlSent)
      requires Valid()
      modifies `streamsWithControlFrames, `controlFrames, `pathResponses
      ensures Valid() && AllFed(activeStreams, old(Snapshot(activeStreams)), []) && TotalLen(frames) <= maxLen
      ensures frames == Listing(sent) && TookControl(old(Control()), sent, Control())
      ensures OnlyForRoom(sent, Control(), maxLen)
    {
      Unfed();
      frames, sent := AppendControlFrames(maxLen);
    }

    method Postpone(fs: seq<ControlFrame>, ghost m: map<nat, SendStream>, ghost was: map<nat, Standing>,
                    ghost ps: seq<Packed>)
      requires Valid() && was.Keys == m.Keys && AllFed(m, was, ps)
      modifies `controlFrames
      ensures Valid() && AllFed(m, was, ps) && Control() == old(Control()).(others := old(controlFrames) + fs)
    {
      controlFrames := controlFrames + fs;
    }

    lemma Unfed()
      requires Valid()
      ensures AllFed(activeStreams, Snapshot(activeStreams), [])
    {
      forall id | id in activeStreams ensures Fed(activeStreams[id], id, Snapshot(activeStreams)[id], []) {
        assert Member(activeStreams[id], id);
        assert activeStreams[id].ledger.outstanding + [] == activeStreams[id].ledger.outstanding;
      }
    }

    method Step(ghost maxLen: int, ghost m: map<nat, SendStream>, ghost was: map<nat, Standing>,
                ps0: seq<Packed>, extra0: seq<ControlFrame>, remaining0: int, ghost queue0: seq<nat>, ghost k: nat,
                ghost requeued0: seq<nat>)
      returns (ps: seq<Packed>, extra: seq<ControlFrame>, remaining: int, postponed: seq<ControlFrame>,
               ghost requeued: seq<nat>)
      requires Valid() && |streamQueue| > 0 && MIN_STREAM_FRAME_SIZE <= remaining0 <= MAX_VARINT_2
      requires was.Keys == m.Keys && AllFed(m, was, ps0) && FitSoFar(maxLen, ps0, extra0, remaining0)
      requires k < |queue0| && Rotated(queue0, k, requeued0, streamQueue)
      modifies `streamQueue, `activeStreams, conn, m.Values
      ensures Valid() && AllFed(m, was, ps) && FitSoFar(maxLen, ps, extra, remaining) && remaining <= remaining0
      ensures Rotated(queue0, k + 1, requeued, streamQueue)
      ensures postponed != [] ==> remaining < MIN_STREAM_FRAME_SIZE
    {
      ghost var id := streamQueue[0];
      var p, blocked := FeedNext(remaining0, m, was, ps0);
      requeued := requeued0 + if id in activeStreams then [id] else [];
      Rotate(queue0, k, requeued0, old(streamQueue), if id in activeStreams then [id] else []);
      ps, extra, remaining, postponed := ps0 + Listed(p), extra0, remaining0, [];
      if p.Some? {
        FitFrame(maxLen, ps0, extra, remaining, p.value);
        remaining := remaining - Size(p.value);
      } else {
        assert ps0 + [] == ps0;
      }
      if blocked.Some? {
        if remaining < |blocked.value| {
          postponed := [blocked.value];
        } else {
          FitBlocked(maxLen, ps, extra, remaining, blocked.value);
          extra, remaining := extra + [blocked.value], remaining - |blocked.value|;
        }
      }
    }
  }

  /** Only the last frame lacks its length field. */
  ghost predicate OnlyLastOpen(ps: seq<Packed>) {
    forall i :: 0 <= i < |ps| ==> ValidPacked(ps[i]) && ps[i].withLen == (i < |ps| - 1)
  }

  /** No room for a STREAM frame, but for the length field saved at the end. */
  ghost predicate Full(remaining: int) {
    remaining < MIN_STREAM_FRAME_SIZE + 8
  }

  /** The frames fit; there is no room for another unless all streams were served. */
  ghost predicate Filled(maxLen: nat, ps: seq<Packed>, extra: seq<ControlFrame>, served: bool) {
    && OnlyLastOpen(ps) && StreamLen(ps) + TotalLen(extra) <= maxLen
    && (served || Full(maxLen - StreamLen(ps) - TotalLen(extra)))
  }

  /** Without the last length field, everything fits. */
  lemma ShortenedFits(maxLen: nat, ps: seq<Packed>, extra: seq<ControlFrame>, remaining: int, served: bool)
    requires FitSoFar(maxLen, ps, extra, remaining) && (served || remaining < MIN_STREAM_FRAME_SIZE)
    ensures Filled(maxLen, Shortened(ps), extra, served)
  {
    if |ps| > 0 {
      var last := ps[|ps| - 1];
      StreamLenAppend(ps[..|ps| - 1], last.(withLen := false));
    }
  }

  lemma ShortenedFrames(ps: seq<Packed>, id: nat)
    ensures Frames(Shortened(ps), id) == Frames(ps, id)
  {
    if |ps| > 0 {
      FramesAppend(ps[..|ps| - 1], ps[|ps| - 1].(withLen := false), id);
    }
  }

  lemma {:induction false} FrameInside(ps: seq<Packed>, i: nat)
    requires (forall i :: 0 <= i < |ps| ==> ValidPacked(ps[i])) && i < |ps|
    ensures |ps[i].frame.chunk.data| <= StreamLen(ps)
    decreases |ps|
  {
    if i < |ps| - 1 {
      FrameInside(ps[..|ps| - 1], i);
    }
  }

  /** In a packet of at most the buffer size, the peer finds the frames again. */
  lemma PacketParses(ps: seq<Packed>)
    requires OnlyLastOpen(ps) && StreamLen(ps) <= MAX_PACKET_BUFFER_SIZE
    ensures ParseAll(Serialise(ps)) == Some(ps)
  {
    forall i | 0 <= i < |ps| ensures |ps[i].frame.chunk.data| <= MAX_PACKET_BUFFER_SIZE {
      FrameInside(ps, i);
    }
    ParseSerialised(ps);
  }

  lemma Measured(own: seq<ControlFrame>, extra: seq<ControlFrame>, ps: seq<Packed>)
    requires OnlyLastOpen(ps)
    ensures TotalLen(own + extra) + |Serialise(ps)| == TotalLen(own) + TotalLen(extra) + StreamLen(ps)
    ensures StreamLen(ps) <= MAX_PACKET_BUFFER_SIZE ==> ParseAll(Serialise(ps)) == Some(ps)
  {
    TotalLenConcat(own, extra);
    SerialisedLength(ps);
    if StreamLen(ps) <= MAX_PACKET_BUFFER_SIZE {
      PacketParses(ps);
    }
  }

  /** k streams had their turn; some of them went to the end of the queue. */
  ghost predicate Rotated(before: seq<nat>, k: nat, requeued: seq<nat>, after: seq<nat>) {
    k <= |before| && |requeued| <= k && after == before[k..] + requeued
  }

  lemma RotatedFront(before: seq<nat>, k: nat, requeued: seq<nat>, after: seq<nat>)
    requires Rotated(before, k, requeued, after) && k < |before|
    ensures |after| > 0
  {
  }

  lemma Rotate(before: seq<nat>, k: nat, requeued: seq<nat>, after: seq<nat>, again: seq<nat>)
    requires Rotated(before, k, requeued, after) && k < |before| && |again| <= 1
    ensures |after| > 0 && Rotated(before, k + 1, requeued + again, after[1..] + again)
  {
    assert after[1..] == before[k + 1..] + requeued;
  }

  /** What is left of maxLen; the last frame may exceed it by no more than its length field. */
  ghost predicate FitSoFar(maxLen: int, ps: seq<Packed>, extra: seq<ControlFrame>, remaining: int) {
    && (forall i :: 0 <= i < |ps| ==> ValidPacked(ps[i]) && ps[i].withLen)
    && remaining == maxLen - StreamLen(ps) - TotalLen(extra)
    && if |ps| == 0 then remaining >= Min(maxLen, 0) else remaining + Len(|ps[|ps| - 1].frame.chunk.data|) >= 0
  }

  lemma FitFrame(maxLen: int, ps: seq<Packed>, extra: seq<ControlFrame>, remaining: int, p: Packed)
    requires FitSoFar(maxLen, ps, extra, remaining) && ValidPacked(p) && p.withLen
    requires Length(p.id, p.frame, false) <= remaining
    ensures FitSoFar(maxLen, ps + [p], extra, remaining - Size(p))
  {
    StreamLenAppend(ps, p);
  }

  lemma FitBlocked(maxLen: int, ps: seq<Packed>, extra: seq<ControlFrame>, remaining: int, f: ControlFrame)
    requires FitSoFar(maxLen, ps, extra, remaining) && |f| <= remaining
    ensures FitSoFar(maxLen, ps, extra + [f], remaining - |f|)
  {
    TotalLenAppend(extra, f);
  }

  lemma FramesListed(out: seq<StreamFrame>, ps: seq<Packed>, p: Option<Packed>, id: nat)
    ensures out + Frames(ps + Listed(p), id) == (out + Frames(ps, id))
            + if p.Some? && p.value.id == id then [p.value.frame] else []
  {
    if p.Some? {
      FramesAppend(ps, p.value, id);
    } else {
      assert ps + [] == ps;
    }
  }

  /** The control frames of one packet, by where they came from. */
  datatype ControlSent = ControlSent(path: seq<ControlFrame>, ofStreams: seq<(nat, ControlFrame)>,
                                     others: seq<ControlFrame>)

  /** All of them, in the order of the packet. */
  ghost function Listing(sent: ControlSent): seq<ControlFrame> {
    sent.path + (Seconds(sent.ofStreams) + sent.others)
  }

  /** The control frames that wait. */
  datatype ControlQueues = ControlQueues(path: seq<ControlFrame>, ofStreams: map<nat, seq<ControlFrame>>,
                                         others: seq<ControlFrame>)

  /** Control frames wait only for lack of room, or for the one PATH_RESPONSE per packet. */
  ghost predicate OnlyForRoom(sent: ControlSent, left: ControlQueues, maxLen: int) {
    var room := maxLen - TotalLen(Listing(sent));
    && (sent.path == [] ==> left.path == [] || |left.path[0]| > maxLen)
    && (left.ofStreams == map[] || room <= MAX_STREAM_CONTROL_FRAME_SIZE)
    && (left.others == [] || room < |left.others[|left.others| - 1]|)
  }

  /** What was sent and what is left is what waited before. */
  ghost predicate TookControl(before: ControlQueues, sent: ControlSent, after: ControlQueues) {
    && before.path == sent.path + after.path && |sent.path| <= 1
    && TakenFrom(before.ofStreams, sent.ofStreams, after.ofStreams)
    && before.others == after.others + Reversed(sent.others)
  }

  /** What went into a packet besides its frames: where the streams stood, the control frames sent and
      left, the frames that report being blocked, sent or postponed, and the turns of the streams. */
  datatype PacketLog = PacketLog(was: map<nat, Standing>, sent: ControlSent, left: ControlQueues,
                                 extra: seq<ControlFrame>,
                                 postponed: seq<ControlFrame>, turns: nat, requeued: seq<nat>)

  datatype Standing = Standing(data: seq<Byte>, outstanding: seq<StreamFrame>)

  function Listed(p: Option<Packed>): seq<Packed> {
    if p.Some? then [p.value] else []
  }
}
