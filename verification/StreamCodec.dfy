/** STREAM frames as bytes (internal/wire/stream_frame.go; section 19.8 of RFC 9000). */
module StreamCodec {
  import opened Chunks
  import opened Protocol
  import opened SendStreams
  import opened Varint

  /** A STREAM frame of stream id, with or without a length field. */
  datatype Packed = Packed(id: nat, frame: StreamFrame, withLen: bool)

  ghost predicate ValidPacked(p: Packed) {
    p.id <= MAX_VARINT && ValidFrame(p.frame)
  }

  function Size(p: Packed): nat
    requires ValidPacked(p)
  {
    Length(p.id, p.frame, p.withLen)
  }

  function TypeByte(p: Packed): Byte {
    8 + (if p.frame.fin then 1 else 0) + (if p.withLen then 2 else 0) + if p.frame.chunk.offset != 0 then 4 else 0
  }

  /** A varint field that may be absent. */
  function EncodeField(present: bool, n: nat): (r: seq<Byte>)
    requires n <= MAX_VARINT
    ensures |r| == if present then Len(n) else 0
  {
    if present then Encode(n) else []
  }

  function ParseField(present: bool, b: seq<Byte>, absent: nat): (r: ParseResult)
    ensures r.Parsed? ==> r.consumed <= |b|
  {
    if present then Parse(b) else Parsed(absent, 0)
  }

  lemma ParseEncodeField(present: bool, n: nat, rest: seq<Byte>, absent: nat)
    requires n <= MAX_VARINT && (present || n == absent)
    ensures ParseField(present, EncodeField(present, n) + rest, absent) == Parsed(n, |EncodeField(present, n)|)
    ensures (EncodeField(present, n) + rest)[|EncodeField(present, n)|..] == rest
  {
    if present {
      ParseEncode(n, rest);
    }
  }

  // The parts of a frame, from the back to the front.

  function DataPart(c: Chunk, withLen: bool): (r: seq<Byte>)
    requires |c.data| <= MAX_VARINT
    ensures |r| == (if withLen then Len(|c.data|) else 0) + |c.data|
  {
    EncodeField(withLen, |c.data|) + c.data
  }

  function OffsetPart(c: Chunk, withLen: bool): (r: seq<Byte>)
    requires c.offset + |c.data| <= MAX_VARINT
    ensures |r| == (if c.offset != 0 then Len(c.offset) else 0) + |DataPart(c, withLen)|
  {
    EncodeField(c.offset != 0, c.offset) + DataPart(c, withLen)
  }

  function Append(p: Packed): (r: seq<Byte>)
    requires ValidPacked(p)
    ensures |r| == Size(p)
  {
    [TypeByte(p)] + (EncodeField(true, p.id) + OffsetPart(p.frame.chunk, p.withLen))
  }

  datatype FrameResult = Malformed | Frame(packed: Packed, rest: seq<Byte>)

  function ParseData(id: nat, offset: nat, hasLen: bool, fin: bool, b: seq<Byte>): (r: FrameResult)
    ensures r.Frame? ==> |r.rest| <= |b|
  {
    var len := ParseField(hasLen, b, |b|);
    if !len.Parsed? then Malformed
    else
      var data := b[len.consumed..];
      if len.value > |data| || len.value > MAX_PACKET_BUFFER_SIZE || offset + len.value > MAX_BYTE_COUNT then Malformed
      else Frame(Packed(id, StreamFrame(Chunk(offset, data[..len.value]), fin), hasLen), data[len.value..])
  }

  function ParseOffset(id: nat, hasOffset: bool, hasLen: bool, fin: bool, b: seq<Byte>): (r: FrameResult)
    ensures r.Frame? ==> |r.rest| <= |b|
  {
    var offset := ParseField(hasOffset, b, 0);
    if !offset.Parsed? then Malformed else ParseData(id, offset.value, hasLen, fin, b[offset.consumed..])
  }

  function ParseTyped(t: Byte, b: seq<Byte>): (r: FrameResult)
    ensures r.Frame? ==> |r.rest| <= |b|
  {
    if !(8 <= t < 16) then Malformed
    else
      var id := ParseField(true, b, 0);
      if !id.Parsed? then Malformed
      else ParseOffset(id.value, t >= 12, t % 4 >= 2, t % 2 == 1, b[id.consumed..])
  }

  /** Parses one frame; without a length field it takes all that is left. */
  function ParseFrame(b: seq<Byte>): (r: FrameResult)
    ensures r.Frame? ==> |r.rest| < |b|
  {
    if |b| == 0 then Malformed else ParseTyped(b[0], b[1..])
  }

  lemma DataRoundTrip(id: nat, c: Chunk, withLen: bool, fin: bool, tail: seq<Byte>)
    requires c.offset + |c.data| <= MAX_VARINT && |c.data| <= MAX_PACKET_BUFFER_SIZE && (withLen || tail == [])
    ensures ParseData(id, c.offset, withLen, fin, DataPart(c, withLen) + tail) ==
            Frame(Packed(id, StreamFrame(c, fin), withLen), tail)
  {
    var b := DataPart(c, withLen) + tail;
    assert b == EncodeField(withLen, |c.data|) + (c.data + tail);
    ParseEncodeField(withLen, |c.data|, c.data + tail, |b|);
    assert (c.data + tail)[..|c.data|] == c.data && (c.data + tail)[|c.data|..] == tail;
  }

  lemma OffsetRoundTrip(id: nat, c: Chunk, withLen: bool, fin: bool, tail: seq<Byte>)
    requires c.offset + |c.data| <= MAX_VARINT && |c.data| <= MAX_PACKET_BUFFER_SIZE && (withLen || tail == [])
    ensures ParseOffset(id, c.offset != 0, withLen, fin, OffsetPart(c, withLen) + tail) ==
            Frame(Packed(id, StreamFrame(c, fin), withLen), tail)
  {
    var rest := DataPart(c, withLen) + tail;
    assert OffsetPart(c, withLen) + tail == EncodeField(c.offset != 0, c.offset) + rest;
    ParseEncodeField(c.offset != 0, c.offset, rest, 0);
    DataRoundTrip(id, c, withLen, fin, tail);
  }

  lemma TypeBits(p: Packed)
    ensures var t := TypeByte(p);
            && 8 <= t < 16 && (t >= 12) == (p.frame.chunk.offset != 0)
            && (t % 4 >= 2) == p.withLen && (t % 2 == 1) == p.frame.fin
  {
  }

  lemma TypedRoundTrip(p: Packed, t: Byte, rest: seq<Byte>, tail: seq<Byte>)
    requires ValidPacked(p) && 8 <= t < 16 && (t >= 12) == (p.frame.chunk.offset != 0) && (t % 4 >= 2) == p.withLen
    requires (t % 2 == 1) == p.frame.fin
    requires ParseOffset(p.id, p.frame.chunk.offset != 0, p.withLen, p.frame.fin, rest) == Frame(p, tail)
    ensures ParseTyped(t, EncodeField(true, p.id) + rest) == Frame(p, tail)
  {
    ParseEncodeField(true, p.id, rest, 0);
  }

  lemma ParseFirst(p: Packed, tail: seq<Byte>)
    requires ValidPacked(p) && |p.frame.chunk.data| <= MAX_PACKET_BUFFER_SIZE && (p.withLen || tail == [])
    ensures ParseFrame(Append(p) + tail) == Frame(p, tail)
  {
    var c := p.frame.chunk;
    var rest := OffsetPart(c, p.withLen) + tail;
    OffsetRoundTrip(p.id, c, p.withLen, p.frame.fin, tail);
    TypeBits(p);
    TypedRoundTrip(p, TypeByte(p), rest, tail);
    Behind(TypeByte(p), EncodeField(true, p.id), OffsetPart(c, p.withLen), tail);
  }

  lemma Behind(t: Byte, a: seq<Byte>, b: seq<Byte>, c: seq<Byte>)
    ensures var all := [t] + (a + b) + c; |all| > 0 && all[0] == t && all[1..] == a + (b + c)
  {
  }

  function Serialise(ps: seq<Packed>): seq<Byte>
    requires forall i :: 0 <= i < |ps| ==> ValidPacked(ps[i])
  {
    if |ps| == 0 then [] else Append(ps[0]) + Serialise(ps[1..])
  }

  function ParseAll(b: seq<Byte>): (r: Option<seq<Packed>>)
    decreases |b|
  {
    if |b| == 0 then Some([])
    else
      match ParseFrame(b)
      case Malformed => None
      case Frame(p, rest) =>
        var more := ParseAll(rest);
        if more.None? then None else Some([p] + more.value)
  }

  /** Only the last frame may lack its length field. */
  ghost predicate Parsable(ps: seq<Packed>) {
    forall i :: 0 <= i < |ps| ==>
      && ValidPacked(ps[i]) && |ps[i].frame.chunk.data| <= MAX_PACKET_BUFFER_SIZE
      && (ps[i].withLen || i == |ps| - 1)
  }

  lemma ParsableTail(ps: seq<Packed>)
    requires Parsable(ps) && |ps| > 0
    ensures Parsable(ps[1..]) && (ps[0].withLen || ps[1..] == []) && [ps[0]] + ps[1..] == ps
  {
    assert forall i :: 0 <= i < |ps| - 1 ==> ps[1..][i] == ps[i + 1];
  }

  /** The peer parses the frames that were packed. */
  lemma {:induction false} ParseSerialised(ps: seq<Packed>)
    requires Parsable(ps)
    ensures ParseAll(Serialise(ps)) == Some(ps)
  {
    if |ps| > 0 {
      ParsableTail(ps);
      ParseSerialised(ps[1..]);
      var tail := Serialise(ps[1..]);
      ParseFirst(ps[0], tail);
      ParseAllStep(Append(ps[0]) + tail, ps[0], tail, ps[1..]);
    }
  }

  lemma ParseAllStep(b: seq<Byte>, p: Packed, rest: seq<Byte>, more: seq<Packed>)
    requires ParseFrame(b) == Frame(p, rest) && ParseAll(rest) == Some(more)
    ensures ParseAll(b) == Some([p] + more)
  {
  }
}
