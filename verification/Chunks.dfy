/** Bytes with their offsets in a stream, in pieces. */
module Chunks {
  import opened Protocol

  datatype Chunk = Chunk(offset: nat, data: seq<Byte>)

  /** How often byte v occurs at offset x in data that starts at offset off. */
  ghost function ByteCount(off: int, data: seq<Byte>, x: int, v: Byte): nat {
    if off <= x < off + |data| && data[x - off] == v then 1 else 0
  }

  ghost function ChunkCount(fs: seq<Chunk>, x: int, v: Byte): nat {
    if |fs| == 0 then 0 else ByteCount(fs[0].offset, fs[0].data, x, v) + ChunkCount(fs[1..], x, v)
  }

  lemma {:induction false} CountConcat(a: seq<Chunk>, b: seq<Chunk>, x: int, v: Byte)
    ensures ChunkCount(a + b, x, v) == ChunkCount(a, x, v) + ChunkCount(b, x, v)
  {
    if |a| == 0 {
      assert a + b == b;
    } else {
      assert (a + b)[1..] == a[1..] + b;
      CountConcat(a[1..], b, x, v);
    }
  }

  /** Frame i apart from the others. */
  lemma Without(fs: seq<Chunk>, i: nat, x: int, v: Byte)
    requires i < |fs|
    ensures ChunkCount(fs, x, v) == ChunkCount(fs[..i] + fs[i + 1..], x, v) + ChunkCount([fs[i]], x, v)
  {
    CountConcat(fs[..i], fs[i..], x, v);
    CountConcat(fs[..i], fs[i + 1..], x, v);
    assert fs == fs[..i] + fs[i..] && fs[i..][1..] == fs[i + 1..];
    assert [fs[i]][1..] == [];
  }
}
