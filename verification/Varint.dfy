/** QUIC variable-length integers (quicvarint/varint.go; section 16 of RFC 9000). */
module Varint {
  import opened Protocol

  const MAX_VARINT_1 := 63
  const MAX_VARINT_2 := 16383
  const MAX_VARINT_4 := 1073741823
  const MAX_VARINT := MAX_BYTE_COUNT

  datatype ParseResult = Eof | UnexpectedEof | Parsed(value: nat, consumed: nat)

  /** The number of bytes Append uses. */
  function Len(i: nat): (l: nat)
    requires i <= MAX_VARINT
    ensures l == 1 || l == 2 || l == 4 || l == 8
  {
    if i <= MAX_VARINT_1 then 1
    else if i <= MAX_VARINT_2 then 2
    else if i <= MAX_VARINT_4 then 4
    else 8
  }

  /** The largest value that fits into l bytes, less the two bits for the length. */
  function Capacity(l: nat): nat {
    if l == 1 then MAX_VARINT_1
    else if l == 2 then MAX_VARINT_2
    else if l == 4 then MAX_VARINT_4
    else MAX_VARINT
  }

  /** The two high bits of the first byte. */
  function LengthBits(l: nat): nat {
    if l == 1 then 0 else if l == 2 then 64 else if l == 4 then 128 else 192
  }

  function LengthFromFirst(b: Byte): (l: nat)
    ensures l == 1 || l == 2 || l == 4 || l == 8
  {
    if b < 64 then 1 else if b < 128 then 2 else if b < 192 then 4 else 8
  }

  /** The last k base-256 digits of n, most significant first. */
  function BigEndian(n: nat, k: nat): (r: seq<Byte>)
    ensures |r| == k
  {
    if k == 0 then [] else BigEndian(n / 256, k - 1) + [n % 256]
  }

  function FromBigEndian(b: seq<Byte>): nat {
    if |b| == 0 then 0 else FromBigEndian(b[..|b| - 1]) * 256 + b[|b| - 1]
  }

  function Pow256(k: nat): nat {
    if k == 0 then 1 else 256 * Pow256(k - 1)
  }

  /** i in exactly l bytes. */
  function EncodeIn(i: nat, l: nat): (r: seq<Byte>)
    requires (l == 1 || l == 2 || l == 4 || l == 8) && i <= Capacity(l)
    ensures |r| == l
  {
    FirstByteSmall(i, l);
    var digits := BigEndian(i, l);
    [LengthBits(l) + digits[0]] + digits[1..]
  }

  /** What Append adds to the buffer. */
  function Encode(i: nat): (r: seq<Byte>)
    requires i <= MAX_VARINT
    ensures |r| == Len(i)
  {
    EncodeIn(i, Len(i))
  }

  function Parse(b: seq<Byte>): ParseResult {
    if |b| == 0 then Eof
    else
      var l := LengthFromFirst(b[0]);
      if |b| < l then UnexpectedEof
      else Parsed(FromBigEndian([b[0] % 64] + b[1..l]), l)
  }

  lemma {:induction false} FirstDigitSmall(n: nat, k: nat)
    requires k > 0 && n < 64 * Pow256(k - 1)
    ensures BigEndian(n, k)[0] < 64
  {
    if k > 1 {
      FirstDigitSmall(n / 256, k - 1);
    }
  }

  lemma PowValues()
    ensures Pow256(0) == 1 && Pow256(1) == 256 && Pow256(2) == 65536 && Pow256(3) == 16777216 && Pow256(4) == 4294967296
    ensures Pow256(7) == 72057594037927936 && Pow256(8) == 18446744073709551616
  {
    assert Pow256(5) == 1099511627776 && Pow256(6) == 281474976710656;
  }

  lemma FirstByteSmall(i: nat, l: nat)
    requires (l == 1 || l == 2 || l == 4 || l == 8) && i <= Capacity(l)
    ensures BigEndian(i, l)[0] < 64 && i < Pow256(l)
  {
    PowValues();
    FirstDigitSmall(i, l);
  }

  lemma {:induction false} BigEndianRoundTrip(n: nat, k: nat)
    requires n < Pow256(k)
    ensures FromBigEndian(BigEndian(n, k)) == n
  {
    if k > 0 {
      BigEndianRoundTrip(n / 256, k - 1);
      var d := BigEndian(n, k);
      assert d[..k - 1] == BigEndian(n / 256, k - 1) && d[k - 1] == n % 256;
    }
  }

  lemma {:induction false} FromBigEndianRoundTrip(b: seq<Byte>)
    ensures FromBigEndian(b) < Pow256(|b|) && BigEndian(FromBigEndian(b), |b|) == b
  {
    if |b| > 0 {
      FromBigEndianRoundTrip(b[..|b| - 1]);
      assert b == b[..|b| - 1] + [b[|b| - 1]];
    }
  }

  /** Parsing undoes encoding, whatever follows, for every length that can hold the value. */
  lemma ParseEncodeIn(i: nat, l: nat, rest: seq<Byte>)
    requires (l == 1 || l == 2 || l == 4 || l == 8) && i <= Capacity(l)
    ensures Parse(EncodeIn(i, l) + rest) == Parsed(i, l)
  {
    FirstByteSmall(i, l);
    var e := EncodeIn(i, l);
    var b := e + rest;
    var digits := BigEndian(i, l);
    assert b[0] % 64 == digits[0] && b[1..l] == digits[1..];
    assert [b[0] % 64] + b[1..l] == digits;
    BigEndianRoundTrip(i, l);
  }

  lemma ParseEncode(i: nat, rest: seq<Byte>)
    requires i <= MAX_VARINT
    ensures Parse(Encode(i) + rest) == Parsed(i, Len(i))
  {
    ParseEncodeIn(i, Len(i), rest);
  }

  /** Encoding undoes parsing: what was parsed is the value in as many bytes as were read. */
  lemma EncodeInParse(b: seq<Byte>)
    requires Parse(b).Parsed?
    ensures var p := Parse(b);
            p.consumed <= |b| && p.value <= Capacity(p.consumed) && EncodeIn(p.value, p.consumed) == b[..p.consumed]
  {
    var l := LengthFromFirst(b[0]);
    var digits := [b[0] % 64] + b[1..l];
    DigitsFit(digits, l);
    assert b[..l] == [b[0]] + b[1..l];
    assert digits[1..] == b[1..l];
  }

  lemma DigitsFit(digits: seq<Byte>, l: nat)
    requires (l == 1 || l == 2 || l == 4 || l == 8) && |digits| == l && digits[0] < 64
    ensures FromBigEndian(digits) <= Capacity(l) && BigEndian(FromBigEndian(digits), l) == digits
  {
    FromBigEndianRoundTrip(digits);
    FromBigEndianSmall(digits);
    PowValues();
  }

  lemma {:induction false} FromBigEndianSmall(b: seq<Byte>)
    requires |b| > 0 && b[0] < 64
    ensures FromBigEndian(b) < 64 * Pow256(|b| - 1)
  {
    if |b| > 1 {
      FromBigEndianSmall(b[..|b| - 1]);
    } else {
      assert b[..0] == [];
    }
  }

  /** Append uses the shortest length that can hold the value. */
  lemma LenMinimal(i: nat, l: nat)
    requires i <= MAX_VARINT && (l == 1 || l == 2 || l == 4 || l == 8)
    ensures l < Len(i) <==> Capacity(l) < i
    ensures i <= Capacity(Len(i))
  {
  }

  /** AppendWithLen pads the shorter encoding with zero digits; it panics if the length is
      not one of the four, or too short. */
  method AppendWithLen(b: seq<Byte>, i: nat, length: nat) returns (r: Option<seq<Byte>>)
    requires i <= MAX_VARINT
    ensures r.None? <==> !(length == 1 || length == 2 || length == 4 || length == 8) || length < Len(i)
    ensures r.Some? ==> r.value == b + EncodeIn(i, length)
  {
    if length != 1 && length != 2 && length != 4 && length != 8 {
      return None;
    }
    var l := Len(i);
    if l == length {
      return Some(b + Encode(i));
    }
    if l > length {
      return None;
    }
    var out := b + [LengthBits(length)];
    for j := 1 to length - l
      invariant out == b + [LengthBits(length)] + Zeros(j - 1)
    {
      out := out + [0];
    }
    var digits := BigEndian(i, l);
    for j := 0 to l
      invariant out == b + [LengthBits(length)] + Zeros(length - l - 1) + digits[..j]
    {
      out := out + [digits[j]];
    }
    LongerEncoding(i, l, length);
    r := Some(out);
  }

  function Zeros(n: nat): (z: seq<Byte>)
    ensures |z| == n && forall k :: 0 <= k < n ==> z[k] == 0
  {
    seq(n, _ => 0)
  }

  lemma {:induction false} LeadingZeros(n: nat, l: nat, k: nat)
    requires l <= k && n < Pow256(l)
    ensures BigEndian(n, k) == Zeros(k - l) + BigEndian(n, l)
  {
    if l > 0 {
      LeadingZeros(n / 256, l - 1, k - 1);
    } else if k > 0 {
      LeadingZeros(n / 256, 0, k - 1);
      assert Zeros(k) == Zeros(k - 1) + [0];
    }
  }

  lemma LongerEncoding(i: nat, l: nat, length: nat)
    requires i <= MAX_VARINT && l == Len(i) && l < length && (length == 2 || length == 4 || length == 8)
    ensures i <= Capacity(length)
    ensures EncodeIn(i, length) == [LengthBits(length)] + Zeros(length - l - 1) + BigEndian(i, l)
  {
    FirstByteSmall(i, l);
    LeadingZeros(i, l, length);
    ZeroFirst(LengthBits(length), length - l, BigEndian(i, l));
  }

  lemma ZeroFirst(first: Byte, n: nat, rest: seq<Byte>)
    requires n > 0
    ensures var digits := Zeros(n) + rest;
            digits[0] == 0 && [first] + digits[1..] == [first] + Zeros(n - 1) + rest
  {
  }
}
