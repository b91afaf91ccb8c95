/** The frame layout of an Initial packet: CRYPTO data split at random, trimmed to a byte
    budget, padded, shuffled and serialised (u_quic_frames.go). */
module InitialLayout {
  import opened Protocol
  import opened Varint

  /** A frame of a layout.  Length 0 of a CRYPTO frame stands for the rest of the data. */
  datatype LayoutFrame = Ping | Padding(length: nat) | Crypto(offset: nat, length: nat)

  /** A frame as parsed back from the payload. */
  datatype WireFrame = WirePadding | WirePing | WireCrypto(offset: nat, data: seq<Byte>)

  // ----- serialising and parsing

  /** The length of frame f in a layout of n bytes that start at offset low. */
  function Effective(f: LayoutFrame, low: int, n: int): int
    requires f.Crypto?
  {
    if f.length == 0 then n - (f.offset - low) else f.length
  }

  /** Frame f lies inside the n bytes from offset low on. */
  predicate Inside(f: LayoutFrame, low: nat, n: nat) {
    f.Crypto? ==>
      && low <= f.offset && f.offset + Effective(f, low, n) <= low + n <= MAX_VARINT
      && 0 <= Effective(f, low, n)
  }

  function CryptoBytes(offset: nat, data: seq<Byte>): seq<Byte>
    requires offset <= MAX_VARINT && |data| <= MAX_VARINT
  {
    [6] + Encode(offset) + Encode(|data|) + data
  }

  function FrameBytes(f: LayoutFrame, low: nat, data: seq<Byte>): seq<Byte>
    requires Inside(f, low, |data|)
  {
    match f
    case Ping => [1]
    case Padding(n) => Zeros(n)
    case Crypto(offset, _) =>
      CryptoBytes(offset, data[offset - low..offset - low + Effective(f, low, |data|)])
  }

  predicate AllInside(fs: seq<LayoutFrame>, low: nat, n: nat) {
    forall i :: 0 <= i < |fs| ==> Inside(fs[i], low, n)
  }

  function LayoutBytes(fs: seq<LayoutFrame>, low: nat, data: seq<Byte>): seq<Byte>
    requires AllInside(fs, low, |data|)
  {
    if |fs| == 0 then [] else FrameBytes(fs[0], low, data) + LayoutBytes(fs[1..], low, data)
  }

  function PaddingFrames(n: nat): (r: seq<WireFrame>)
    ensures |r| == n && forall k :: 0 <= k < n ==> r[k] == WirePadding
  {
    seq(n, _ => WirePadding)
  }

  function Wire(f: LayoutFrame, low: nat, data: seq<Byte>): seq<WireFrame>
    requires Inside(f, low, |data|)
  {
    match f
    case Ping => [WirePing]
    case Padding(n) => PaddingFrames(n)
    case Crypto(offset, _) => [WireCrypto(offset, data[offset - low..offset - low + Effective(f, low, |data|)])]
  }

  function WireAll(fs: seq<LayoutFrame>, low: nat, data: seq<Byte>): seq<WireFrame>
    requires AllInside(fs, low, |data|)
  {
    if |fs| == 0 then [] else Wire(fs[0], low, data) + WireAll(fs[1..], low, data)
  }

  /** The parser of section 19 of RFC 9000 for PADDING, PING and CRYPTO. */
  function ParseFrames(b: seq<Byte>): Option<seq<WireFrame>> {
    if |b| == 0 then Some([])
    else if b[0] == 0 then Cons(WirePadding, ParseFrames(b[1..]))
    else if b[0] == 1 then Cons(WirePing, ParseFrames(b[1..]))
    else if b[0] == 6 then
      var off := Parse(b[1..]);
      if !off.Parsed? || |b| < 1 + off.consumed then None else
      var len := Parse(b[1 + off.consumed..]);
      if !len.Parsed? || |b| < 1 + off.consumed + len.consumed + len.value then None else
      var start := 1 + off.consumed + len.consumed;
      Cons(WireCrypto(off.value, b[start..start + len.value]), ParseFrames(b[start + len.value..]))
    else None
  }

  function Cons(f: WireFrame, rest: Option<seq<WireFrame>>): Option<seq<WireFrame>> {
    if rest.None? then None else Some([f] + rest.value)
  }

  lemma ParseCrypto(offset: nat, data: seq<Byte>, rest: seq<Byte>)
    requires offset <= MAX_VARINT && |data| <= MAX_VARINT
    ensures ParseFrames(CryptoBytes(offset, data) + rest) == Cons(WireCrypto(offset, data), ParseFrames(rest))
  {
    var b := CryptoBytes(offset, data) + rest;
    var o, l := Len(offset), Len(|data|);
    assert b[1..] == Encode(offset) + (Encode(|data|) + data + rest);
    ParseEncode(offset, Encode(|data|) + data + rest);
    assert b[1 + o..] == Encode(|data|) + (data + rest);
    ParseEncode(|data|, data + rest);
    assert b[1 + o + l..] == data + rest;
    assert b[1 + o + l..1 + o + l + |data|] == data;
    assert b[1 + o + l + |data|..] == rest;
  }

  lemma {:induction false} ParsePadding(n: nat, rest: seq<Byte>)
    requires ParseFrames(rest).Some?
    ensures ParseFrames(Zeros(n) + rest) == Some(PaddingFrames(n) + ParseFrames(rest).value)
  {
    var fs := ParseFrames(rest).value;
    if n == 0 {
      assert Zeros(0) + rest == rest;
      assert PaddingFrames(0) + fs == fs;
    } else {
      assert (Zeros(n) + rest)[1..] == Zeros(n - 1) + rest;
      ParsePadding(n - 1, rest);
      assert [WirePadding] + (PaddingFrames(n - 1) + fs) == PaddingFrames(n) + fs;
    }
  }

  lemma ParsePing(rest: seq<Byte>)
    ensures ParseFrames([1] + rest) == Cons(WirePing, ParseFrames(rest))
  {
    assert ([1] + rest)[1..] == rest;
  }

  lemma ParseOne(f: LayoutFrame, low: nat, data: seq<Byte>, rest: seq<Byte>)
    requires Inside(f, low, |data|) && ParseFrames(rest).Some?
    ensures ParseFrames(FrameBytes(f, low, data) + rest) == Some(Wire(f, low, data) + ParseFrames(rest).value)
  {
    if f.Ping? {
      ParsePing(rest);
    } else if f.Padding? {
      ParsePadding(f.length, rest);
    } else {
      ParseCrypto(f.offset, data[f.offset - low..f.offset - low + Effective(f, low, |data|)], rest);
    }
  }

  /** Parsing a serialised layout gives back its frames. */
  lemma {:induction false} ParseLayout(fs: seq<LayoutFrame>, low: nat, data: seq<Byte>)
    requires AllInside(fs, low, |data|)
    ensures ParseFrames(LayoutBytes(fs, low, data)) == Some(WireAll(fs, low, data))
  {
    if |fs| > 0 {
      ParseLayout(fs[1..], low, data);
      ParseOne(fs[0], low, data, LayoutBytes(fs[1..], low, data));
    }
  }

  // ----- order does not matter

  /** The CRYPTO frames among parsed frames, in no order. */
  function CryptoOf(ws: seq<WireFrame>): multiset<WireFrame> {
    if |ws| == 0 then multiset{}
    else (if ws[0].WireCrypto? then multiset{ws[0]} else multiset{}) + CryptoOf(ws[1..])
  }

  lemma {:induction false} CryptoOfConcat(a: seq<WireFrame>, b: seq<WireFrame>)
    ensures CryptoOf(a + b) == CryptoOf(a) + CryptoOf(b)
  {
    if |a| == 0 {
      assert a + b == b;
    } else {
      assert (a + b)[1..] == a[1..] + b;
      CryptoOfConcat(a[1..], b);
    }
  }

  lemma {:induction false} CryptoOfNone(a: seq<WireFrame>)
    requires forall i :: 0 <= i < |a| ==> !a[i].WireCrypto?
    ensures CryptoOf(a) == multiset{}
  {
    if |a| > 0 {
      CryptoOfNone(a[1..]);
    }
  }

  /** The CRYPTO frames of a layout. */
  function CryptoFrames(fs: seq<LayoutFrame>, low: nat, data: seq<Byte>): multiset<WireFrame>
    requires AllInside(fs, low, |data|)
  {
    if |fs| == 0 then multiset{} else CryptoOf(Wire(fs[0], low, data)) + CryptoFrames(fs[1..], low, data)
  }

  lemma {:induction false} CryptoFramesParsed(fs: seq<LayoutFrame>, low: nat, data: seq<Byte>)
    requires AllInside(fs, low, |data|)
    ensures CryptoOf(WireAll(fs, low, data)) == CryptoFrames(fs, low, data)
  {
    if |fs| > 0 {
      CryptoFramesParsed(fs[1..], low, data);
      CryptoOfConcat(Wire(fs[0], low, data), WireAll(fs[1..], low, data));
    }
  }

  lemma {:induction false} CryptoFramesConcat(a: seq<LayoutFrame>, b: seq<LayoutFrame>, low: nat, data: seq<Byte>)
    requires AllInside(a, low, |data|) && AllInside(b, low, |data|)
    ensures AllInside(a + b, low, |data|)
    ensures CryptoFrames(a + b, low, data) == CryptoFrames(a, low, data) + CryptoFrames(b, low, data)
  {
    if |a| == 0 {
      assert a + b == b;
    } else {
      assert (a + b)[1..] == a[1..] + b;
      CryptoFramesConcat(a[1..], b, low, data);
    }
  }

  function LayoutLength(fs: seq<LayoutFrame>, low: nat, n: nat): nat
    requires AllInside(fs, low, n)
  {
    if |fs| == 0 then 0 else FrameLength(fs[0], low, n) + LayoutLength(fs[1..], low, n)
  }

  function FrameLength(f: LayoutFrame, low: nat, n: nat): nat
    requires Inside(f, low, n)
  {
    match f
    case Ping => 1
    case Padding(l) => l
    case Crypto(offset, _) =>
      var l := Effective(f, low, n);
      1 + Len(offset) + Len(l) + l
  }

  lemma {:induction false} LayoutBytesLength(fs: seq<LayoutFrame>, low: nat, data: seq<Byte>)
    requires AllInside(fs, low, |data|)
    ensures |LayoutBytes(fs, low, data)| == LayoutLength(fs, low, |data|)
  {
    if |fs| > 0 {
      LayoutBytesLength(fs[1..], low, data);
    }
  }

  lemma {:induction false} LayoutLengthConcat(a: seq<LayoutFrame>, b: seq<LayoutFrame>, low: nat, n: nat)
    requires AllInside(a, low, n) && AllInside(b, low, n)
    ensures AllInside(a + b, low, n) && LayoutLength(a + b, low, n) == LayoutLength(a, low, n) + LayoutLength(b, low, n)
  {
    if |a| == 0 {
      assert a + b == b;
    } else {
      assert (a + b)[1..] == a[1..] + b;
      LayoutLengthConcat(a[1..], b, low, n);
    }
  }

  lemma InsideMember(fs: seq<LayoutFrame>, gs: seq<LayoutFrame>, low: nat, n: nat)
    requires multiset(fs) == multiset(gs) && AllInside(fs, low, n)
    ensures AllInside(gs, low, n)
  {
    forall i | 0 <= i < |gs| ensures Inside(gs[i], low, n) {
      assert gs[i] in multiset(fs);
    }
  }

  /** A shuffled layout has the same length and the same CRYPTO frames. */
  lemma {:induction false} ShuffleKeeps(fs: seq<LayoutFrame>, gs: seq<LayoutFrame>, low: nat, data: seq<Byte>)
    requires multiset(fs) == multiset(gs) && AllInside(fs, low, |data|) && AllInside(gs, low, |data|)
    ensures LayoutLength(fs, low, |data|) == LayoutLength(gs, low, |data|)
    ensures CryptoFrames(fs, low, data) == CryptoFrames(gs, low, data)
    decreases |fs|
  {
    if |fs| == 0 {
      assert |gs| == |multiset(gs)| == 0;
    } else {
      var k := RemoveFirst(fs, gs);
      var a, b := gs[..k], gs[k + 1..];
      ShuffleKeeps(fs[1..], a + b, low, data);
      SplitLayout(a, fs[0], b, low, data);
    }
  }

  lemma RemoveFirst<T>(fs: seq<T>, gs: seq<T>) returns (k: nat)
    requires multiset(fs) == multiset(gs) && |fs| > 0
    ensures k < |gs| && gs == gs[..k] + ([fs[0]] + gs[k + 1..])
    ensures multiset(fs[1..]) == multiset(gs[..k] + gs[k + 1..])
  {
    assert fs[0] in multiset(gs);
    k :| 0 <= k < |gs| && gs[k] == fs[0];
    assert gs == gs[..k] + ([fs[0]] + gs[k + 1..]);
    assert multiset(gs) == multiset(gs[..k]) + multiset([fs[0]] + gs[k + 1..]);
    assert multiset([fs[0]] + gs[k + 1..]) == multiset{fs[0]} + multiset(gs[k + 1..]);
    assert fs == [fs[0]] + fs[1..];
    var x, y := multiset(fs[1..]), multiset(gs[..k]) + multiset(gs[k + 1..]);
    assert x + multiset{fs[0]} == multiset(fs) == y + multiset{fs[0]};
    assert x == x + multiset{fs[0]} - multiset{fs[0]} && y == y + multiset{fs[0]} - multiset{fs[0]};
    assert multiset(gs[..k] + gs[k + 1..]) == y;
  }

  lemma SplitLayout(a: seq<LayoutFrame>, f: LayoutFrame, b: seq<LayoutFrame>, low: nat, data: seq<Byte>)
    requires AllInside(a, low, |data|) && AllInside(b, low, |data|) && Inside(f, low, |data|)
    ensures AllInside(a + ([f] + b), low, |data|) && AllInside(a + b, low, |data|)
    ensures LayoutLength(a + ([f] + b), low, |data|) == FrameLength(f, low, |data|) + LayoutLength(a + b, low, |data|)
    ensures CryptoFrames(a + ([f] + b), low, data) == CryptoOf(Wire(f, low, data)) + CryptoFrames(a + b, low, data)
  {
    assert ([f] + b)[1..] == b;
    LayoutLengthConcat(a, [f] + b, low, |data|);
    LayoutLengthConcat(a, b, low, |data|);
    CryptoFramesConcat(a, [f] + b, low, data);
    CryptoFramesConcat(a, b, low, data);
  }

  // ----- tiles

  /** Boundaries that cut the n bytes from offset base on into |b| - 1 consecutive pieces. */
  ghost predicate Cuts(b: seq<int>, base: nat, n: nat) {
    && |b| >= 2 && b[0] == base && b[|b| - 1] == base + n
    && forall i :: 0 <= i < |b| - 1 ==> CutAt(b, base, n, i)
  }

  ghost predicate CutAt(b: seq<int>, base: nat, n: nat, i: nat)
    requires i + 1 < |b|
  {
    base <= b[i] <= b[i + 1] <= base + n
  }

  /** The CRYPTO frames of the pieces from number i on: they carry consecutive slices of
      data, each byte once and at its own offset. */
  ghost function Tiles(b: seq<int>, base: nat, data: seq<Byte>, i: nat): multiset<WireFrame>
    requires Cuts(b, base, |data|) && i < |b|
    decreases |b| - i
  {
    if i + 1 == |b| then multiset{}
    else
      assert CutAt(b, base, |data|, i);
      multiset{WireCrypto(b[i], data[b[i] - base..b[i + 1] - base])} + Tiles(b, base, data, i + 1)
  }

  /** The bytes a CRYPTO frame takes besides its data; 0 for what no frame can hold. */
  ghost function Header(offset: int, length: int): nat {
    if 0 <= offset <= MAX_VARINT && 0 <= length <= MAX_VARINT then 1 + Len(offset) + Len(length) else 0
  }

  /** The bytes the frames from piece i on take besides their data. */
  ghost function Headers(b: seq<int>, i: nat): nat
    requires i < |b|
    decreases |b| - i
  {
    if i + 1 == |b| then 0 else Header(b[i], b[i + 1] - b[i]) + Headers(b, i + 1)
  }

  /** Frame i of fs stands for piece i, in a layout of n bytes. */
  ghost predicate PieceAt(fs: seq<LayoutFrame>, b: seq<int>, base: nat, n: nat, i: nat)
    requires i < |fs| && |b| == |fs| + 1
  {
    fs[i].Crypto? && fs[i].offset == b[i] && b[i] + Effective(fs[i], base, n) == b[i + 1]
  }

  ghost predicate Represents(fs: seq<LayoutFrame>, b: seq<int>, base: nat, n: nat) {
    |b| == |fs| + 1 && forall i :: 0 <= i < |fs| ==> PieceAt(fs, b, base, n, i)
  }

  lemma RepresentsInside(fs: seq<LayoutFrame>, b: seq<int>, base: nat, n: nat)
    requires Represents(fs, b, base, n) && Cuts(b, base, n) && base + n <= MAX_VARINT
    ensures AllInside(fs, base, n)
  {
    forall i | 0 <= i < |fs| ensures Inside(fs[i], base, n) {
      assert PieceAt(fs, b, base, n, i);
      assert CutAt(b, base, n, i);
    }
  }

  lemma {:induction false} RepresentsTiles(fs: seq<LayoutFrame>, b: seq<int>, base: nat, data: seq<Byte>, i: nat)
    requires Represents(fs, b, base, |data|) && Cuts(b, base, |data|) && AllInside(fs, base, |data|) && i <= |fs|
    ensures CryptoFrames(fs[i..], base, data) == Tiles(b, base, data, i)
    decreases |fs| - i
  {
    if i < |fs| {
      RepresentsTiles(fs, b, base, data, i + 1);
      OneTile(fs, b, base, data, i);
    }
  }

  lemma OneTile(fs: seq<LayoutFrame>, b: seq<int>, base: nat, data: seq<Byte>, i: nat)
    requires |b| == |fs| + 1 && Cuts(b, base, |data|) && AllInside(fs, base, |data|) && i < |fs|
    requires PieceAt(fs, b, base, |data|, i)
    requires AllInside(fs[i + 1..], base, |data|)
    requires CryptoFrames(fs[i + 1..], base, data) == Tiles(b, base, data, i + 1)
    ensures AllInside(fs[i..], base, |data|) && CryptoFrames(fs[i..], base, data) == Tiles(b, base, data, i)
  {
    OneCrypto(fs, i, base, data);
    assert CutAt(b, base, |data|, i);
    var tile := WireCrypto(b[i], data[b[i] - base..b[i + 1] - base]);
    assert fs[i].offset - base + Effective(fs[i], base, |data|) == b[i + 1] - base;
    assert Tiles(b, base, data, i) == multiset{tile} + Tiles(b, base, data, i + 1);
  }

  lemma {:induction false} RepresentsLength(fs: seq<LayoutFrame>, b: seq<int>, base: nat, n: nat, i: nat)
    requires Represents(fs, b, base, n) && Cuts(b, base, n) && AllInside(fs, base, n) && i <= |fs|
    ensures LayoutLength(fs[i..], base, n) == Headers(b, i) + (base + n - b[i])
    decreases |fs| - i
  {
    if i < |fs| {
      RepresentsLength(fs, b, base, n, i + 1);
      assert PieceAt(fs, b, base, n, i) && CutAt(b, base, n, i) && Inside(fs[i], base, n);
      assert fs[i..][1..] == fs[i + 1..];
    }
  }

  lemma OneCrypto(fs: seq<LayoutFrame>, i: nat, base: nat, data: seq<Byte>)
    requires i < |fs| && fs[i].Crypto? && AllInside(fs, base, |data|)
    ensures AllInside(fs[i..], base, |data|) && AllInside(fs[i + 1..], base, |data|)
    ensures var o, l := fs[i].offset - base, Effective(fs[i], base, |data|);
            0 <= o <= o + l <= |data| &&
            CryptoFrames(fs[i..], base, data) ==
              multiset{WireCrypto(fs[i].offset, data[o..o + l])} + CryptoFrames(fs[i + 1..], base, data)
  {
    assert Inside(fs[i], base, |data|);
    var w := Wire(fs[i], base, data);
    assert w[1..] == [];
    assert CryptoOf(w) == multiset{w[0]};
    assert fs[i..][1..] == fs[i + 1..];
  }

  // ----- trimming

  /** The share of a piece of cap bytes when r bytes are left and `later` pieces follow. */
  function Share(cap: nat, r: nat, later: nat): (l: nat)
    ensures l <= r && l <= cap
  {
    Min(cap, Min(r, Max(1, r - later)))
  }

  /** The boundaries b cut off pieces of these lengths. */
  ghost predicate CutOff(b: seq<int>, caps: seq<nat>) {
    |b| == |caps| + 1 && forall i :: 0 <= i < |caps| ==> b[i + 1] == b[i] + caps[i]
  }

  /** A split as the builder draws it: every piece has a byte, or there were too few bytes
      and the first pieces have one each. */
  ghost predicate Splittable(caps: seq<nat>) {
    (forall i :: 0 <= i < |caps| ==> caps[i] >= 1) || OneEach(caps)
  }

  ghost predicate OneEach(caps: seq<nat>) {
    && (forall i :: 0 <= i < |caps| ==> caps[i] <= 1)
    && (forall i, j :: 0 <= i < j < |caps| ==> caps[i] >= caps[j])
  }

  /** A split of n bytes, as boundaries and as lengths. */
  ghost predicate SplitOf(b: seq<int>, caps: seq<nat>, base: nat, n: nat) {
    && Cuts(b, base, n) && CutOff(b, caps) && Splittable(caps) && base + n <= MAX_VARINT
  }

  /** The boundary after piece i, once the split is trimmed to the first r bytes. */
  ghost predicate TrimAt(t: seq<int>, caps: seq<nat>, base: nat, r: nat, i: nat)
    requires i < |caps| && |t| == |caps| + 1
  {
    t[i] <= base + r && t[i + 1] == t[i] + Share(caps[i], base + r - t[i], |caps| - i - 1)
  }

  ghost predicate IsTrim(t: seq<int>, caps: seq<nat>, base: nat, r: nat) {
    |t| == |caps| + 1 && t[0] == base && forall i :: 0 <= i < |caps| ==> TrimAt(t, caps, base, r, i)
  }

  /** The trimmed boundaries, drawn piece by piece. */
  ghost function TrimFirst(caps: seq<nat>, base: nat, r: nat, k: nat): (t: seq<int>)
    requires k <= |caps|
    ensures |t| == k + 1 && t[0] == base && t[k] <= base + r
    ensures forall i :: 0 <= i < k ==>
            t[i] <= base + r && t[i + 1] == t[i] + Share(caps[i], base + r - t[i], |caps| - i - 1)
  {
    if k == 0 then [base]
    else
      var t := TrimFirst(caps, base, r, k - 1);
      t + [t[k - 1] + Share(caps[k - 1], base + r - t[k - 1], |caps| - k)]
  }

  ghost function Trim(caps: seq<nat>, base: nat, r: nat): (t: seq<int>)
    ensures IsTrim(t, caps, base, r)
  {
    TrimFirst(caps, base, r, |caps|)
  }

  lemma {:induction false} Rises(b: seq<int>, caps: seq<nat>, i: nat, j: nat)
    requires CutOff(b, caps) && i <= j <= |caps|
    ensures b[i] <= b[j]
  {
    if i < j {
      Rises(b, caps, i, j - 1);
    }
  }

  lemma {:induction false} Spread(b: seq<int>, caps: seq<nat>, i: nat, j: nat)
    requires CutOff(b, caps) && i <= j <= |caps| && forall k :: 0 <= k < |caps| ==> caps[k] >= 1
    ensures b[j] - b[i] >= j - i
  {
    if i < j {
      Spread(b, caps, i, j - 1);
    }
  }

  lemma {:induction false} Flat(b: seq<int>, caps: seq<nat>, i: nat, j: nat)
    requires CutOff(b, caps) && i < j <= |caps| && OneEach(caps) && caps[i] == 0
    ensures b[j] == b[i]
  {
    if i + 1 < j {
      Flat(b, caps, i, j - 1);
    }
  }

  /** Trimmed boundaries never get further behind the split than the bytes cut off, reach
      r exactly where a piece gets nothing, and follow the split if nothing is cut off. */
  lemma {:induction false} TrimBound(t: seq<int>, b: seq<int>, caps: seq<nat>, base: nat, n: nat, r: nat, i: nat)
    requires IsTrim(t, caps, base, r) && SplitOf(b, caps, base, n) && r <= n && i <= |caps|
    ensures base <= t[i] <= base + r && b[i] - t[i] <= n - r
    ensures i > 0 && t[i] == t[i - 1] ==> t[i] == base + r
    ensures r == n ==> t[i] == b[i]
  {
    if i > 0 {
      TrimBound(t, b, caps, base, n, r, i - 1);
      assert TrimAt(t, caps, base, r, i - 1);
      Rises(b, caps, i, |caps|);
      if caps[i - 1] == 0 {
        Flat(b, caps, i - 1, |caps|);
      } else if caps[i - 1] >= 2 {
        Spread(b, caps, i, |caps|);
      }
    }
  }

  /** Trimming cuts exactly the first r bytes, and nothing if r is all of them. */
  lemma TrimCuts(b: seq<int>, caps: seq<nat>, base: nat, n: nat, r: nat)
    requires SplitOf(b, caps, base, n) && r <= n
    ensures Cuts(Trim(caps, base, r), base, r) && (r == n ==> Trim(caps, base, r) == b)
  {
    var t := Trim(caps, base, r);
    TrimBound(t, b, caps, base, n, r, |caps|);
    forall i | 0 <= i < |caps| ensures CutAt(t, base, r, i) && (r == n ==> t[i] == b[i]) {
      TrimBound(t, b, caps, base, n, r, i);
      TrimBound(t, b, caps, base, n, r, i + 1);
      assert TrimAt(t, caps, base, r, i);
    }
  }

  lemma ShareMonotone(cap: nat, r: nat, r': nat, later: nat)
    requires r <= r'
    ensures Share(cap, r, later) <= Share(cap, r', later)
    ensures r - Share(cap, r, later) <= r' - Share(cap, r', later)
  {
  }

  /** A longer prefix has used more, and leaves more, after every piece. */
  lemma {:induction false} TrimMonotone(t: seq<int>, t': seq<int>, caps: seq<nat>, base: nat, r: nat, r': nat, i: nat)
    requires IsTrim(t, caps, base, r) && IsTrim(t', caps, base, r') && r <= r' && i <= |caps|
    ensures base <= t[i] <= t'[i] && t'[i] - t[i] <= r' - r
    ensures i > 0 ==> 0 <= t[i] - t[i - 1] <= t'[i] - t'[i - 1]
    ensures t'[i] <= base + r'
  {
    if i > 0 {
      TrimMonotone(t, t', caps, base, r, r', i - 1);
      assert TrimAt(t, caps, base, r, i - 1) && TrimAt(t', caps, base, r', i - 1);
      ShareMonotone(caps[i - 1], base + r - t[i - 1], base + r' - t'[i - 1], |caps| - i);
    }
  }

  lemma HeaderMonotone(offset: nat, length: nat, offset': nat, length': nat)
    requires offset <= offset' <= MAX_VARINT && length <= length' <= MAX_VARINT
    ensures Header(offset, length) <= Header(offset', length')
  {
  }

  /** The bytes other than data do not get fewer with a longer prefix. */
  lemma {:induction false} HeadersMonotone(t: seq<int>, t': seq<int>, caps: seq<nat>, base: nat, r: nat, r': nat,
                                           i: nat)
    requires IsTrim(t, caps, base, r) && IsTrim(t', caps, base, r') && r <= r' && base + r' <= MAX_VARINT && i <= |caps|
    ensures Headers(t, i) <= Headers(t', i)
    decreases |caps| - i
  {
    if i < |caps| {
      HeadersMonotone(t, t', caps, base, r, r', i + 1);
      TrimMonotone(t, t', caps, base, r, r', i);
      TrimMonotone(t, t', caps, base, r, r', i + 1);
      HeaderMonotone(t[i], t[i + 1] - t[i], t'[i], t'[i + 1] - t'[i]);
    }
  }

  /** The size of the trimmed layout with its PING frames. */
  ghost function PrefixSize(pings: nat, caps: seq<nat>, base: nat, r: nat): nat {
    pings + Headers(Trim(caps, base, r), 0) + r
  }

  /** The size grows by at least one for every byte of the prefix, so a search by halving
      finds the longest prefix that fits. */
  lemma PrefixSizeIncreasing(pings: nat, caps: seq<nat>, base: nat, r: nat, r': nat)
    requires r <= r' && base + r' <= MAX_VARINT
    ensures PrefixSize(pings, caps, base, r) + (r' - r) <= PrefixSize(pings, caps, base, r')
  {
    HeadersMonotone(Trim(caps, base, r), Trim(caps, base, r'), caps, base, r, r', 0);
  }

  /** Every frame header of a prefix of one byte has at most ten bytes. */
  lemma {:induction false} HeadersSmall(t: seq<int>, caps: seq<nat>, base: nat, r: nat, i: nat)
    requires IsTrim(t, caps, base, r) && r <= 1 && i <= |caps|
    ensures Headers(t, i) <= 10 * (|caps| - i)
    decreases |caps| - i
  {
    if i < |caps| {
      HeadersSmall(t, caps, base, r, i + 1);
      TrimMonotone(t, t, caps, base, r, r, i);
      TrimMonotone(t, t, caps, base, r, r, i + 1);
      assert Header(t[i], t[i + 1] - t[i]) <= 10;
    }
  }

  // ----- the builder

  function SubSat(a: nat, b: nat): nat {
    if b >= a then 0 else a - b
  }

  /** Any value from lo up to but not including hi; lo if there is none. */
  method RandomUint(lo: nat, hi: nat) returns (x: nat)
    ensures if hi <= lo then x == lo else lo <= x < hi
  {
    if hi <= lo {
      return lo;
    }
    x :| lo <= x < hi;
  }

  /** Splits n bytes from offset base on into num CRYPTO frames, the last of which takes the rest. */
  method SplitCrypto(num: nat, n: nat, base: nat) returns (fs: seq<LayoutFrame>, ghost b: seq<int>,
                     ghost caps: seq<nat>)
    requires num >= 1 && base + n <= MAX_VARINT
    ensures |fs| == num && Represents(fs, b, base, n) && SplitOf(b, caps, base, n)
  {
    fs, b, caps := [], [base], [];
    var left, off := n, 0;
    for i := 0 to num - 1
      invariant |fs| == i && left == n - off && 0 <= left && 0 <= off
      invariant Prefix(fs, b, caps, base, n, off)
      invariant n >= num ==> left >= num - i && forall k :: 0 <= k < i ==> caps[k] >= 1
      invariant n < num ==> left < num - i && OneEach(caps) && (left > 0 ==> forall k :: 0 <= k < i ==> caps[k] == 1)
    {
      var maxLen := SubSat(left, num - i - 2);
      var len := RandomUint(1, maxLen);
      if len > left {
        len := left;
      }
      AppendPiece(fs, b, caps, base, n, off, len, len);
      fs, b, caps := fs + [Crypto(base + off, len)], b + [base + off + len], caps + [len];
      off, left := off + len, left - len;
    }
    AppendPiece(fs, b, caps, base, n, off, 0, left);
    fs, b, caps := fs + [Crypto(base + off, 0)], b + [base + off + left], caps + [left];
    PrefixComplete(fs, b, caps, base, n);
  }

  /** The frames drawn so far stand for pieces of the first off bytes. */
  ghost predicate Prefix(fs: seq<LayoutFrame>, b: seq<int>, caps: seq<nat>, base: nat, n: nat, off: nat) {
    && |fs| == |caps| && Represents(fs, b, base, n) && CutOff(b, caps) && b[0] == base && b[|caps|] == base + off
    && forall i :: 0 <= i < |caps| ==> base <= b[i] <= base + off
  }

  lemma AppendPiece(fs: seq<LayoutFrame>, b: seq<int>, caps: seq<nat>, base: nat, n: nat, off: nat, len: nat, cap: nat)
    requires Prefix(fs, b, caps, base, n, off) && off + cap <= n
    requires if len == 0 then off + cap == n else len == cap
    ensures Prefix(fs + [Crypto(base + off, len)], b + [base + off + cap], caps + [cap], base, n, off + cap)
  {
    var gs, c := fs + [Crypto(base + off, len)], b + [base + off + cap];
    forall i | 0 <= i < |gs| ensures PieceAt(gs, c, base, n, i) {
      assert i < |fs| ==> PieceAt(fs, b, base, n, i);
    }
  }

  lemma PrefixComplete(fs: seq<LayoutFrame>, b: seq<int>, caps: seq<nat>, base: nat, n: nat)
    requires Prefix(fs, b, caps, base, n, n) && |fs| > 0
    ensures Cuts(b, base, n)
  {
    forall i | 0 <= i < |b| - 1 ensures CutAt(b, base, n, i) {
    }
  }

  /** Splits total bytes of padding into num frames. */
  method SplitPadding(num: nat, total: nat) returns (fs: seq<LayoutFrame>)
    requires num >= 1
    ensures |fs| == num && AllPadding(fs) && PaddingSum(fs) == total
  {
    fs := [];
    var left := total;
    for i := 0 to num - 1
      invariant |fs| == i && AllPadding(fs) && PaddingSum(fs) == total - left && 0 <= left
    {
      var maxLen := SubSat(left, num - i - 2);
      var len := RandomUint(1, maxLen);
      if len > left {
        len := left;
      }
      PaddingSumAppend(fs, len);
      fs, left := fs + [Padding(len)], left - len;
    }
    PaddingSumAppend(fs, left);
    fs := fs + [Padding(left)];
  }

  ghost predicate AllPadding(fs: seq<LayoutFrame>) {
    forall i :: 0 <= i < |fs| ==> fs[i].Padding?
  }

  ghost function PaddingSum(fs: seq<LayoutFrame>): nat
    requires AllPadding(fs)
  {
    if |fs| == 0 then 0 else fs[0].length + PaddingSum(fs[1..])
  }

  lemma {:induction false} PaddingSumAppend(fs: seq<LayoutFrame>, n: nat)
    requires AllPadding(fs)
    ensures AllPadding(fs + [Padding(n)]) && PaddingSum(fs + [Padding(n)]) == PaddingSum(fs) + n
  {
    var gs := fs + [Padding(n)];
    if |fs| > 0 {
      assert gs[1..] == fs[1..] + [Padding(n)];
      PaddingSumAppend(fs[1..], n);
    } else {
      assert gs[1..] == [];
    }
  }

  lemma {:induction false} PaddingLayout(fs: seq<LayoutFrame>, low: nat, data: seq<Byte>)
    requires AllPadding(fs)
    ensures AllInside(fs, low, |data|) && LayoutLength(fs, low, |data|) == PaddingSum(fs)
    ensures CryptoFrames(fs, low, data) == multiset{}
  {
    if |fs| > 0 {
      PaddingLayout(fs[1..], low, data);
      CryptoOfNone(Wire(fs[0], low, data));
    }
  }

  /** An arbitrary permutation, by swaps. */
  method Shuffle(fs: seq<LayoutFrame>) returns (gs: seq<LayoutFrame>)
    ensures multiset(gs) == multiset(fs)
  {
    gs := fs;
    var i := |fs|;
    while i > 1
      invariant 0 <= i <= |fs| == |gs| && multiset(gs) == multiset(fs)
    {
      i := i - 1;
      var j := RandomUint(0, i + 1);
      gs := gs[i := gs[j]][j := gs[i]];
    }
  }

  // ----- Build

  function LowestCrypto(fs: seq<LayoutFrame>): Option<nat> {
    if |fs| == 0 then None
    else
      var rest := LowestCrypto(fs[1..]);
      if fs[0].Crypto? && (rest.None? || fs[0].offset < rest.value) then Some(fs[0].offset) else rest
  }

  /** The offset that the start of the data has: the lowest of the CRYPTO frames. */
  function LowestOffset(fs: seq<LayoutFrame>): nat {
    var l := LowestCrypto(fs);
    if l.Some? then l.value else 0
  }

  lemma {:induction false} LowestIs(fs: seq<LayoutFrame>, base: nat, i: nat)
    requires i < |fs| && fs[i].Crypto? && fs[i].offset == base
    requires forall k :: 0 <= k < |fs| && fs[k].Crypto? ==> base <= fs[k].offset
    ensures LowestCrypto(fs) == Some(base)
  {
    LowestIn(fs[1..]);
    if i > 0 {
      LowestIs(fs[1..], base, i - 1);
    }
  }

  lemma {:induction false} LowestIn(fs: seq<LayoutFrame>)
    ensures LowestCrypto(fs).Some? ==>
              exists i :: 0 <= i < |fs| && fs[i].Crypto? && fs[i].offset == LowestCrypto(fs).value
  {
    if |fs| > 0 {
      LowestIn(fs[1..]);
      assert forall i :: 0 <= i < |fs[1..]| ==> fs[1..][i] == fs[i + 1];
    }
  }

  /** Without frames, a single CRYPTO frame is sent. */
  function Laid(fs: seq<LayoutFrame>): seq<LayoutFrame> {
    if |fs| == 0 then [Crypto(0, 0)] else fs
  }

  lemma Associative(a: seq<Byte>, b: seq<Byte>, c: seq<Byte>)
    ensures a + (b + c) == (a + b) + c
  {
  }

  lemma {:induction false} LayoutBytesAppend(fs: seq<LayoutFrame>, f: LayoutFrame, low: nat, data: seq<Byte>)
    requires AllInside(fs, low, |data|) && Inside(f, low, |data|)
    ensures AllInside(fs + [f], low, |data|)
    ensures LayoutBytes(fs + [f], low, data) == LayoutBytes(fs, low, data) + FrameBytes(f, low, data)
  {
    var gs := fs + [f];
    if |fs| > 0 {
      assert gs[1..] == fs[1..] + [f];
      LayoutBytesAppend(fs[1..], f, low, data);
      Associative(FrameBytes(fs[0], low, data), LayoutBytes(fs[1..], low, data), FrameBytes(f, low, data));
    } else {
      assert gs[1..] == [];
    }
  }

  method EncodeFrame(f: LayoutFrame, low: nat, data: seq<Byte>) returns (bytes: seq<Byte>)
    requires Inside(f, low, |data|)
    ensures bytes == FrameBytes(f, low, data)
  {
    match f {
      case Crypto(offset, _) =>
        var from, length := offset - low, f.length;
        if length == 0 {
          length := |data| - from;
        }
        bytes := [6] + Encode(offset) + Encode(length) + data[from..from + length];
      case Padding(n) => bytes := Zeros(n);
      case Ping => bytes := [1];
    }
  }

  method Build(frames: seq<LayoutFrame>, data: seq<Byte>) returns (payload: seq<Byte>)
    requires AllInside(Laid(frames), LowestOffset(Laid(frames)), |data|)
    ensures payload == LayoutBytes(Laid(frames), LowestOffset(Laid(frames)), data)
  {
    var fs := Laid(frames);
    var low := LowestOffset(fs);
    payload := [];
    for i := 0 to |fs|
      invariant payload == LayoutBytes(fs[..i], low, data)
    {
      var bytes := EncodeFrame(fs[i], low, data);
      LayoutBytesAppend(fs[..i], fs[i], low, data);
      assert fs[..i + 1] == fs[..i] + [fs[i]];
      payload := payload + bytes;
    }
    assert fs[..|fs|] == fs;
  }

  // ----- fitting the budget

  /** Computes the frames trimmed to r bytes, and their size. */
  method TrimTo(frames: seq<LayoutFrame>, ghost b: seq<int>, ghost caps: seq<nat>, pings: nat, base: nat, n: nat,
                r: nat)
    returns (size: nat, trimmed: seq<LayoutFrame>)
    requires Represents(frames, b, base, n) && SplitOf(b, caps, base, n) && r <= n
    ensures size == PrefixSize(pings, caps, base, r) && Represents(trimmed, Trim(caps, base, r), base, r)
  {
    size, trimmed := pings, [];
    var remaining, offset := r, base;
    ghost var t := Trim(caps, base, r);
    TrimCuts(b, caps, base, n, r);
    for i := 0 to |frames|
      invariant offset == t[i] && remaining == base + r - offset
      invariant Written(trimmed, t, i) && Sized(size, pings, t, base, i)
    {
      var length := TrimPiece(frames, i, remaining, b, caps, t, base, n, r);
      WrittenNext(trimmed, t, i, length);
      SizedNext(size, pings, t, base, i, length);
      trimmed := trimmed + [Crypto(offset, length)];
      size := size + 1 + Len(offset) + Len(length) + length;
      remaining, offset := remaining - length, offset + length;
    }
    WrittenOut(trimmed, b, caps, t, base, n, r);
  }

  /** The length of frame i once the frames are trimmed to r bytes. */
  method TrimPiece(frames: seq<LayoutFrame>, i: nat, remaining: nat, ghost b: seq<int>, ghost caps: seq<nat>,
                   ghost t: seq<int>,
                   base: nat, n: nat, ghost r: nat)
    returns (length: nat)
    requires Represents(frames, b, base, n) && SplitOf(b, caps, base, n) && r <= n && i < |frames|
    requires IsTrim(t, caps, base, r) && Cuts(t, base, r) && remaining == base + r - t[i]
    ensures base <= t[i] && t[i] + length == t[i + 1] <= base + r
  {
    TrimLoopStep(frames, b, caps, t, base, n, r, i);
    length := frames[i].length;
    if length == 0 {
      length := n - (frames[i].offset - base);
    }
    length := Share(length, remaining, |frames| - i - 1);
  }

  /** The size of the PINGs and the first i pieces. */
  ghost predicate Sized(size: int, pings: nat, t: seq<int>, base: nat, i: nat)
    requires i < |t|
  {
    size + Headers(t, i) == pings + Headers(t, 0) + (t[i] - base)
  }

  lemma SizedNext(size: int, pings: nat, t: seq<int>, base: nat, i: nat, length: nat)
    requires i + 1 < |t| && 0 <= t[i] && t[i] + length == t[i + 1] <= MAX_VARINT && Sized(size, pings, t, base, i)
    ensures Sized(size + 1 + Len(t[i]) + Len(length) + length, pings, t, base, i + 1)
  {
  }

  /** The frames of the first k pieces, with their lengths written out. */
  ghost predicate Written(fs: seq<LayoutFrame>, t: seq<int>, k: nat) {
    k < |t| && |fs| == k && forall i :: 0 <= i < k ==>
      fs[i].Crypto? && fs[i].offset == t[i] && t[i] + fs[i].length == t[i + 1]
  }

  lemma WrittenNext(fs: seq<LayoutFrame>, t: seq<int>, k: nat, length: nat)
    requires Written(fs, t, k) && k + 1 < |t| && 0 <= t[k] && t[k] + length == t[k + 1]
    ensures Written(fs + [Crypto(t[k], length)], t, k + 1)
  {
  }

  /** One round of the loop: the effective length of frame i, its share, and what the share adds. */
  lemma TrimLoopStep(frames: seq<LayoutFrame>, b: seq<int>, caps: seq<nat>, t: seq<int>, base: nat, n: nat, r: nat,
                     i: nat)
    requires Represents(frames, b, base, n) && SplitOf(b, caps, base, n) && r <= n && i < |frames|
    requires IsTrim(t, caps, base, r) && Cuts(t, base, r)
    ensures frames[i].Crypto? && Effective(frames[i], base, n) == caps[i] && base <= t[i] <= t[i + 1] <= base + r
    ensures t[i + 1] - t[i] == Share(caps[i], base + r - t[i], |frames| - i - 1)
    ensures Headers(t, i) == 1 + Len(t[i]) + Len(t[i + 1] - t[i]) + Headers(t, i + 1)
  {
    assert PieceAt(frames, b, base, n, i) && TrimAt(t, caps, base, r, i) && CutAt(t, base, r, i);
  }

  /** Frames with their lengths written out stand for the trimmed pieces: a piece is empty
      only at the end of the data, where length 0 means no byte. */
  lemma WrittenOut(fs: seq<LayoutFrame>, b: seq<int>, caps: seq<nat>, t: seq<int>, base: nat, n: nat, r: nat)
    requires SplitOf(b, caps, base, n) && r <= n && IsTrim(t, caps, base, r) && Written(fs, t, |caps|)
    ensures Represents(fs, t, base, r)
  {
    forall k | 0 <= k < |fs| ensures PieceAt(fs, t, base, r, k) {
      TrimBound(t, b, caps, base, n, r, k + 1);
    }
  }

  /** The longest prefix whose layout fits, by halving; none if not even one byte fits. */
  method LongestPrefix(frames: seq<LayoutFrame>, ghost b: seq<int>, ghost caps: seq<nat>, pings: nat, base: nat, n: nat,
                       maxSize: nat)
    returns (low: nat, fits: bool, trimmed: seq<LayoutFrame>)
    requires Represents(frames, b, base, n) && SplitOf(b, caps, base, n)
    ensures low <= n && Represents(trimmed, Trim(caps, base, low), base, low)
    ensures fits <==> PrefixSize(pings, caps, base, Min(1, n)) <= maxSize
    ensures fits ==> PrefixSize(pings, caps, base, low) <= maxSize
    ensures fits ==> forall r :: low < r <= n ==> PrefixSize(pings, caps, base, r) > maxSize
  {
    low := Min(1, n);
    var high, size := n, 0;
    size, trimmed := TrimTo(frames, b, caps, pings, base, n, low);
    fits := size <= maxSize;
    if !fits {
      return;
    }
    while low < high
      invariant Min(1, n) <= low <= high <= n
      invariant PrefixSize(pings, caps, base, low) <= maxSize
      invariant forall r :: high < r <= n ==> PrefixSize(pings, caps, base, r) > maxSize
    {
      var middle := low + (high - low + 1) / 2;
      size, trimmed := TrimTo(frames, b, caps, pings, base, n, middle);
      if size <= maxSize {
        low := middle;
      } else {
        forall r | middle <= r <= n ensures PrefixSize(pings, caps, base, r) > maxSize {
          PrefixSizeIncreasing(pings, caps, base, middle, r);
        }
        high := middle - 1;
      }
    }
    size, trimmed := TrimTo(frames, b, caps, pings, base, n, low);
  }

  // ----- the whole builder

  datatype RandomFrames = RandomFrames(minPing: nat, maxPing: nat, minCrypto: nat, maxCrypto: nat,
                                       minPadding: nat, maxPadding: nat, length: nat)

  predicate ValidBounds(spec: RandomFrames) {
    && spec.minPing <= spec.maxPing
    && 1 <= spec.minCrypto <= spec.maxCrypto
    && (spec.length != 0 ==> 1 <= spec.minPadding <= spec.maxPadding)
  }

  /** So many bytes hold one byte of data, however the split and the PINGs are drawn. */
  function Room(spec: RandomFrames): nat {
    spec.maxPing + 10 * spec.maxCrypto + 1
  }

  datatype BuildResult = BadBounds | OverBudget | Built(payload: seq<Byte>, consumed: nat)

  /** Every PING frame, every CRYPTO frame and no padding. */
  function PingFrames(n: nat): (fs: seq<LayoutFrame>)
    ensures |fs| == n && forall i :: 0 <= i < n ==> fs[i] == Ping
  {
    seq(n, _ => Ping)
  }

  lemma {:induction false} PingLayout(n: nat, low: nat, data: seq<Byte>)
    ensures AllInside(PingFrames(n), low, |data|) && LayoutLength(PingFrames(n), low, |data|) == n
    ensures CryptoFrames(PingFrames(n), low, data) == multiset{}
  {
    if n > 0 {
      PingLayout(n - 1, low, data);
      assert PingFrames(n)[1..] == PingFrames(n - 1);
      CryptoOfNone(Wire(Ping, low, data));
    }
  }

  /** PINGs, then CRYPTO frames that stand for these pieces, then padding. */
  lemma WholeLayout(pings: nat, fs: seq<LayoutFrame>, b: seq<int>, pads: seq<LayoutFrame>, base: nat, data: seq<Byte>)
    requires Represents(fs, b, base, |data|) && Cuts(b, base, |data|) && base + |data| <= MAX_VARINT
    requires AllPadding(pads)
    ensures var all := PingFrames(pings) + fs + pads;
            && AllInside(all, base, |data|) && LowestCrypto(all) == Some(base) && |all| > 0
            && LayoutLength(all, base, |data|) == pings + Headers(b, 0) + |data| + PaddingSum(pads)
            && CryptoFrames(all, base, data) == Tiles(b, base, data, 0)
  {
    var p := PingFrames(pings);
    RepresentsInside(fs, b, base, |data|);
    RepresentsTiles(fs, b, base, data, 0);
    RepresentsLength(fs, b, base, |data|, 0);
    assert fs[0..] == fs;
    PingLayout(pings, base, data);
    PaddingLayout(pads, base, data);
    LayoutLengthConcat(p, fs, base, |data|);
    LayoutLengthConcat(p + fs, pads, base, |data|);
    CryptoFramesConcat(p, fs, base, data);
    CryptoFramesConcat(p + fs, pads, base, data);
    var all := p + fs + pads;
    assert all[pings] == fs[0] && PieceAt(fs, b, base, |data|, 0);
    LowestIs(all, base, pings);
  }

  /** What a payload holds: CRYPTO frames that tile `data` from offset base on in these
      pieces, otherwise only PING and PADDING, and its length. */
  ghost predicate CarriesTiles(payload: seq<Byte>, b: seq<int>, base: nat, data: seq<Byte>) {
    && Cuts(b, base, |data|) && ParseFrames(payload).Some?
    && CryptoOf(ParseFrames(payload).value) == Tiles(b, base, data, 0)
  }

  /** Shuffles and serialises a layout. */
  method Assemble(pings: nat, fs: seq<LayoutFrame>, ghost b: seq<int>, pads: seq<LayoutFrame>, base: nat,
                  data: seq<Byte>)
    returns (payload: seq<Byte>)
    requires Represents(fs, b, base, |data|) && Cuts(b, base, |data|) && base + |data| <= MAX_VARINT && AllPadding(pads)
    ensures |payload| == pings + Headers(b, 0) + |data| + PaddingSum(pads)
    ensures CarriesTiles(payload, b, base, data)
  {
    var all := PingFrames(pings) + fs + pads;
    WholeLayout(pings, fs, b, pads, base, data);
    var shuffled := Shuffle(all);
    ShuffledLayout(all, shuffled, base, data);
    payload := Build(shuffled, data);
    ParseLayout(shuffled, base, data);
    CryptoFramesParsed(shuffled, base, data);
    LayoutBytesLength(shuffled, base, data);
  }

  /** The length of a layout without padding. */
  method DryRun(pings: nat, fs: seq<LayoutFrame>, ghost b: seq<int>, base: nat, data: seq<Byte>) returns (size: nat)
    requires Represents(fs, b, base, |data|) && Cuts(b, base, |data|) && base + |data| <= MAX_VARINT
    ensures size == pings + Headers(b, 0) + |data|
  {
    var all := PingFrames(pings) + fs;
    WholeLayout(pings, fs, b, [], base, data);
    assert all + [] == all;
    var payload := Build(all, data);
    LayoutBytesLength(all, base, data);
    size := |payload|;
  }

  /** A layout of CRYPTO frames alone, in order. */
  method BuildPlain(fs: seq<LayoutFrame>, ghost b: seq<int>, base: nat, data: seq<Byte>) returns (payload: seq<Byte>)
    requires Represents(fs, b, base, |data|) && Cuts(b, base, |data|) && base + |data| <= MAX_VARINT
    ensures CarriesTiles(payload, b, base, data) && |payload| == Headers(b, 0) + |data|
  {
    WholeLayout(0, fs, b, [], base, data);
    assert PingFrames(0) + fs + [] == fs;
    LayoutBytesLength(fs, base, data);
    payload := Build(fs, data);
    ParseLayout(fs, base, data);
    CryptoFramesParsed(fs, base, data);
  }

  lemma ShuffledLayout(fs: seq<LayoutFrame>, gs: seq<LayoutFrame>, base: nat, data: seq<Byte>)
    requires multiset(fs) == multiset(gs) && |fs| > 0 && AllInside(fs, base, |data|)
    requires LowestCrypto(fs) == Some(base)
    ensures |gs| == |fs| && AllInside(gs, base, |data|) && LowestOffset(gs) == base
    ensures LayoutLength(gs, base, |data|) == LayoutLength(fs, base, |data|)
    ensures CryptoFrames(gs, base, data) == CryptoFrames(fs, base, data)
  {
    assert |multiset(fs)| == |multiset(gs)|;
    InsideMember(fs, gs, base, |data|);
    ShuffleKeeps(fs, gs, base, data);
    LowestIn(fs);
    var i :| 0 <= i < |fs| && fs[i].Crypto? && fs[i].offset == base;
    assert fs[i] in multiset(gs);
    var j :| 0 <= j < |gs| && gs[j] == fs[i];
    LowestIs(gs, base, j);
  }

  /** With this split, r bytes fit the budget, at least one of them if there is any, and no
      longer prefix does. */
  ghost predicate Longest(pings: nat, caps: seq<nat>, base: nat, n: nat, maxSize: nat, r: nat) {
    && Min(1, n) <= r <= n && PrefixSize(pings, caps, base, r) <= maxSize
    && forall k :: r < k <= n ==> PrefixSize(pings, caps, base, k) > maxSize
  }

  /** With this split, not even one byte fits the budget. */
  ghost predicate NothingFits(pings: nat, caps: seq<nat>, base: nat, n: nat, maxSize: nat) {
    PrefixSize(pings, caps, base, n) > maxSize && forall k :: 0 < k <= n ==> PrefixSize(pings, caps, base, k) > maxSize
  }

  lemma RoomSuffices(spec: RandomFrames, pings: nat, caps: seq<nat>, base: nat, n: nat, maxSize: nat)
    requires NothingFits(pings, caps, base, n, maxSize) && pings <= spec.maxPing && |caps| <= spec.maxCrypto
    ensures maxSize < Room(spec)
  {
    var r := Min(1, n);
    HeadersSmall(Trim(caps, base, r), caps, base, r, 0);
    assert PrefixSize(pings, caps, base, r) > maxSize;
  }

  /** Trims a drawn split to the budget, if it is over. */
  method Fit(frames: seq<LayoutFrame>, ghost b: seq<int>, ghost caps: seq<nat>, pings: nat, base: nat, data: seq<Byte>,
             maxSize: nat)
    returns (fs: seq<LayoutFrame>, consumed: nat, fits: bool)
    requires Represents(frames, b, base, |data|) && SplitOf(b, caps, base, |data|)
    ensures !fits ==> NothingFits(pings, caps, base, |data|, maxSize)
    ensures fits ==> Longest(pings, caps, base, |data|, maxSize, consumed)
    ensures fits ==>
              Represents(fs, Trim(caps, base, consumed), base, consumed)
                && Cuts(Trim(caps, base, consumed), base, consumed)
  {
    var n := |data|;
    TrimCuts(b, caps, base, n, n);
    var size := DryRun(pings, frames, b, base, data);
    fs, consumed, fits := frames, n, true;
    if size > maxSize {
      consumed, fits, fs := LongestPrefix(frames, b, caps, pings, base, n, maxSize);
      if !fits {
        forall k | Min(1, n) <= k <= n ensures PrefixSize(pings, caps, base, k) > maxSize {
          PrefixSizeIncreasing(pings, caps, base, Min(1, n), k);
        }
      } else {
        TrimCuts(b, caps, base, n, consumed);
      }
    }
  }

  /** Lays out a prefix of data, as long as the budget allows, at offset base.  The split, the
      number of PINGs and the padding are arbitrary within the bounds. */
  method BuildAtWithLimit(spec: RandomFrames, data: seq<Byte>, base: nat, maxSize: nat)
    returns (r: BuildResult, ghost pings: nat, ghost b: seq<int>, ghost caps: seq<nat>)
    requires base + |data| <= MAX_VARINT
    ensures r.BadBounds? <==> !ValidBounds(spec)
    ensures !r.BadBounds? ==> SplitOf(b, caps, base, |data|)
    ensures r.OverBudget? ==> NothingFits(pings, caps, base, |data|, maxSize) && maxSize < Room(spec)
    ensures r.Built? ==> LaidOut(r.payload, r.consumed, spec, pings, caps, base, data, maxSize)
  {
    pings, b, caps := 0, [], [];
    if !ValidBounds(spec) {
      return BadBounds, pings, b, caps;
    }
    var numPing := RandomUint(spec.minPing, spec.maxPing);
    var numCrypto := RandomUint(spec.minCrypto, spec.maxCrypto);
    var frames;
    frames, b, caps := SplitCrypto(numCrypto, |data|, base);
    pings := numPing;
    r := LayOut(spec, frames, b, caps, numPing, base, data, maxSize);
    if r.OverBudget? {
      RoomSuffices(spec, numPing, caps, base, |data|, maxSize);
    }
  }

  /** The part after the split was drawn. */
  method LayOut(spec: RandomFrames, frames: seq<LayoutFrame>, ghost b: seq<int>, ghost caps: seq<nat>, pings: nat,
                base: nat, data: seq<Byte>, maxSize: nat) returns (r: BuildResult)
    requires ValidBounds(spec) && Represents(frames, b, base, |data|) && SplitOf(b, caps, base, |data|)
    ensures !r.BadBounds?
    ensures r.OverBudget? ==> NothingFits(pings, caps, base, |data|, maxSize)
    ensures r.Built? ==> LaidOut(r.payload, r.consumed, spec, pings, caps, base, data, maxSize)
  {
    var fs, consumed, fits := Fit(frames, b, caps, pings, base, data, maxSize);
    if !fits {
      return OverBudget;
    }
    var payload := PadPrefix(spec, fs, caps, pings, base, data, consumed, maxSize);
    r := Built(payload, consumed);
  }

  /** Pads the layout of the prefix that fits. */
  method PadPrefix(spec: RandomFrames, fs: seq<LayoutFrame>, ghost caps: seq<nat>, pings: nat, base: nat,
                   data: seq<Byte>, consumed: nat, maxSize: nat)
    returns (payload: seq<Byte>)
    requires ValidBounds(spec) && base + |data| <= MAX_VARINT
    requires Longest(pings, caps, base, |data|, maxSize, consumed)
    requires Represents(fs, Trim(caps, base, consumed), base, consumed)
    requires Cuts(Trim(caps, base, consumed), base, consumed)
    ensures LaidOut(payload, consumed, spec, pings, caps, base, data, maxSize)
  {
    var prefix := data[..consumed];
    assert |prefix| == consumed;
    payload := Pad(spec, pings, fs, Trim(caps, base, consumed), base, prefix, maxSize);
  }

  /** A built payload carries the longest prefix that fits, in consecutive pieces, and is
      padded to the configured length or the budget. */
  ghost predicate LaidOut(payload: seq<Byte>, consumed: nat, spec: RandomFrames, pings: nat, caps: seq<nat>,
                          base: nat, data: seq<Byte>, maxSize: nat)
  {
    && Longest(pings, caps, base, |data|, maxSize, consumed)
    && CarriesTiles(payload, Trim(caps, base, consumed), base, data[..consumed])
    && |payload| == Max(PrefixSize(pings, caps, base, consumed), Min(spec.length, maxSize)) <= maxSize
  }

  /** Adds padding up to the configured length or the budget, whichever is less. */
  method Pad(spec: RandomFrames, pings: nat, fs: seq<LayoutFrame>, ghost b: seq<int>, base: nat, data: seq<Byte>,
             maxSize: nat)
    returns (payload: seq<Byte>)
    requires ValidBounds(spec) && Represents(fs, b, base, |data|) && Cuts(b, base, |data|)
    requires base + |data| <= MAX_VARINT
    ensures |payload| == Max(pings + Headers(b, 0) + |data|, Min(spec.length, maxSize))
    ensures CarriesTiles(payload, b, base, data)
  {
    var size := DryRun(pings, fs, b, base, data);
    var pads := [];
    var padding := Min(spec.length, maxSize) - size;
    if padding > 0 {
      var num := RandomUint(spec.minPadding, spec.maxPadding);
      pads := SplitPadding(num, padding);
    }
    payload := Assemble(pings, fs, b, pads, base, data);
  }
}
