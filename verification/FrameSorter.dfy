/** Reassembly of one byte stream from frames that arrive in any order, with any
    overlap (frame_sorter.go).  The lemmas about values come first; the class that
    edits them in place follows. */
module FrameSorting {
  import opened Protocol

  const MAX_GAPS := 1000
  const MIN_BUFFER_SIZE := 128

  datatype Interval = Interval(start: int, end: int)

  /** A queued chunk and the callback that releases its buffer, named by a number. */
  datatype Entry = Entry(data: seq<Byte>, doneCb: Option<nat>)

  type Queue = map<int, Entry>

  // ----- gaps: the byte ranges not received yet

  ghost predicate ValidGaps(gaps: seq<Interval>) {
    && |gaps| > 0
    && 0 <= gaps[0].start
    && gaps[|gaps| - 1].end == MAX_BYTE_COUNT
    && Sorted(gaps)
  }

  /** Byte x is missing. */
  ghost predicate InGaps(gaps: seq<Interval>, x: int) {
    exists i :: 0 <= i < |gaps| && gaps[i].start <= x < gaps[i].end
  }

  /** The parts of g outside [a, b). */
  function CutOut(g: Interval, a: int, b: int): seq<Interval> {
    (if g.start < a then [Interval(g.start, Min(a, g.end))] else []) +
    (if b < g.end then [Interval(Max(b, g.start), g.end)] else [])
  }

  /** What a frame [start, end) leaves of the gap it starts in, before its end is looked at. */
  function StartPiece(g: Interval, start: int, end: int): seq<Interval> {
    if start <= g.start then
      if end >= g.end then [] else [Interval(end, g.end)]
    else
      [Interval(g.start, Min(start, g.end))]
  }

  /** What the frame leaves of the gap it ends in, besides that. */
  function EndPiece(g: Interval, h: Interval, same: bool, start: int, end: int): seq<Interval> {
    if end >= h.end || (same && start <= g.start) then [] else [Interval(end, h.end)]
  }

  /** The gaps that remain once [a, b) has been received. */
  function Subtract(gaps: seq<Interval>, a: int, b: int): seq<Interval> {
    if |gaps| == 0 then [] else CutOut(gaps[0], a, b) + Subtract(gaps[1..], a, b)
  }

  lemma {:induction false} SubtractConcat(xs: seq<Interval>, ys: seq<Interval>, a: int, b: int)
    ensures Subtract(xs + ys, a, b) == Subtract(xs, a, b) + Subtract(ys, a, b)
  {
    if |xs| == 0 {
      assert xs + ys == ys;
    } else {
      assert (xs + ys)[1..] == xs[1..] + ys;
      SubtractConcat(xs[1..], ys, a, b);
    }
  }

  lemma {:induction false} SubtractOutside(gaps: seq<Interval>, a: int, b: int)
    requires a < b
    requires forall i :: 0 <= i < |gaps| ==> gaps[i].start < gaps[i].end
    requires forall i :: 0 <= i < |gaps| ==> gaps[i].end <= a || b <= gaps[i].start
    ensures Subtract(gaps, a, b) == gaps
  {
    if |gaps| > 0 {
      SubtractOutside(gaps[1..], a, b);
      assert CutOut(gaps[0], a, b) == [gaps[0]];
      assert gaps == [gaps[0]] + gaps[1..];
    }
  }

  lemma {:induction false} SubtractInside(gaps: seq<Interval>, a: int, b: int)
    requires forall i :: 0 <= i < |gaps| ==> a <= gaps[i].start && gaps[i].end <= b
    ensures Subtract(gaps, a, b) == []
  {
    if |gaps| > 0 {
      SubtractInside(gaps[1..], a, b);
    }
  }

  lemma SubtractSplit(gaps: seq<Interval>, i: int, a: int, b: int)
    requires 0 <= i < |gaps|
    ensures Subtract(gaps, a, b) ==
            Subtract(gaps[..i], a, b) + (CutOut(gaps[i], a, b) + Subtract(gaps[i + 1..], a, b))
  {
    assert gaps == gaps[..i] + gaps[i..];
    SubtractConcat(gaps[..i], gaps[i..], a, b);
    assert gaps[i..][1..] == gaps[i + 1..];
  }

  /** Only a gap that [a, b) meets changes. */
  lemma SubtractOne(gaps: seq<Interval>, i: int, a: int, b: int)
    requires a < b && 0 <= i < |gaps| && Sorted(gaps)
    requires forall k :: 0 <= k < i ==> gaps[k].end <= a
    requires forall k :: i < k < |gaps| ==> b <= gaps[k].start
    ensures Subtract(gaps, a, b) == gaps[..i] + (CutOut(gaps[i], a, b) + gaps[i + 1..])
  {
    SubtractSplit(gaps, i, a, b);
    SubtractOutside(gaps[..i], a, b);
    SubtractOutside(gaps[i + 1..], a, b);
  }

  /** Of a run of gaps i..j that [a, b) meets, at most the two ends survive. */
  lemma SubtractMany(gaps: seq<Interval>, i: int, j: int, a: int, b: int)
    requires a < b && 0 <= i < j < |gaps| && Sorted(gaps)
    requires forall k :: 0 <= k < i ==> gaps[k].end <= a
    requires forall k :: i < k < j ==> a <= gaps[k].start && gaps[k].end <= b
    requires forall k :: j < k < |gaps| ==> b <= gaps[k].start
    ensures Subtract(gaps, a, b) ==
            gaps[..i] + (CutOut(gaps[i], a, b) + (CutOut(gaps[j], a, b) + gaps[j + 1..]))
  {
    SubtractAfter(gaps, i, j, a, b);
    SubtractSplit(gaps, i, a, b);
    SubtractOutside(gaps[..i], a, b);
  }

  lemma SubtractAfter(gaps: seq<Interval>, i: int, j: int, a: int, b: int)
    requires a < b && 0 <= i < j < |gaps| && Sorted(gaps)
    requires forall k :: i < k < j ==> a <= gaps[k].start && gaps[k].end <= b
    requires forall k :: j < k < |gaps| ==> b <= gaps[k].start
    ensures Subtract(gaps[i + 1..], a, b) == CutOut(gaps[j], a, b) + gaps[j + 1..]
  {
    SubtractThree(gaps[i + 1..j], gaps[j], gaps[j + 1..], a, b);
    assert gaps[i + 1..] == gaps[i + 1..j] + ([gaps[j]] + gaps[j + 1..]);
  }

  lemma SubtractThree(inside: seq<Interval>, g: Interval, after: seq<Interval>, a: int, b: int)
    requires a < b
    requires forall k :: 0 <= k < |inside| ==> a <= inside[k].start && inside[k].end <= b
    requires forall k :: 0 <= k < |after| ==> b <= after[k].start < after[k].end
    ensures Subtract(inside + ([g] + after), a, b) == CutOut(g, a, b) + after
  {
    SubtractConcat(inside, [g] + after, a, b);
    SubtractInside(inside, a, b);
    assert ([g] + after)[1..] == after;
    SubtractOutside(after, a, b);
  }

  /** The two pieces that the edits of the gap list leave add up to Subtract. */
  lemma SubtractPieces(gaps: seq<Interval>, i: int, j: int, start: int, end: int, r: seq<Interval>, n: int)
    requires ValidGaps(gaps) && 0 <= i <= j < |gaps| && start < end && gaps[i].start < end
    requires FirstReaching(gaps, i, start)
    requires gaps[j].start <= end && (j + 1 < |gaps| ==> end < gaps[j + 1].start)
    requires 0 <= n <= |r| && r[..n] == gaps[..i] + StartPiece(gaps[i], start, end)
    requires r[n..] == EndPiece(gaps[i], gaps[j], i == j, start, end) + gaps[j + 1..]
    requires 0 <= start && end < MAX_BYTE_COUNT
    ensures r == Subtract(gaps, start, end) && Difference(gaps, start, end, r)
  {
    PiecesSubtract(gaps, i, j, start, end, r, n);
    SubtractDifference(gaps, start, end);
  }

  lemma PiecesSubtract(gaps: seq<Interval>, i: int, j: int, start: int, end: int, r: seq<Interval>, n: int)
    requires Sorted(gaps) && 0 <= i <= j < |gaps| && start < end && gaps[i].start < end
    requires FirstReaching(gaps, i, start)
    requires gaps[j].start <= end && (j + 1 < |gaps| ==> end < gaps[j + 1].start)
    requires 0 <= n <= |r| && r[..n] == gaps[..i] + StartPiece(gaps[i], start, end)
    requires r[n..] == EndPiece(gaps[i], gaps[j], i == j, start, end) + gaps[j + 1..]
    ensures r == Subtract(gaps, start, end)
  {
    var first, last := StartPiece(gaps[i], start, end), EndPiece(gaps[i], gaps[j], i == j, start, end);
    JoinPieces(r, n, gaps[..i], first, last, gaps[j + 1..]);
    PiecesCut(gaps[i], gaps[j], i == j, start, end);
    if i == j {
      SubtractOne(gaps, i, start, end);
    } else {
      SubtractMany(gaps, i, j, start, end);
    }
  }

  lemma PiecesCut(g: Interval, h: Interval, same: bool, start: int, end: int)
    requires g.start < g.end && h.start < h.end && start < end && g.start < end && start <= g.end && h.start <= end
    requires if same then g == h else g.end <= h.start
    ensures var first, last := StartPiece(g, start, end), EndPiece(g, h, same, start, end);
            if same then first + last == CutOut(g, start, end)
              else first == CutOut(g, start, end) && last == CutOut(h, start, end)
  {
  }

  lemma SameTail<T>(r: seq<T>, n: int, s: seq<T>, m: int)
    requires 0 <= n < |r| && 0 <= m <= |s| && r[n..] == s[m..]
    ensures m < |s| && r[n] == s[m] && r[n + 1..] == s[m + 1..]
  {
    assert r[n] == r[n..][0] && r[n + 1..] == r[n..][1..] && |r[n..]| == |r| - n;
    assert s[m + 1..] == s[m..][1..];
  }

  lemma JoinPieces<T>(r: seq<T>, n: int, a: seq<T>, b: seq<T>, c: seq<T>, d: seq<T>)
    requires 0 <= n <= |r| && r[..n] == a + b && r[n..] == c + d
    ensures r == a + (b + (c + d)) && r == a + ((b + c) + d)
  {
    assert r == r[..n] + r[n..];
  }

  lemma SubtractDifference(gaps: seq<Interval>, a: int, b: int)
    requires ValidGaps(gaps) && 0 <= a < b < MAX_BYTE_COUNT
    ensures Difference(gaps, a, b, Subtract(gaps, a, b))
  {
    SubtractValid(gaps, a, b);
    SubtractLength(gaps, a, b);
    forall x ensures InGaps(Subtract(gaps, a, b), x) <==> InGaps(gaps, x) && !(a <= x < b) {
      SubtractRemoves(gaps, a, b, x);
    }
  }

  /** Subtract is set difference on the missing bytes, ... */
  lemma {:induction false} SubtractRemoves(gaps: seq<Interval>, a: int, b: int, x: int)
    requires a < b
    requires forall i :: 0 <= i < |gaps| ==> gaps[i].start < gaps[i].end
    ensures InGaps(Subtract(gaps, a, b), x) <==> InGaps(gaps, x) && !(a <= x < b)
  {
    if |gaps| > 0 {
      var first, rest := CutOut(gaps[0], a, b), Subtract(gaps[1..], a, b);
      SubtractRemoves(gaps[1..], a, b, x);
      InGapsConcat(first, rest, x);
      InGapsConcat([gaps[0]], gaps[1..], x);
      assert gaps == [gaps[0]] + gaps[1..];
      assert InGaps([gaps[0]], x) <==> gaps[0].start <= x < gaps[0].end by {
        assert [gaps[0]][0] == gaps[0];
      }
      CutOutRemoves(gaps[0], a, b, x);
    }
  }

  lemma CutOutRemoves(g: Interval, a: int, b: int, x: int)
    requires a < b && g.start < g.end
    ensures InGaps(CutOut(g, a, b), x) <==> g.start <= x < g.end && !(a <= x < b)
  {
    var c := CutOut(g, a, b);
    if g.start <= x < a && x < g.end {
      assert c[0].start <= x < c[0].end;
    }
    if b <= x < g.end && g.start <= x {
      assert c[|c| - 1].start <= x < c[|c| - 1].end;
    }
  }

  lemma InGapsConcat(xs: seq<Interval>, ys: seq<Interval>, x: int)
    ensures InGaps(xs + ys, x) <==> InGaps(xs, x) || InGaps(ys, x)
  {
    var zs := xs + ys;
    if InGaps(xs, x) {
      var i :| 0 <= i < |xs| && xs[i].start <= x < xs[i].end;
      assert zs[i] == xs[i];
    }
    if InGaps(ys, x) {
      var i :| 0 <= i < |ys| && ys[i].start <= x < ys[i].end;
      assert zs[|xs| + i] == ys[i];
    }
  }

  /** ... and keeps the gaps sorted, non-empty and non-touching. */
  lemma SubtractValid(gaps: seq<Interval>, a: int, b: int)
    requires ValidGaps(gaps) && 0 <= a < b < MAX_BYTE_COUNT
    ensures ValidGaps(Subtract(gaps, a, b))
  {
    SubtractSorted(gaps, a, b);
    SubtractEnd(gaps, a, b);
  }

  lemma SubtractEnd(gaps: seq<Interval>, a: int, b: int)
    requires |gaps| > 0 && b < gaps[|gaps| - 1].end
    ensures var s := Subtract(gaps, a, b);
            |s| > 0 && s[|s| - 1].end == gaps[|gaps| - 1].end
  {
    var n := |gaps| - 1;
    assert gaps == gaps[..n] + [gaps[n]];
    SubtractConcat(gaps[..n], [gaps[n]], a, b);
    assert Subtract([gaps[n]], a, b) == CutOut(gaps[n], a, b);
  }

  ghost predicate Sorted(gaps: seq<Interval>) {
    && (forall i :: 0 <= i < |gaps| ==> gaps[i].start < gaps[i].end)
    && (forall i, j :: 0 <= i < j < |gaps| ==> gaps[i].end < gaps[j].start)
  }

  lemma {:induction false} SubtractSorted(gaps: seq<Interval>, a: int, b: int)
    requires a < b && Sorted(gaps)
    ensures Sorted(Subtract(gaps, a, b))
    ensures forall i :: 0 <= i < |Subtract(gaps, a, b)| ==>
                          |gaps| > 0 && gaps[0].start <= Subtract(gaps, a, b)[i].start
  {
    if |gaps| > 0 {
      SubtractSorted(gaps[1..], a, b);
      var first, rest := CutOut(gaps[0], a, b), Subtract(gaps[1..], a, b);
      assert Sorted(first) && forall i :: 0 <= i < |first| ==>
        gaps[0].start <= first[i].start && first[i].end <= gaps[0].end;
      assert Subtract(gaps, a, b) == first + rest;
    }
  }

  /** Gap i is the first one whose end is not below x. */
  ghost predicate FirstReaching(gaps: seq<Interval>, i: int, x: int) {
    0 <= i < |gaps| && x <= gaps[i].end && forall k :: 0 <= k < i ==> gaps[k].end < x
  }

  /** [a, b) lies strictly inside a gap. */
  ghost predicate Splits(gaps: seq<Interval>, a: int, b: int) {
    a < b && exists i :: 0 <= i < |gaps| && gaps[i].start < a && b < gaps[i].end
  }

  /** Only a frame strictly inside a gap makes one more of them. */
  lemma {:induction false} SubtractLength(gaps: seq<Interval>, a: int, b: int)
    requires a < b && Sorted(gaps)
    ensures OneMore(gaps, a, b, Subtract(gaps, a, b))
  {
    if |gaps| > 0 {
      var rest := gaps[1..];
      SubtractLength(rest, a, b);
      assert forall i :: 0 < i < |gaps| ==> gaps[i] == rest[i - 1];
      if gaps[0].start < a && b < gaps[0].end {
        SubtractOutside(rest, a, b);
      } else if Splits(gaps, a, b) {
        var i :| 0 <= i < |gaps| && gaps[i].start < a && b < gaps[i].end;
        assert rest[i - 1].start < a && b < rest[i - 1].end;
      }
    }
  }

  ghost predicate OneMore(before: seq<Interval>, a: int, b: int, after: seq<Interval>) {
    if Splits(before, a, b) then |after| == |before| + 1 else |after| <= |before|
  }

  /** The gaps `after` are `before` without [a, b): still sorted, non-empty and non-touching,
      and one more than before exactly if [a, b) lies strictly inside one. */
  ghost predicate Difference(before: seq<Interval>, a: int, b: int, after: seq<Interval>) {
    && ValidGaps(after) && OneMore(before, a, b, after)
    && forall x :: InGaps(after, x) <==> InGaps(before, x) && !(a <= x < b)
  }

  // ----- the queue: chunks of received data

  ghost predicate Covers(queue: Queue, k: int, x: int) {
    k in queue && k <= x < k + |queue[k].data|
  }

  ghost predicate Covered(queue: Queue, x: int) {
    exists k :: Covers(queue, k, x)
  }

  /** The chunks partition the bytes at or above readPos that are in no gap. */
  ghost predicate Partition(queue: Queue, readPos: int, gaps: seq<Interval>) {
    && Disjoint(queue)
    && (forall k :: k in queue ==> readPos <= k && k + |queue[k].data| <= MAX_BYTE_COUNT)
    && (forall x :: readPos <= x < MAX_BYTE_COUNT ==> (Covered(queue, x) <==> !InGaps(gaps, x)))
  }

  lemma CoveredBy(queue: Queue, k: int)
    requires k in queue
    ensures forall x :: k <= x < k + |queue[k].data| ==> Covered(queue, x)
  {
    forall x | k <= x < k + |queue[k].data| ensures Covered(queue, x) {
      assert Covers(queue, k, x);
    }
  }

  ghost predicate Disjoint(queue: Queue) {
    && (forall k :: k in queue ==> 0 < |queue[k].data|)
    && (forall k, l :: k in queue && l in queue && k < l ==> k + |queue[k].data| <= l)
  }

  /** No chunk has x strictly inside. */
  ghost predicate Boundary(queue: Queue, x: int) {
    forall k :: k in queue ==> !(k < x < k + |queue[k].data|)
  }

  /** Between two gaps there are no chunks, or they cover everything. */
  ghost predicate RegionReady(queue: Queue, a: int, b: int) {
    (forall k :: a <= k < b ==> k !in queue) || (forall x :: a <= x < b ==> Covered(queue, x))
  }

  /** Gaps i..j hold no chunk starts, their ends are boundaries, and the regions between
      them are ready for deletion. */
  ghost predicate Separated(queue: Queue, gaps: seq<Interval>, i: int, j: int)
    requires 0 <= i <= j < |gaps|
  {
    && (forall k :: i <= k <= j ==> Boundary(queue, gaps[k].start) && Boundary(queue, gaps[k].end))
    && (forall k, x :: i <= k <= j && gaps[k].start <= x < gaps[k].end ==> x !in queue)
    && (forall k :: i <= k < j ==> RegionReady(queue, gaps[k].end, gaps[k + 1].start))
  }

  /** With the chunks between gaps i and m gone, the region after gap m can be deleted next. */
  lemma RegionAfterDelete(queue: Queue, gaps: seq<Interval>, i: int, j: int, m: int)
    requires Sorted(gaps) && Disjoint(queue) && 0 <= i <= m < j < |gaps| && Separated(queue, gaps, i, j)
    ensures var q, a, b := Without(queue, gaps[i].end, gaps[m].start), gaps[m].end, gaps[m + 1].start;
            && Disjoint(q) && b !in q && Boundary(q, a) && Boundary(q, b) && RegionReady(q, a, b)
            && Without(q, a, b) == Without(queue, gaps[i].end, b)
  {
    var q, a, b := Without(queue, gaps[i].end, gaps[m].start), gaps[m].end, gaps[m + 1].start;
    assert RegionReady(queue, a, b);
    ReadyWithout(queue, gaps[i].end, gaps[m].start, a, b);
    assert forall x :: gaps[m].start <= x < a ==> x !in queue;
    WithoutBoth(queue, gaps[i].end, gaps[m].start, a, b);
  }

  lemma WithoutBoth(queue: Queue, from: int, to: int, a: int, b: int)
    requires from <= a <= b && to <= a && forall x :: to <= x < a && from <= x ==> x !in queue
    ensures Without(Without(queue, from, to), a, b) == Without(queue, from, b)
  {
  }

  /** Deleting chunks below a boundary leaves the region above it ready. */
  lemma ReadyWithout(queue: Queue, from: int, to: int, a: int, b: int)
    requires Disjoint(queue) && to <= a && Boundary(queue, a) && RegionReady(queue, a, b)
    ensures RegionReady(Without(queue, from, to), a, b)
  {
    var q := Without(queue, from, to);
    if k :| a <= k < b && k in queue {
      forall x | a <= x < b ensures Covered(q, x) {
        assert Covered(queue, x);
        var l :| Covers(queue, l, x);
        assert Covers(q, l, x);
      }
    }
  }

  lemma FirstRegion(queue: Queue, gaps: seq<Interval>, i: int, j: int)
    requires Sorted(gaps) && Disjoint(queue) && 0 <= i < j < |gaps| && Separated(queue, gaps, i, j)
    ensures gaps[i].end < gaps[i + 1].start && gaps[i + 1].start !in queue
    ensures Boundary(queue, gaps[i].end) && Boundary(queue, gaps[i + 1].start)
    ensures RegionReady(queue, gaps[i].end, gaps[i + 1].start)
  {
    RegionAfterDelete(queue, gaps, i, j, i);
    assert Without(queue, gaps[i].end, gaps[i].start) == queue;
  }

  /** Deleting the chunk at p is deleting up to its end. */
  lemma ConsecutiveStep(queue: Queue, pos: int, p: int, to: int)
    requires Disjoint(queue) && pos <= p <= to && p in queue && to !in queue && Boundary(queue, to)
    ensures var e := p + |queue[p].data|;
            p < e <= to && Boundary(queue, e) && Without(queue, pos, p) - {p} == Without(queue, pos, e)
  {
    NextBoundary(queue, pos, p);
  }

  /** The chunk at p ends at a boundary, and no other starts before. */
  lemma NextBoundary(queue: Queue, pos: int, p: int)
    requires Disjoint(queue) && pos <= p && p in queue
    ensures var e := p + |queue[p].data|;
            p < e && Boundary(queue, e) && Without(queue, pos, p) - {p} == Without(queue, pos, e)
  {
    var e := p + |queue[p].data|;
    forall k | k in queue ensures !(p < k < e) && !(k < e < k + |queue[k].data|) {
      assert p < k ==> e <= k;
      assert k < p ==> k + |queue[k].data| <= p;
    }
  }

  /** The first chunk left covers its bytes, and without it all up to its end are gone. */
  lemma NextChunk(queue: Queue, left: Queue, from: int, p: int)
    requires Disjoint(queue) && from <= p && left == Without(queue, from, p) && p in left
    ensures var e := p + |left[p].data|;
            && p in queue && queue[p] == left[p] && p < e
            && Boundary(queue, e) && left - {p} == Without(queue, from, e)
            && forall x :: p <= x < e ==> Covered(queue, x)
  {
    NextBoundary(queue, from, p);
    CoveredBy(queue, p);
  }

  /** If no chunk starts at p, there is none up to `to` either. */
  lemma ConsecutiveEnd(queue: Queue, pos: int, p: int, to: int)
    requires Disjoint(queue) && pos <= p <= to && p !in queue && Boundary(queue, p) && RegionReady(queue, pos, to)
    ensures Without(queue, pos, p) == Without(queue, pos, to)
  {
    assert p < to ==> !Covered(queue, p);
  }

  function Without(queue: Queue, a: int, b: int): Queue {
    map k | k in queue && !(a <= k < b) :: queue[k]
  }

  /** The start and the end of a gap, and every byte in it, are chunk boundaries. */
  lemma GapIsBoundary(queue: Queue, readPos: int, gaps: seq<Interval>, i: int, x: int)
    requires ValidGaps(gaps) && Partition(queue, readPos, gaps) && readPos <= gaps[0].start
    requires 0 <= i < |gaps| && gaps[i].start <= x <= gaps[i].end
    ensures Boundary(queue, x)
  {
    forall k | k in queue ensures !(k < x < k + |queue[k].data|) {
      if k < x < k + |queue[k].data| {
        var y := if x < gaps[i].end then x else x - 1;
        assert readPos <= k <= y;
        assert Covers(queue, k, y);
        assert InGaps(gaps, y);
        assert false;
      }
    }
  }

  /** A received byte on a chunk boundary is where a chunk starts. */
  lemma ChunkAt(queue: Queue, readPos: int, gaps: seq<Interval>, x: int)
    requires Partition(queue, readPos, gaps) && readPos <= x < MAX_BYTE_COUNT
    requires Boundary(queue, x) && !InGaps(gaps, x)
    ensures x in queue
  {
    assert Covered(queue, x);
    var k :| Covers(queue, k, x);
  }

  /** The chunk [s, e) of a frame [a, b) can be stored: s and e are boundaries and all the
      missing bytes of the frame lie in [s, e). */
  ghost predicate Storable(queue: Queue, readPos: int, gaps: seq<Interval>, after: seq<Interval>,
                           a: int, b: int, s: int, e: int)
  {
    && ValidGaps(gaps) && Partition(queue, readPos, gaps) && readPos <= gaps[0].start
    && Difference(gaps, a, b, after)
    && a <= s < e <= b < MAX_BYTE_COUNT && readPos <= s
    && Boundary(queue, s) && Boundary(queue, e)
    && (forall x :: a <= x < b && InGaps(gaps, x) ==> s <= x < e)
  }

  /** Storing the chunk, once every chunk that starts in [s, e) is gone, keeps the partition. */
  lemma StoreKeepsPartition(queue: Queue, readPos: int, gaps: seq<Interval>, after: seq<Interval>,
                            a: int, b: int, s: int, e: int, entry: Entry)
    requires Storable(queue, readPos, gaps, after, a, b, s, e) && |entry.data| == e - s
    ensures Partition(Without(queue, s, e)[s := entry], readPos, after)
    ensures readPos <= after[0].start
  {
    var q := Without(queue, s, e)[s := entry];
    assert InGaps(after, after[0].start);
    forall x | readPos <= x < MAX_BYTE_COUNT ensures Covered(q, x) <==> !InGaps(after, x) {
      if s <= x < e {
        assert Covers(q, s, x);
      } else {
        if Covered(queue, x) {
          var k :| Covers(queue, k, x);
          assert Covers(q, k, x);
        }
        if Covered(q, x) {
          var k :| Covers(q, k, x);
          assert Covers(queue, k, x);
        }
      }
    }
  }

  /** Ranges that hold the same missing bytes leave the same gaps. */
  lemma DifferenceSame(gaps: seq<Interval>, a: int, b: int, s: int, e: int, after: seq<Interval>)
    requires Difference(gaps, s, e, after) && a <= s <= e <= b
    requires forall x :: a <= x < b && InGaps(gaps, x) ==> s <= x < e
    ensures Difference(gaps, a, b, after)
  {
    SplitsMissing(gaps, a, b);
    SplitsMissing(gaps, s, e);
    forall x ensures InGaps(after, x) <==> InGaps(gaps, x) && !(a <= x < b) {
      assert InGaps(after, x) <==> InGaps(gaps, x) && !(s <= x < e);
    }
  }

  lemma SplitsMissing(gaps: seq<Interval>, a: int, b: int)
    ensures Splits(gaps, a, b) ==>
              InGaps(gaps, a - 1) && InGaps(gaps, a) && InGaps(gaps, b - 1) && InGaps(gaps, b)
  {
  }

  /** If no chunk starts at the read position, that byte is missing. */
  lemma FirstMissing(queue: Queue, readPos: int, gaps: seq<Interval>)
    requires ValidGaps(gaps) && readPos <= gaps[0].start && Partition(queue, readPos, gaps) && readPos !in queue
    ensures InGaps(gaps, readPos)
  {
    if !InGaps(gaps, readPos) {
      ChunkAt(queue, readPos, gaps, readPos);
    }
  }

  /** Taking the chunk at the read position keeps the partition. */
  lemma TakeFirst(queue: Queue, readPos: int, gaps: seq<Interval>)
    requires ValidGaps(gaps) && readPos <= gaps[0].start && Partition(queue, readPos, gaps) && readPos in queue
    ensures var next := readPos + |queue[readPos].data|;
            && !InGaps(gaps, readPos)
            && readPos < next <= gaps[0].start
            && Partition(queue - {readPos}, next, gaps)
  {
    var next := readPos + |queue[readPos].data|;
    assert Covers(queue, readPos, readPos);
    GapIsBoundary(queue, readPos, gaps, 0, gaps[0].start);
    assert InGaps(gaps, gaps[0].start);
    forall x | next <= x < MAX_BYTE_COUNT ensures Covered(queue - {readPos}, x) <==> !InGaps(gaps, x) {
      if Covered(queue, x) {
        var k :| Covers(queue, k, x);
        assert Covers(queue - {readPos}, k, x);
      }
      if Covered(queue - {readPos}, x) {
        var k :| Covers(queue - {readPos}, k, x);
        assert Covers(queue, k, x);
      }
    }
  }

  /** What the replacement loop leaves behind: it stops at the next gap, or inside the
      received range the frame ends in. */
  lemma AfterReplace(queue: Queue, readPos: int, gaps: seq<Interval>,
                     i: int, j: int, start: int, end: int, pos: int, cut: bool)
    requires ValidGaps(gaps) && Partition(queue, readPos, gaps) && readPos <= gaps[0].start
    requires FirstReaching(gaps, i, start) && i <= j < |gaps| && gaps[i].start < end < MAX_BYTE_COUNT
    requires j == i ==> i + 1 == |gaps| || end < gaps[i + 1].start
    requires i < j ==> gaps[i + 1].start <= end
    requires start < pos <= end && start in queue && Boundary(queue, pos)
    requires forall x :: start <= x < pos ==> Covered(queue, x)
    requires cut ==> forall x :: pos <= x <= end ==> Covered(queue, x)
    requires !cut ==> pos !in queue
    ensures start < gaps[i].start || start == gaps[i].end
    ensures start < gaps[i].start ==> pos == gaps[i].start && !cut
    ensures start == gaps[i].end && i < j ==> pos == gaps[i + 1].start && !cut
    ensures start == gaps[i].end && i == j ==> cut || pos == end
  {
    assert Covered(queue, start);
    assert readPos <= start;
    assert !InGaps(gaps, start);
    assert gaps[i].start <= start < gaps[i].end ==> InGaps(gaps, start);
    assert InGaps(gaps, gaps[i].start);
    if start < gaps[i].start {
      NextGap(queue, readPos, gaps, i, start, end, pos, cut);
    } else if i < j {
      assert InGaps(gaps, gaps[i + 1].start);
      NextGap(queue, readPos, gaps, i + 1, start, end, pos, cut);
    } else if !cut && pos < end {
      assert !InGaps(gaps, pos);
      ChunkAt(queue, readPos, gaps, pos);
    }
  }

  lemma NextGap(queue: Queue, readPos: int, gaps: seq<Interval>, i: int, start: int, end: int, pos: int, cut: bool)
    requires ValidGaps(gaps) && Partition(queue, readPos, gaps) && readPos <= gaps[0].start
    requires 0 <= i < |gaps| && (i > 0 ==> gaps[i - 1].end <= start) && start < gaps[i].start <= end < MAX_BYTE_COUNT
    requires start < pos <= end && readPos <= start && Boundary(queue, pos)
    requires forall x :: start <= x < pos ==> Covered(queue, x)
    requires cut ==> forall x :: pos <= x <= end ==> Covered(queue, x)
    requires !cut ==> pos !in queue
    ensures pos == gaps[i].start && !cut
  {
    assert InGaps(gaps, gaps[i].start);
    assert !Covered(queue, gaps[i].start);
    assert pos <= gaps[i].start && !cut;
    if pos < gaps[i].start {
      assert !InGaps(gaps, pos);
      ChunkAt(queue, readPos, gaps, pos);
    }
  }

  /** Gap i is the first that reaches the start of [a, b), gap j the last that starts at or
      before its end. */
  ghost predicate Meets(gaps: seq<Interval>, i: int, j: int, a: int, b: int) {
    && FirstReaching(gaps, i, a) && i <= j < |gaps| && gaps[i].start < b < MAX_BYTE_COUNT
    && gaps[j].start <= b && (j + 1 < |gaps| ==> b < gaps[j + 1].start)
  }

  lemma DuplicateOfChunk(queue: Queue, readPos: int, gaps: seq<Interval>, a: int, b: int, pos: int)
    requires Partition(queue, readPos, gaps) && a in queue && a < b && b - a <= |queue[a].data| && pos == a
    ensures Without(queue, a, pos) == queue
    ensures forall x :: a <= x < b ==> !InGaps(gaps, x)
  {
    CoveredBy(queue, a);
  }

  lemma PlacedAfterReplace(queue: Queue, readPos: int, gaps: seq<Interval>,
                           i: int, j: int, a: int, b: int, pos: int, cut: bool)
    requires ValidGaps(gaps) && Partition(queue, readPos, gaps) && readPos <= gaps[0].start
    requires Meets(gaps, i, j, a, b) && a <= pos <= b && a < b
    requires a < pos ==> a in queue && Boundary(queue, pos)
    requires forall x :: a <= x < pos ==> Covered(queue, x)
    requires cut ==> a < pos && forall x :: pos <= x <= b ==> Covered(queue, x)
    requires !cut ==> pos !in queue
    ensures Placed(queue, readPos, gaps, i, j, a, b, pos, cut)
  {
    if a < pos {
      AfterReplace(queue, readPos, gaps, i, j, a, b, pos, cut);
    }
  }

  /** Where the frame [a, b) lies: gap i is the first that reaches its start, gap j the last
      that starts at or before its end, and the replacement loop ran from a to pos. */
  ghost predicate Placed(queue: Queue, readPos: int, gaps: seq<Interval>,
                         i: int, j: int, a: int, b: int, pos: int, cut: bool)
  {
    && ValidGaps(gaps) && Partition(queue, readPos, gaps) && readPos <= gaps[0].start
    && Meets(gaps, i, j, a, b) && a <= pos <= b && a < b
    && (if a < pos then
          && (a < gaps[i].start || a == gaps[i].end)
          && (a < gaps[i].start ==> pos == gaps[i].start && !cut)
          && (a == gaps[i].end && i < j ==> pos == gaps[i + 1].start && !cut)
          && (a == gaps[i].end && i == j ==> cut || pos == b)
          && a in queue && Boundary(queue, pos)
          && (cut ==> forall x :: pos <= x < b ==> Covered(queue, x))
        else
          !cut && a !in queue)
  }

  /** Where the stored chunk starts, ... */
  ghost function NewStart(gaps: seq<Interval>, i: int, a: int, pos: int): int
    requires 0 <= i < |gaps|
  {
    if a < pos then a else Max(a, gaps[i].start)
  }

  /** ... where the frame ends once the replacement loop has cut it, ... */
  ghost function CutEnd(b: int, pos: int, cut: bool): int {
    if cut then pos else b
  }

  /** ... and where the stored chunk ends. */
  ghost function NewEnd(gaps: seq<Interval>, i: int, j: int, a: int, b: int, pos: int, cut: bool): int
    requires 0 <= i <= j < |gaps|
  {
    if CutEnd(b, pos, cut) >= gaps[j].end && NewStart(gaps, i, a, pos) != gaps[j].end
    then gaps[j].end else CutEnd(b, pos, cut)
  }

  /** A frame that starts neither at a chunk nor in a gap starts before gap i. */
  lemma StartsInGap(queue: Queue, readPos: int, gaps: seq<Interval>,
                    i: int, j: int, a: int, b: int, pos: int, cut: bool)
    requires Placed(queue, readPos, gaps, i, j, a, b, pos, cut) && a == pos
    ensures a < gaps[i].end
  {
    if a == gaps[i].end {
      assert !InGaps(gaps, a);
      GapIsBoundary(queue, readPos, gaps, i, a);
      ChunkAt(queue, readPos, gaps, a);
    }
  }

  /** The stored range has chunk boundaries at both ends and holds every missing byte of
      the frame. */
  lemma StoredRange(queue: Queue, readPos: int, gaps: seq<Interval>,
                    i: int, j: int, a: int, b: int, pos: int, cut: bool)
    requires Placed(queue, readPos, gaps, i, j, a, b, pos, cut)
    ensures var s, c, e := NewStart(gaps, i, a, pos), CutEnd(b, pos, cut), NewEnd(gaps, i, j, a, b, pos, cut);
            && a <= s < e <= c <= b && readPos <= s
            && Boundary(queue, s) && Boundary(queue, e)
            && (forall x :: a <= x < b && InGaps(gaps, x) ==> s <= x < e)
  {
    var s, c, e := NewStart(gaps, i, a, pos), CutEnd(b, pos, cut), NewEnd(gaps, i, j, a, b, pos, cut);
    if a == pos {
      StartsInGap(queue, readPos, gaps, i, j, a, b, pos, cut);
      GapIsBoundary(queue, readPos, gaps, i, s);
    }
    if !(a == gaps[i].end && i == j) {
      GapIsBoundary(queue, readPos, gaps, j, e);
    }
    forall x | a <= x < b && InGaps(gaps, x) ensures s <= x < e {
      var k :| 0 <= k < |gaps| && gaps[k].start <= x < gaps[k].end;
      assert i <= k <= j;
      assert cut && pos <= x ==> Covered(queue, x);
    }
  }

  /** The chunks that the two rounds of deletions remove are those in the stored range. */
  lemma DeletedRange(queue: Queue, readPos: int, gaps: seq<Interval>,
                     i: int, j: int, a: int, b: int, pos: int, cut: bool)
    requires Placed(queue, readPos, gaps, i, j, a, b, pos, cut)
    ensures Without(Without(queue, a, pos), gaps[i].end, gaps[j].start) ==
            Without(queue, NewStart(gaps, i, a, pos), NewEnd(gaps, i, j, a, b, pos, cut))
  {
    var s, e := NewStart(gaps, i, a, pos), NewEnd(gaps, i, j, a, b, pos, cut);
    if a == pos {
      StartsInGap(queue, readPos, gaps, i, j, a, b, pos, cut);
    }
    forall k | k in queue ensures a <= k < pos || gaps[i].end <= k < gaps[j].start <==> s <= k < e {
      assert Covers(queue, k, k);
      assert !InGaps(gaps, k);
      assert gaps[i].start <= k ==> gaps[i].end <= k;
      assert gaps[j].start <= k ==> gaps[j].end <= k;
    }
  }

  /** Everything the in-place edits need, and what they establish. */
  ghost predicate Plan(queue: Queue, readPos: int, gaps: seq<Interval>,
                       i: int, j: int, a: int, b: int, pos: int, s: int, c: int, e: int)
  {
    && 0 <= i <= j < |gaps| && a <= s < e <= c <= b < MAX_BYTE_COUNT && readPos <= s
    && FirstReaching(gaps, i, s) && gaps[i].start < c
    && gaps[j].start <= c && (j + 1 < |gaps| ==> c < gaps[j + 1].start)
    && e == (if c >= gaps[j].end && s != gaps[j].end then gaps[j].end else c)
    && Disjoint(Without(queue, a, pos)) && Separated(Without(queue, a, pos), gaps, i, j)
    && Without(Without(queue, a, pos), gaps[i].end, gaps[j].start) == Without(queue, s, e)
    && Boundary(queue, s) && Boundary(queue, e)
    && (forall x :: a <= x < b && InGaps(gaps, x) ==> s <= x < e)
  }

  lemma PlanHolds(queue: Queue, readPos: int, gaps: seq<Interval>,
                  i: int, j: int, a: int, b: int, pos: int, cut: bool, s: int)
    requires Placed(queue, readPos, gaps, i, j, a, b, pos, cut)
    requires s == if a == pos && a < gaps[i].start then gaps[i].start else a
    ensures Plan(queue, readPos, gaps, i, j, a, b, pos, s, CutEnd(b, pos, cut), NewEnd(gaps, i, j, a, b, pos, cut))
    ensures a < pos ==> s < gaps[i].start || s == gaps[i].end
    ensures a == pos ==> gaps[i].start <= s < gaps[i].end
    ensures CutEnd(b, pos, cut) < gaps[j].end <==> b < gaps[j].end
  {
    StoredRange(queue, readPos, gaps, i, j, a, b, pos, cut);
    DeletedRange(queue, readPos, gaps, i, j, a, b, pos, cut);
    SeparatedAfterReplace(queue, readPos, gaps, i, j, a, b, pos, cut);
    if a == pos {
      StartsInGap(queue, readPos, gaps, i, j, a, b, pos, cut);
    }
  }

  lemma SeparatedAfterReplace(queue: Queue, readPos: int, gaps: seq<Interval>,
                              i: int, j: int, a: int, b: int, pos: int, cut: bool)
    requires Placed(queue, readPos, gaps, i, j, a, b, pos, cut)
    ensures Disjoint(Without(queue, a, pos)) && Separated(Without(queue, a, pos), gaps, i, j)
  {
    var q := Without(queue, a, pos);
    forall k | i <= k <= j ensures Boundary(q, gaps[k].start) && Boundary(q, gaps[k].end) {
      GapIsBoundary(queue, readPos, gaps, k, gaps[k].start);
      GapIsBoundary(queue, readPos, gaps, k, gaps[k].end);
    }
    forall k, x | i <= k <= j && gaps[k].start <= x < gaps[k].end ensures x !in q {
      if x in queue {
        assert Covers(queue, x, x);
        assert InGaps(gaps, x);
      }
    }
    forall k | i <= k < j ensures RegionReady(q, gaps[k].end, gaps[k + 1].start) {
      if !(a == gaps[i].end && k == i) || a == pos {
        RegionCovered(queue, readPos, gaps, k, a, pos);
      }
    }
  }

  /** Deleting chunks before the end of gap k leaves the region after it covered. */
  lemma RegionCovered(queue: Queue, readPos: int, gaps: seq<Interval>, k: int, a: int, pos: int)
    requires ValidGaps(gaps) && Partition(queue, readPos, gaps) && readPos <= gaps[0].start
    requires 0 <= k && k + 1 < |gaps| && (a == pos || pos <= gaps[k].end)
    ensures RegionReady(Without(queue, a, pos), gaps[k].end, gaps[k + 1].start)
  {
    forall x | gaps[k].end <= x < gaps[k + 1].start ensures Covered(Without(queue, a, pos), x) {
      assert !InGaps(gaps, x);
      assert Covered(queue, x);
      var l :| Covers(queue, l, x);
      GapIsBoundary(queue, readPos, gaps, k, gaps[k].end);
      assert Covers(Without(queue, a, pos), l, x);
    }
  }

  // ----- callbacks

  /** The callbacks stored in the queue. */
  ghost function Held(queue: Queue): set<nat> {
    set k | k in queue && queue[k].doneCb.Some? :: queue[k].doneCb.value
  }

  /** No callback was invoked twice, is stored twice, or is both invoked and stored. */
  ghost predicate CallbacksOnce(queue: Queue, released: seq<nat>) {
    && (forall i, j :: 0 <= i < j < |released| ==> released[i] != released[j])
    && (forall k :: k in queue && queue[k].doneCb.Some? ==> queue[k].doneCb.value !in released)
    && (forall k, l :: k in queue && l in queue && k != l && queue[k].doneCb.Some? ==>
       queue[k].doneCb != queue[l].doneCb)
  }

  /** Every callback the sorter was given and did not hand back. */
  ghost function Known(queue: Queue, released: seq<nat>): set<nat> {
    Held(queue) + set c | c in released
  }

  ghost function Named(cb: Option<nat>): set<nat> {
    if cb.Some? then {cb.value} else {}
  }

  function Invoke(released: seq<nat>, cb: Option<nat>): seq<nat> {
    if cb.Some? then released + [cb.value] else released
  }

  lemma InvokeNew(queue: Queue, released: seq<nat>, cb: Option<nat>)
    requires CallbacksOnce(queue, released) && Named(cb) !! Known(queue, released)
    ensures CallbacksOnce(queue, Invoke(released, cb))
    ensures Known(queue, Invoke(released, cb)) == Known(queue, released) + Named(cb)
  {
    assert forall l :: l in queue && queue[l].doneCb.Some? ==> queue[l].doneCb.value in Known(queue, released);
  }

  lemma TakeCallback(queue: Queue, released: seq<nat>, k: int)
    requires CallbacksOnce(queue, released) && k in queue
    ensures CallbacksOnce(queue - {k}, released)
    ensures Named(queue[k].doneCb) !! Known(queue - {k}, released)
    ensures Known(queue - {k}, released) + Named(queue[k].doneCb) == Known(queue, released)
  {
    var cb := queue[k].doneCb;
    forall c | c in Held(queue) ensures c in Held(queue - {k}) + Named(cb) {
      var l :| l in queue && queue[l].doneCb == Some(c);
      assert l == k || l in queue - {k};
    }
    if cb.Some? {
      assert cb.value in Held(queue);
    }
  }

  /** A new callback is either stored with a chunk or invoked at once. */
  lemma StoreCallback(queue: Queue, released: seq<nat>, k: int, data: seq<Byte>, cb: Option<nat>, now: bool)
    requires CallbacksOnce(queue, released) && k !in queue && Named(cb) !! Known(queue, released)
    ensures var q := queue[k := Entry(data, if now then None else cb)];
            var r := if now then Invoke(released, cb) else released;
            CallbacksOnce(q, r) && Known(q, r) == Known(queue, released) + Named(cb)
  {
    var q := queue[k := Entry(data, if now then None else cb)];
    var r := if now then Invoke(released, cb) else released;
    assert forall c :: c in r <==> c in released || (now && cb == Some(c));
    assert forall l :: l in queue && queue[l].doneCb.Some? ==> queue[l].doneCb.value in Known(queue, released);
    forall c | c in Held(queue) ensures c in Held(q) {
      var l :| l in queue && queue[l].doneCb == Some(c);
      assert l in q && q[l] == queue[l];
    }
    if !now && cb.Some? {
      assert q[k].doneCb == cb;
    }
  }

  lemma InvokeOnDelete(queue: Queue, released: seq<nat>, k: int)
    requires CallbacksOnce(queue, released) && k in queue
    ensures CallbacksOnce(queue - {k}, Invoke(released, queue[k].doneCb))
    ensures Known(queue - {k}, Invoke(released, queue[k].doneCb)) == Known(queue, released)
  {
    var q, r, cb := queue - {k}, Invoke(released, queue[k].doneCb), queue[k].doneCb;
    assert forall c :: c in r <==> c in released || cb == Some(c);
    forall c | c in Held(queue) ensures c in Known(q, r) {
      var l :| l in queue && queue[l].doneCb == Some(c);
      assert l == k || l in q;
    }
  }

  // ----- the sorter

  datatype InsertResult = Inserted | Duplicate | TooManyGaps | NoGapFound

  datatype PushResult = Pushed | PushFailed | PushPanicked

  datatype Location = Nowhere | Received | Between(i: int, j: int, startsInGap: bool, endsInGap: bool)

  /** The entry at k holds the bytes the frame (data, offset) has there. */
  ghost predicate PartOf(k: int, entry: Entry, data: seq<Byte>, offset: int) {
    && offset <= k && k + |entry.data| <= offset + |data|
    && entry.data == data[k - offset..k - offset + |entry.data|]
  }

  ghost predicate ChunksFrom(queue: Queue, before: Queue, data: seq<Byte>, offset: int) {
    forall k :: k in queue ==> (k in before && queue[k] == before[k]) || PartOf(k, queue[k], data, offset)
  }

  lemma StoredChunks(before: Queue, data: seq<Byte>, offset: int, s: int, e: int, entry: Entry)
    requires 0 <= s - offset <= e - offset <= |data| && entry.data == data[s - offset..e - offset]
    ensures ChunksFrom(Without(before, s, e)[s := entry], before, data, offset)
  {
    assert PartOf(s, entry, data, offset);
  }

  class FrameSorter {
    var queue: Queue
    var readPos: int
    var gaps: seq<Interval>
    /** The callbacks invoked so far, in order. */
    var released: seq<nat>

    ghost predicate Valid()
      reads this
    {
      && ValidGaps(gaps) && |gaps| <= MAX_GAPS
      && 0 <= readPos <= gaps[0].start
      && Partition(queue, readPos, gaps)
      && CallbacksOnce(queue, released)
    }

    constructor ()
      ensures Valid()
      ensures queue == map[] && readPos == 0 && released == []
      ensures gaps == [Interval(0, MAX_BYTE_COUNT)]
    {
      queue := map[];
      readPos := 0;
      gaps := [Interval(0, MAX_BYTE_COUNT)];
      released := [];
      new;
      assert gaps[0] == Interval(0, MAX_BYTE_COUNT);
    }

    /** Index |gaps| stands for the panic. */
    method FindStartGap(offset: int) returns (i: int, inGap: bool)
      requires ValidGaps(gaps)
      ensures 0 <= i <= |gaps|
      ensures i == |gaps| <==> MAX_BYTE_COUNT < offset
      ensures i < |gaps| ==> FirstReaching(gaps, i, offset) && (inGap <==> gaps[i].start <= offset)
    {
      i := 0;
      while i < |gaps|
        invariant 0 <= i <= |gaps|
        invariant forall k :: 0 <= k < i ==> gaps[k].end < offset
      {
        if gaps[i].start <= offset <= gaps[i].end {
          return i, true;
        }
        if offset < gaps[i].start {
          return i, false;
        }
        i := i + 1;
      }
      inGap := false;
    }

    /** Index |gaps| stands for the panic; startGap - 1 for the element before startGap. */
    method FindEndGap(startGap: int, offset: int) returns (j: int, inGap: bool)
      requires ValidGaps(gaps) && 0 <= startGap < |gaps|
      ensures startGap - 1 <= j <= |gaps|
      ensures j == |gaps| <==> MAX_BYTE_COUNT <= offset
      ensures j == startGap - 1 <==> offset < gaps[startGap].start
      ensures startGap <= j < |gaps| && inGap ==> gaps[j].start <= offset < gaps[j].end
      ensures startGap <= j < |gaps| && !inGap ==>
                gaps[j].end <= offset && j + 1 < |gaps| && offset < gaps[j + 1].start
    {
      j := startGap;
      while j < |gaps|
        invariant startGap <= j <= |gaps|
        invariant forall k :: startGap <= k < j ==> gaps[k].end <= offset
      {
        if gaps[j].start <= offset < gaps[j].end {
          return j, true;
        }
        if offset < gaps[j].start {
          return j - 1, false;
        }
        j := j + 1;
      }
      inGap := false;
    }

    /** Deletes the chunk at k and calls its callback. */
    method Release(k: int) returns (len: nat)
      requires k in queue && CallbacksOnce(queue, released)
      modifies `queue, `released
      ensures queue == old(queue) - {k} && len == |old(queue)[k].data|
      ensures CallbacksOnce(queue, released)
      ensures Known(queue, released) == old(Known(queue, released))
    {
      InvokeOnDelete(queue, released, k);
      var oldEntry := queue[k];
      queue := queue - {k};
      released := Invoke(released, oldEntry.doneCb);
      len := |oldEntry.data|;
    }

    /** Deletes the chunk at p, the first one left of the chunks of q0 from `from` on. */
    method ReleaseNext(ghost q0: Queue, ghost from: int, p: int) returns (e: int)
      requires Disjoint(q0) && from <= p && queue == Without(q0, from, p) && p in queue
      requires CallbacksOnce(queue, released)
      modifies `queue, `released
      ensures p in q0 && e == p + |q0[p].data| && queue == Without(q0, from, e) && queue.Keys < old(queue.Keys)
      ensures CallbacksOnce(queue, released)
      ensures Known(queue, released) == old(Known(queue, released))
    {
      NextChunk(q0, queue, from, p);
      var len := Release(p);
      e := p + len;
      assert p in old(queue.Keys) && p !in queue.Keys;
    }

    /** Deletes the chunks that start at pos and follow one another.  The chunks from pos
        on reach exactly as far as `to`, or there are none. */
    method DeleteConsecutive(pos: int, ghost to: int)
      requires CallbacksOnce(queue, released) && Disjoint(queue)
      requires pos <= to && to !in queue && Boundary(queue, pos) && Boundary(queue, to)
      requires RegionReady(queue, pos, to)
      modifies `queue, `released
      ensures gaps == old(gaps) && readPos == old(readPos)
      ensures queue == Without(old(queue), pos, to)
      ensures CallbacksOnce(queue, released)
      ensures Known(queue, released) == old(Known(queue, released))
    {
      var p := pos;
      while p in queue
        invariant gaps == old(gaps) && readPos == old(readPos)
        invariant pos <= p <= to && Boundary(old(queue), p)
        invariant queue == Without(old(queue), pos, p)
        invariant CallbacksOnce(queue, released)
        invariant Known(queue, released) == old(Known(queue, released))
        decreases queue.Keys
      {
        ConsecutiveStep(old(queue), pos, p, to);
        p := ReleaseNext(old(queue), pos, p);
      }
      ConsecutiveEnd(old(queue), pos, p, to);
    }

    /** The loop at the head of a frame: chunks that start where the frame does and are
        shorter than what is left of it are replaced.  The frame is a duplicate if the
        first chunk covers it; it is cut if a later chunk reaches past its end. */
    method ReplaceFrom(start: int, end: int) returns (pos: int, cut: bool, duplicate: bool)
      requires CallbacksOnce(queue, released) && Disjoint(queue) && start < end
      modifies `queue, `released
      ensures gaps == old(gaps) && readPos == old(readPos)
      ensures CallbacksOnce(queue, released)
      ensures Known(queue, released) == old(Known(queue, released))
      ensures start <= pos <= end && queue == Without(old(queue), start, pos)
      ensures duplicate ==> pos == start && released == old(released)
                            && start in queue && end - start <= |queue[start].data|
      ensures start < pos ==> start in old(queue) && Boundary(old(queue), pos)
      ensures forall x :: start <= x < pos ==> Covered(old(queue), x)
      ensures cut ==> start < pos && forall x :: pos <= x <= end ==> Covered(old(queue), x)
      ensures !cut && !duplicate ==> pos !in old(queue)
    {
      pos, cut, duplicate := start, false, false;
      while pos in queue
        invariant gaps == old(gaps) && readPos == old(readPos)
        invariant start <= pos <= end && queue == Without(old(queue), start, pos)
        invariant pos == start ==> released == old(released)
        invariant start < pos ==> start in old(queue) && Boundary(old(queue), pos)
        invariant forall x :: start <= x < pos ==> Covered(old(queue), x)
        invariant CallbacksOnce(queue, released)
        invariant Known(queue, released) == old(Known(queue, released))
        decreases queue.Keys
      {
        var len := |queue[pos].data|;
        var replaced := start < pos;
        NextChunk(old(queue), queue, start, pos);
        if end - pos > len || (replaced && end - pos == len) {
          pos := ReleaseNext(old(queue), start, pos);
        } else if !replaced {
          duplicate := true;
          return;
        } else {
          cut := true;
          return;
        }
      }
    }

    /** Deletes the gap at index next, which is gap m of g0, and the chunks after it.  The
        chunks of q0 between gaps i and m are gone already. */
    method DeleteGap(next: int, ghost q0: Queue, ghost g0: seq<Interval>, ghost i: int, ghost j: int, ghost m: int)
      requires Sorted(g0) && Disjoint(q0) && CallbacksOnce(queue, released)
      requires 0 <= i < m < j < |g0| && Separated(q0, g0, i, j)
      requires 0 <= next < |gaps| && gaps[next..] == g0[m..]
      requires queue == Without(q0, g0[i].end, g0[m].start)
      modifies this
      ensures readPos == old(readPos)
      ensures next < |gaps| && gaps[..next] == old(gaps)[..next] && gaps[next..] == g0[m + 1..]
      ensures queue == Without(q0, g0[i].end, g0[m + 1].start)
      ensures CallbacksOnce(queue, released)
      ensures Known(queue, released) == old(Known(queue, released))
    {
      assert gaps[next] == gaps[next..][0] == g0[m];
      RegionAfterDelete(q0, g0, i, j, m);
      DeleteConsecutive(gaps[next].end, g0[m + 1].start);
      gaps := gaps[..next] + gaps[next + 1..];
      assert old(gaps)[next + 1..] == g0[m..][1..] == g0[m + 1..];
    }

    /** Deletes the gaps from index next on that end before endGapStart, and the chunks
        between startGapEnd and endGapStart.  These are gaps i and j of g0. */
    method DeleteBetween(next: int, startGapEnd: int, endGapStart: int, ghost g0: seq<Interval>, ghost i: int,
                         ghost j: int)
      requires Sorted(g0) && CallbacksOnce(queue, released) && Disjoint(queue)
      requires 0 <= i < j < |g0| && startGapEnd == g0[i].end && endGapStart == g0[j].start
      requires 0 <= next < |gaps| && gaps[next..] == g0[i + 1..]
      requires Separated(queue, g0, i, j)
      modifies this
      ensures readPos == old(readPos)
      ensures next < |gaps| && gaps[..next] == old(gaps)[..next] && gaps[next] == g0[j]
      ensures gaps[next..] == g0[j..] && gaps[next + 1..] == g0[j + 1..]
      ensures queue == Without(old(queue), startGapEnd, endGapStart)
      ensures CallbacksOnce(queue, released)
      ensures Known(queue, released) == old(Known(queue, released))
    {
      ghost var q0 := queue;
      FirstRegion(q0, g0, i, j);
      DeleteConsecutive(startGapEnd, g0[i + 1].start);
      ghost var m := i + 1;
      SameTail(gaps, next, g0, m);
      while gaps[next].end < endGapStart
        invariant i < m <= j && readPos == old(readPos)
        invariant next < |gaps| && gaps[..next] == old(gaps)[..next] && gaps[next..] == g0[m..] && gaps[next] == g0[m]
        invariant queue == Without(q0, startGapEnd, g0[m].start)
        invariant CallbacksOnce(queue, released)
        invariant Known(queue, released) == old(Known(queue, released))
        decreases j - m
      {
        DeleteGap(next, q0, g0, i, j, m);
        m := m + 1;
        SameTail(gaps, next, g0, m);
      }
      SameTail(gaps, next, g0, j);
    }

    /** What becomes of the gap a frame starts in (or before, or right after). */
    method EditStartGap(i: int, start: int, end: int, replaced: bool) returns (next: int, adjusted: bool)
      requires 0 <= i < |gaps| && gaps[i].start < gaps[i].end
      requires replaced ==> start < gaps[i].start || start == gaps[i].end
      requires !replaced ==> gaps[i].start <= start < gaps[i].end
      modifies this
      ensures readPos == old(readPos) && queue == old(queue) && released == old(released)
      ensures i <= next <= |gaps| && gaps[next..] == old(gaps)[i + 1..]
      ensures adjusted <==> old(gaps[i].start) < start && !replaced
      ensures gaps[..next] == old(gaps)[..i] + StartPiece(old(gaps[i]), start, end)
    {
      next, adjusted := i + 1, false;
      if start <= gaps[i].start {
        if end >= gaps[i].end {
          gaps := gaps[..i] + gaps[i + 1..];
          next := i;
        } else {
          gaps := gaps[i := Interval(end, gaps[i].end)];
        }
      } else if !replaced {
        gaps := gaps[i := Interval(gaps[i].start, start)];
        adjusted := true;
      }
    }

    /** What becomes of the gap the frame ends in.  Returns where the stored data ends. */
    method EditEndGap(next: int, same: bool, adjusted: bool, start: int, end: int, startGapEnd: int, endGapEnd: int,
                      endsInGap: bool)
      returns (newEnd: int)
      requires 0 <= next <= |gaps| && (!same ==> next < |gaps| && gaps[next].end == endGapEnd)
      requires same ==> startGapEnd == endGapEnd
      requires !same || adjusted ==> start < endGapEnd
      requires endsInGap <==> end < endGapEnd
      modifies this
      ensures readPos == old(readPos) && queue == old(queue) && released == old(released)
      ensures next <= |gaps| && gaps[..next] == old(gaps)[..next]
      ensures gaps[next..] == (if endsInGap && (same ==> adjusted) then [Interval(end, endGapEnd)] else [])
                              + old(gaps)[if same then next else next + 1..]
      ensures newEnd == if !endsInGap && start != endGapEnd then endGapEnd else end
    {
      newEnd := end;
      if !endsInGap && start != endGapEnd && end > endGapEnd {
        newEnd := endGapEnd;
      }
      if newEnd == endGapEnd {
        if !same {
          // The frame covers the whole end gap.
          gaps := gaps[..next] + gaps[next + 1..];
        }
      } else if same && adjusted {
        // The frame splits the gap in two.
        gaps := gaps[..next] + [Interval(newEnd, startGapEnd)] + gaps[next..];
      } else if !same {
        gaps := gaps[next := Interval(newEnd, gaps[next].end)];
      }
    }

    /** The edits of the gap list for the frame [start, end), which begins at or before the
        end of gap i and ends in or right after gap j; chunks between these gaps go.
        Returns where the stored data ends. */
    method EditGaps(i: int, j: int, start: int, end: int, replaced: bool, endsInGap: bool) returns (newEnd: int)
      requires ValidGaps(gaps) && CallbacksOnce(queue, released) && Disjoint(queue)
      requires 0 <= i <= j < |gaps| && start < end && gaps[i].start < end
      requires 0 <= start && FirstReaching(gaps, i, start) && end < MAX_BYTE_COUNT
      requires gaps[j].start <= end && (j + 1 < |gaps| ==> end < gaps[j + 1].start)
      requires endsInGap <==> end < gaps[j].end
      requires replaced ==> start < gaps[i].start || start == gaps[i].end
      requires !replaced ==> gaps[i].start <= start < gaps[i].end
      requires Separated(queue, gaps, i, j)
      modifies this
      ensures readPos == old(readPos)
      ensures Difference(old(gaps), start, end, gaps)
      ensures queue == Without(old(queue), old(gaps[i].end), old(gaps[j].start))
      ensures CallbacksOnce(queue, released)
      ensures Known(queue, released) == old(Known(queue, released))
      ensures newEnd == if !endsInGap && start != old(gaps[j].end) then old(gaps[j].end) else end
    {
      ghost var g0, q0 := gaps, queue;
      var startGapEnd, endGapStart, endGapEnd := gaps[i].end, gaps[j].start, gaps[j].end;
      var next, adjusted := EditStartGap(i, start, end, replaced);
      if i != j {
        DeleteBetween(next, startGapEnd, endGapStart, g0, i, j);
      } else {
        assert Without(q0, startGapEnd, endGapStart) == q0;
      }
      newEnd := EditEndGap(next, i == j, adjusted, start, end, startGapEnd, endGapEnd, endsInGap);
      SubtractPieces(g0, i, j, start, end, gaps, next);
    }

    /** The gaps the frame [start, end) starts and ends in. */
    method Locate(start: int, end: int) returns (r: Location)
      requires ValidGaps(gaps) && 0 <= start < end
      ensures r.Nowhere? <==> MAX_BYTE_COUNT <= end
      ensures r.Received? ==> forall x :: start <= x < end ==> !InGaps(gaps, x)
      ensures r.Between? ==> Meets(gaps, r.i, r.j, start, end)
                             && (r.startsInGap <==> gaps[r.i].start <= start)
                             && (r.endsInGap <==> end < gaps[r.j].end)
    {
      if end <= gaps[0].start {
        return Received;
      }
      var i, startsInGap := FindStartGap(start);
      if i == |gaps| {
        return Nowhere;
      }
      var j, endsInGap := FindEndGap(i, end);
      if j == |gaps| {
        return Nowhere;
      }
      if (i == j && end <= gaps[i].start) ||
         (i != j && gaps[i].end >= gaps[j].start && end <= gaps[i].start) {
        return Received;
      }
      return Between(i, j, startsInGap, endsInGap);
    }

    /** Adds the frame (data, offset).  A duplicate changes nothing.  The chunk that is
        stored is the part of the frame that fills gaps, extended to the left over chunks
        it replaces. */
    method Insert(data: seq<Byte>, offset: int, doneCb: Option<nat>) returns (r: InsertResult)
      requires Valid() && 0 <= offset
      requires Named(doneCb) !! Known(queue, released)
      modifies this
      ensures r.NoGapFound? <==> data != [] && MAX_BYTE_COUNT <= offset + |data|
      ensures r.NoGapFound? || r.Duplicate? ==>
                queue == old(queue) && readPos == old(readPos) && gaps == old(gaps) && released == old(released)
      ensures r.Duplicate? ==> forall x :: offset <= x < offset + |data| ==> !InGaps(gaps, x)
      ensures r.Inserted? || r.TooManyGaps? ==>
                data != [] && readPos == old(readPos) && Difference(old(gaps), offset, offset + |data|, gaps)
      ensures r.TooManyGaps? <==> old(|gaps|) == MAX_GAPS && Splits(old(gaps), offset, offset + |data|)
      ensures r.Inserted? ==> Valid()
      ensures r.Inserted? ==> Known(queue, released) == old(Known(queue, released)) + Named(doneCb)
      ensures r.Inserted? ==> ChunksFrom(queue, old(queue), data, offset)
    {
      if |data| == 0 {
        return Duplicate;
      }
      var start, end := offset, offset + |data|;
      SplitsMissing(gaps, start, end);
      var place := Locate(start, end);
      if place.Nowhere? {
        return NoGapFound;
      }
      if place.Received? {
        return Duplicate;
      }
      r := Replace(data, start, doneCb, place);
    }

    /** Replaces chunks at the head of a frame that was located, and stores it unless one covers it. */
    method Replace(data: seq<Byte>, offset: int, doneCb: Option<nat>, place: Location) returns (r: InsertResult)
      requires Valid() && 0 <= offset && data != [] && Named(doneCb) !! Known(queue, released)
      requires place.Between? && Meets(gaps, place.i, place.j, offset, offset + |data|)
      requires place.startsInGap <==> gaps[place.i].start <= offset
      requires place.endsInGap <==> offset + |data| < gaps[place.j].end
      modifies this
      ensures !r.NoGapFound? && readPos == old(readPos)
      ensures r.Duplicate? ==> queue == old(queue) && gaps == old(gaps) && released == old(released)
      ensures r.Duplicate? ==> forall x :: offset <= x < offset + |data| ==> !InGaps(gaps, x)
      ensures !r.Duplicate? ==> Difference(old(gaps), offset, offset + |data|, gaps)
      ensures r.TooManyGaps? ==> |gaps| > MAX_GAPS
      ensures r.Inserted? ==> Valid() && ChunksFrom(queue, old(queue), data, offset)
      ensures r.Inserted? ==> Known(queue, released) == old(Known(queue, released)) + Named(doneCb)
    {
      ghost var q0 := queue;
      var end := offset + |data|;
      var pos, cut, duplicate := ReplaceFrom(offset, end);
      if duplicate {
        DuplicateOfChunk(q0, readPos, gaps, offset, end, pos);
        return Duplicate;
      }
      PlacedAfterReplace(q0, readPos, gaps, place.i, place.j, offset, end, pos, cut);
      r := Store(data, offset, end, doneCb, place, pos, cut, q0);
    }

    /** The second half of Insert, after the replacement loop. */
    method Store(data: seq<Byte>, offset: int, limit: int, doneCb: Option<nat>, place: Location,
                 pos: int, cut: bool, ghost q0: Queue) returns (r: InsertResult)
      requires 0 <= offset && limit == offset + |data|
      requires place.Between? && Placed(q0, readPos, gaps, place.i, place.j, offset, limit, pos, cut)
      requires place.startsInGap <==> gaps[place.i].start <= offset
      requires place.endsInGap <==> limit < gaps[place.j].end
      requires queue == Without(q0, offset, pos) && CallbacksOnce(queue, released) && 0 <= readPos
      requires Named(doneCb) !! Known(queue, released)
      modifies this
      ensures r.Inserted? || r.TooManyGaps?
      ensures readPos == old(readPos) && Difference(old(gaps), offset, limit, gaps)
      ensures r.TooManyGaps? <==> |gaps| > MAX_GAPS
      ensures r.Inserted? ==> Valid()
      ensures r.Inserted? ==> Known(queue, released) == old(Known(queue, released)) + Named(doneCb)
      ensures r.Inserted? ==> ChunksFrom(queue, q0, data, offset)
    {
      ghost var g0 := gaps;
      var start, newEnd, wasCut := Edit(offset, limit, place, pos, cut, q0);
      r := Finish(data, offset, start, newEnd, wasCut, doneCb, q0, g0);
    }

    /** Edits the gaps and deletes the chunks for the frame [offset, limit); its part
        [start, newEnd) is to be stored. */
    method Edit(offset: int, limit: int, place: Location, pos: int, cut: bool, ghost q0: Queue)
      returns (start: int, newEnd: int, wasCut: bool)
      requires 0 <= offset
      requires place.Between? && Placed(q0, readPos, gaps, place.i, place.j, offset, limit, pos, cut)
      requires place.startsInGap <==> gaps[place.i].start <= offset
      requires place.endsInGap <==> limit < gaps[place.j].end
      requires queue == Without(q0, offset, pos) && CallbacksOnce(queue, released)
      modifies this
      ensures readPos == old(readPos)
      ensures queue == Without(q0, start, newEnd)
      ensures Storable(q0, readPos, old(gaps), gaps, offset, limit, start, newEnd)
      ensures CallbacksOnce(queue, released)
      ensures Known(queue, released) == old(Known(queue, released))
    {
      ghost var g0 := gaps;
      var Between(i, j, startsInGap, endsInGap) := place;
      var end := if cut then pos else limit;
      start, wasCut := offset, cut;
      var replaced := offset < pos;
      if !startsInGap && !replaced {
        start, wasCut := gaps[i].start, true;
      }
      PlanHolds(q0, readPos, g0, i, j, offset, limit, pos, cut, start);
      newEnd := EditGaps(i, j, start, end, replaced, endsInGap);
      DifferenceSame(g0, offset, limit, start, end, gaps);
      wasCut := wasCut || newEnd < end;
    }

    /** Stores the part [start, end) of the frame. */
    method Finish(data: seq<Byte>, offset: int, start: int, end: int, wasCut: bool, doneCb: Option<nat>,
                  ghost q0: Queue, ghost g0: seq<Interval>) returns (r: InsertResult)
      requires 0 <= offset && 0 <= readPos
      requires Storable(q0, readPos, g0, gaps, offset, offset + |data|, start, end)
      requires queue == Without(q0, start, end) && CallbacksOnce(queue, released)
      requires Named(doneCb) !! Known(queue, released)
      modifies this
      ensures r.Inserted? || r.TooManyGaps?
      ensures readPos == old(readPos) && gaps == old(gaps)
      ensures r.TooManyGaps? <==> |gaps| > MAX_GAPS
      ensures r.Inserted? ==> Valid()
      ensures r.Inserted? ==> Known(queue, released) == old(Known(queue, released)) + Named(doneCb)
      ensures r.Inserted? ==> ChunksFrom(queue, q0, data, offset)
    {
      var stored := data[start - offset..end - offset];
      var now := wasCut && |stored| < MIN_BUFFER_SIZE;
      StoreCallback(queue, released, start, stored, doneCb, now);
      var entry := Entry(stored, if now then None else doneCb);
      StoreKeepsPartition(q0, readPos, g0, gaps, offset, offset + |data|, start, end, entry);
      StoredChunks(q0, data, offset, start, end, entry);
      if now {
        released := Invoke(released, doneCb);
      }
      if |gaps| > MAX_GAPS {
        return TooManyGaps;
      }
      queue := queue[start := entry];
      r := Inserted;
    }

    /** Push reports an error exactly if the list of gaps is full and the frame would split one,
        and panics exactly for a frame that ends at or beyond the largest offset.  Otherwise
        exactly the bytes of the frame stop missing, and its callback is now known: invoked or
        stored, once. */
    method Push(data: seq<Byte>, offset: int, doneCb: Option<nat>) returns (r: PushResult)
      requires Valid() && 0 <= offset
      requires Named(doneCb) !! Known(queue, released)
      modifies this
      ensures r.PushPanicked? <==> data != [] && MAX_BYTE_COUNT <= offset + |data|
      ensures r.PushPanicked? ==>
                queue == old(queue) && readPos == old(readPos) && gaps == old(gaps) && released == old(released)
      ensures r.PushFailed? <==> old(|gaps|) == MAX_GAPS && Splits(old(gaps), offset, offset + |data|)
      ensures r.Pushed? ==> Valid() && readPos == old(readPos)
      ensures r.Pushed? ==> Difference(old(gaps), offset, offset + |data|, gaps)
      ensures r.Pushed? ==> Known(queue, released) == old(Known(queue, released)) + Named(doneCb)
      ensures r.Pushed? ==> ChunksFrom(queue, old(queue), data, offset)
    {
      var inserted := Insert(data, offset, doneCb);
      match inserted {
        case Duplicate =>
          InvokeNew(queue, released, doneCb);
          SplitsMissing(gaps, offset, offset + |data|);
          released := Invoke(released, doneCb);
          r := Pushed;
        case Inserted => r := Pushed;
        case TooManyGaps => r := PushFailed;
        case NoGapFound => r := PushPanicked;
      }
    }

    /** Pop hands out the chunk at the read position, or nothing if that byte is missing.
        The read position never passes a gap. */
    method Pop() returns (offset: int, data: seq<Byte>, doneCb: Option<nat>, panicked: bool)
      requires Valid()
      modifies this
      ensures Valid() && !panicked
      ensures gaps == old(gaps) && released == old(released)
      ensures offset == old(readPos) && readPos == offset + |data|
      ensures data == [] <==> InGaps(gaps, offset)
      ensures data == [] ==> queue == old(queue) && doneCb == None
      ensures data != [] ==>
                offset in old(queue) && old(queue)[offset] == Entry(data, doneCb) && queue == old(queue) - {offset}
      ensures Named(doneCb) !! Known(queue, released)
      ensures Known(queue, released) + Named(doneCb) == old(Known(queue, released))
    {
      offset, panicked := readPos, false;
      if readPos !in queue {
        FirstMissing(queue, readPos, gaps);
        return offset, [], None, false;
      }
      TakeFirst(queue, readPos, gaps);
      TakeCallback(queue, released, readPos);
      var entry := queue[readPos];
      queue := queue - {readPos};
      readPos := readPos + |entry.data|;
      if gaps[0].end <= readPos {
        panicked := true;
      }
      data, doneCb := entry.data, entry.doneCb;
    }
  }

  /** The last byte that an offset can name makes Push panic. */
  method LastBytePanics() returns (sorter: FrameSorter, r: PushResult)
    ensures fresh(sorter) && r.PushPanicked?
  {
    sorter := new FrameSorter();
    r := sorter.Push([0], MAX_BYTE_COUNT - 1, None);
  }

  // ----- whole runs

  datatype Op = OpPush(data: seq<Byte>, offset: int, hasCallback: bool) | OpPop

  /** The frame is a slice of the stream, below the largest offset. */
  ghost predicate SliceOf(stream: int -> Byte, data: seq<Byte>, offset: int) {
    && 0 <= offset && offset + |data| < MAX_BYTE_COUNT
    && forall i :: 0 <= i < |data| ==> data[i] == stream(offset + i)
  }

  ghost predicate AllSlices(stream: int -> Byte, ops: seq<Op>) {
    forall i :: 0 <= i < |ops| && ops[i].OpPush? ==> SliceOf(stream, ops[i].data, ops[i].offset)
  }

  /** Some frame among ops carried byte x. */
  ghost predicate Arrived(ops: seq<Op>, x: int) {
    exists i :: 0 <= i < |ops| && ops[i].OpPush? && ops[i].offset <= x < ops[i].offset + |ops[i].data|
  }

  ghost predicate Agrees(stream: int -> Byte, queue: Queue) {
    forall k :: k in queue ==> SliceOf(stream, queue[k].data, k)
  }

  /** The operations whose callback was handed to the sorter. */
  ghost function Given(ops: seq<Op>): set<nat> {
    set i: nat | i < |ops| && ops[i].OpPush? && ops[i].hasCallback
  }

  ghost predicate NoRepeat(s: seq<nat>) {
    forall i, j :: 0 <= i < j < |s| ==> s[i] != s[j]
  }

  /** What holds of the bytes between two operations of a run: the sorter misses exactly
      those that did not arrive, and its chunks are slices of the stream. */
  ghost predicate BytesOk(stream: int -> Byte, ops: seq<Op>, queue: Queue, readPos: int, gaps: seq<Interval>,
                          delivered: seq<Byte>)
  {
    && Agrees(stream, queue)
    && (forall x :: InGaps(gaps, x) <==> 0 <= x < MAX_BYTE_COUNT && !Arrived(ops, x))
    && |delivered| == readPos && (forall x :: 0 <= x < |delivered| ==> delivered[x] == stream(x))
  }

  /** And of the callbacks: each is known to the sorter or was handed out. */
  ghost predicate CallbacksOk(ops: seq<Op>, queue: Queue, released: seq<nat>, handed: seq<nat>) {
    && NoRepeat(handed) && (set c | c in handed) !! Known(queue, released)
    && (set c | c in handed) + Known(queue, released) == Given(ops)
  }

  lemma PushBytes(stream: int -> Byte, before: seq<Op>, op: Op, queue: Queue, readPos: int, gaps: seq<Interval>,
                  queue': Queue, gaps': seq<Interval>, delivered: seq<Byte>)
    requires BytesOk(stream, before, queue, readPos, gaps, delivered)
    requires op.OpPush? && SliceOf(stream, op.data, op.offset)
    requires ChunksFrom(queue', queue, op.data, op.offset)
    requires Difference(gaps, op.offset, op.offset + |op.data|, gaps')
    ensures BytesOk(stream, before + [op], queue', readPos, gaps', delivered)
  {
    AgreesAfterPush(stream, queue, queue', op.data, op.offset);
    ArrivedStep(before, op);
  }

  lemma PushCallbacks(before: seq<Op>, op: Op, queue: Queue, released: seq<nat>, queue': Queue, released': seq<nat>,
                      handed: seq<nat>)
    requires CallbacksOk(before, queue, released, handed) && op.OpPush?
    requires Known(queue', released') == Known(queue, released) + if op.hasCallback then {|before|} else {}
    ensures CallbacksOk(before + [op], queue', released', handed)
  {
    var all := before + [op];
    assert all[|before|] == op && forall i :: 0 <= i < |before| ==> all[i] == before[i];
    assert Given(all) == Given(before) + if op.hasCallback then {|before|} else {};
  }

  lemma ArrivedStep(before: seq<Op>, op: Op)
    ensures forall x :: Arrived(before + [op], x) <==>
                        Arrived(before, x) || (op.OpPush? && op.offset <= x < op.offset + |op.data|)
  {
    var all := before + [op];
    forall x ensures Arrived(all, x) <==>
                     Arrived(before, x) || (op.OpPush? && op.offset <= x < op.offset + |op.data|)
    {
      assert all[|before|] == op;
      if Arrived(before, x) {
        var i :| 0 <= i < |before| && before[i].OpPush? && before[i].offset <= x < before[i].offset + |before[i].data|;
        assert all[i] == before[i];
      }
    }
  }

  lemma AgreesAfterPush(stream: int -> Byte, before: Queue, after: Queue, data: seq<Byte>, offset: int)
    requires Agrees(stream, before) && SliceOf(stream, data, offset) && ChunksFrom(after, before, data, offset)
    ensures Agrees(stream, after)
  {
    forall k | k in after ensures SliceOf(stream, after[k].data, k) {
      if PartOf(k, after[k], data, offset) {
        assert forall i :: 0 <= i < |after[k].data| ==> after[k].data[i] == data[k - offset + i];
      }
    }
  }

  lemma PopStep(stream: int -> Byte, ops: seq<Op>, queue: Queue, readPos: int, gaps: seq<Interval>, released: seq<nat>,
                delivered: seq<Byte>, handed: seq<nat>, queue': Queue, entry: Entry)
    requires BytesOk(stream, ops, queue, readPos, gaps, delivered) && CallbacksOk(ops, queue, released, handed)
    requires if entry.data == [] then queue' == queue && entry.doneCb == None
             else readPos in queue && queue[readPos] == entry && queue' == queue - {readPos}
    requires Named(entry.doneCb) !! Known(queue', released)
    requires Known(queue', released) + Named(entry.doneCb) == Known(queue, released)
    ensures BytesOk(stream, ops, queue', readPos + |entry.data|, gaps, delivered + entry.data)
    ensures CallbacksOk(ops, queue', released, Invoke(handed, entry.doneCb))
  {
    if entry.data != [] {
      assert SliceOf(stream, entry.data, readPos);
    }
    var handed' := Invoke(handed, entry.doneCb);
    assert (set c | c in handed') == (set c | c in handed) + Named(entry.doneCb);
  }

  lemma PopIsNoOp(stream: int -> Byte, ops: seq<Op>, queue: Queue, readPos: int, gaps: seq<Interval>,
                  released: seq<nat>,
                  delivered: seq<Byte>, handed: seq<nat>)
    requires BytesOk(stream, ops, queue, readPos, gaps, delivered) && CallbacksOk(ops, queue, released, handed)
    ensures BytesOk(stream, ops + [OpPop], queue, readPos, gaps, delivered)
    ensures CallbacksOk(ops + [OpPop], queue, released, handed)
  {
    ArrivedStep(ops, OpPop);
    var all := ops + [OpPop];
    assert forall i :: 0 <= i < |ops| ==> all[i] == ops[i];
    assert Given(all) == Given(ops);
  }

  /** One operation of a run. */
  method Step(op: Op, sorter: FrameSorter, ghost stream: int -> Byte, ghost before: seq<Op>, delivered: seq<Byte>,
              handed: seq<nat>, id: nat)
    returns (delivered': seq<Byte>, handed': seq<nat>, failed: bool)
    requires sorter.Valid() && id == |before|
    requires BytesOk(stream, before, sorter.queue, sorter.readPos, sorter.gaps, delivered)
    requires CallbacksOk(before, sorter.queue, sorter.released, handed)
    requires op.OpPush? ==> SliceOf(stream, op.data, op.offset)
    modifies sorter
    ensures !failed ==> sorter.Valid()
                        && BytesOk(stream, before + [op], sorter.queue, sorter.readPos, sorter.gaps, delivered')
                        && CallbacksOk(before + [op], sorter.queue, sorter.released, handed')
    ensures failed ==> delivered' == delivered && old(|sorter.gaps|) >= MAX_GAPS
    ensures !failed ==> |sorter.gaps| <= old(|sorter.gaps|) + 1
  {
    delivered', handed', failed := delivered, handed, false;
    ghost var q0, g0, r0, p0 := sorter.queue, sorter.gaps, sorter.released, sorter.readPos;
    match op {
      case OpPush(data, offset, hasCallback) =>
        assert id !in Given(before);
        var r := sorter.Push(data, offset, if hasCallback then Some(id) else None);
        failed := r != Pushed;
        if !failed {
          PushBytes(stream, before, op, q0, p0, g0, sorter.queue, sorter.gaps, delivered);
          PushCallbacks(before, op, q0, r0, sorter.queue, sorter.released, handed);
        }
      case OpPop =>
        var offset, data, doneCb, panicked := sorter.Pop();
        PopStep(stream, before, q0, p0, g0, r0, delivered, handed, sorter.queue, Entry(data, doneCb));
        delivered', handed' := delivered + data, Invoke(handed, doneCb);
        PopIsNoOp(stream, before, sorter.queue, sorter.readPos, g0, r0, delivered', handed');
    }
  }

  /** Pops until nothing comes out. */
  method Drain(sorter: FrameSorter, ghost stream: int -> Byte, ghost ops: seq<Op>, start: seq<Byte>, out: seq<nat>)
    returns (delivered: seq<Byte>, handed: seq<nat>)
    requires sorter.Valid()
    requires BytesOk(stream, ops, sorter.queue, sorter.readPos, sorter.gaps, start)
    requires CallbacksOk(ops, sorter.queue, sorter.released, out)
    modifies sorter
    ensures sorter.Valid()
    ensures BytesOk(stream, ops, sorter.queue, sorter.readPos, sorter.gaps, delivered)
    ensures CallbacksOk(ops, sorter.queue, sorter.released, handed)
    ensures InGaps(sorter.gaps, |delivered|)
  {
    delivered, handed := start, out;
    var more := true;
    while more
      invariant sorter.Valid()
      invariant BytesOk(stream, ops, sorter.queue, sorter.readPos, sorter.gaps, delivered)
      invariant CallbacksOk(ops, sorter.queue, sorter.released, handed)
      invariant !more ==> InGaps(sorter.gaps, |delivered|)
      decreases more, sorter.queue.Keys
    {
      ghost var q0, p0 := sorter.queue, sorter.readPos;
      var offset, data, doneCb, panicked := sorter.Pop();
      PopStep(stream, ops, q0, p0, sorter.gaps, sorter.released, delivered, handed, sorter.queue, Entry(data, doneCb));
      delivered, handed := delivered + data, Invoke(handed, doneCb);
      more := data != [];
    }
  }

  /** Every run of pushes that are slices of one stream, in any order and with any overlap,
      mixed with pops and ended by pops until nothing comes out: the popped data is the
      stream up to the first byte that did not arrive, and every callback was invoked or handed
      out once, or is stored.  A run can end early for too many gaps, but not before a thousand operations. */
  method Run(ops: seq<Op>, ghost stream: int -> Byte)
    returns (delivered: seq<Byte>, called: seq<nat>, failed: bool, ghost stored: set<nat>)
    requires AllSlices(stream, ops)
    ensures forall x :: 0 <= x < |delivered| ==> delivered[x] == stream(x)
    ensures failed ==> |ops| >= MAX_GAPS
    ensures !failed ==> forall x :: 0 <= x < |delivered| ==> Arrived(ops, x)
    ensures !failed ==> !Arrived(ops, |delivered|)
    ensures !failed ==> NoRepeat(called) && (set c | c in called) !! stored
    ensures !failed ==> (set c | c in called) + stored == Given(ops)
  {
    var sorter := new FrameSorter();
    delivered, called, failed, stored := [], [], false, {};
    var handed := [];
    NothingArrived(stream);
    var i := 0;
    assert ops[..0] == [];
    while i < |ops|
      invariant 0 <= i <= |ops| && sorter.Valid() && |sorter.gaps| <= i + 1
      invariant BytesOk(stream, ops[..i], sorter.queue, sorter.readPos, sorter.gaps, delivered)
      invariant CallbacksOk(ops[..i], sorter.queue, sorter.released, handed)
    {
      assert ops[..i + 1] == ops[..i] + [ops[i]];
      delivered, handed, failed := Step(ops[i], sorter, stream, ops[..i], delivered, handed, i);
      if failed {
        return;
      }
      i := i + 1;
    }
    assert ops[..i] == ops;
    delivered, handed := Drain(sorter, stream, ops, delivered, handed);
    called, stored := sorter.released + handed, Held(sorter.queue);
    DeliveredArrived(stream, ops, sorter.queue, sorter.readPos, sorter.gaps, delivered);
    NoneTwice(ops, sorter.queue, sorter.released, handed);
  }

  lemma NothingArrived(stream: int -> Byte)
    ensures BytesOk(stream, [], map[], 0, [Interval(0, MAX_BYTE_COUNT)], []) && CallbacksOk([], map[], [], [])
  {
    assert [Interval(0, MAX_BYTE_COUNT)][0] == Interval(0, MAX_BYTE_COUNT);
  }

  lemma DeliveredArrived(stream: int -> Byte, ops: seq<Op>, queue: Queue, readPos: int, gaps: seq<Interval>,
                         delivered: seq<Byte>)
    requires ValidGaps(gaps) && readPos <= gaps[0].start && BytesOk(stream, ops, queue, readPos, gaps, delivered)
    requires InGaps(gaps, |delivered|)
    ensures forall x :: 0 <= x < |delivered| ==> Arrived(ops, x)
    ensures !Arrived(ops, |delivered|)
  {
  }

  lemma NoneTwice(ops: seq<Op>, queue: Queue, released: seq<nat>, handed: seq<nat>)
    requires CallbacksOnce(queue, released) && CallbacksOk(ops, queue, released, handed)
    ensures NoRepeat(released + handed) && (set c | c in released + handed) !! Held(queue)
    ensures (set c | c in released + handed) + Held(queue) == Given(ops)
  {
    assert (set c | c in released + handed) == (set c | c in released) + (set c | c in handed);
    assert forall i :: 0 <= i < |handed| ==> handed[i] in (set c | c in handed);
    assert forall i :: 0 <= i < |released| ==> released[i] in Known(queue, released);
  }
}
