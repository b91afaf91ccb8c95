/** The packet numbers received (internal/ackhandler/received_packet_history.go). */
module ReceivedPackets {
  import opened Protocol

  const MAX_NUM_ACK_RANGES := 32

  datatype Interval = Interval(start: int, end: int)

  /** Sorted, disjoint, and with a gap between neighbours. */
  ghost predicate ValidRanges(r: seq<Interval>) {
    && (forall i :: 0 <= i < |r| ==> r[i].start <= r[i].end)
    && (forall i, j :: 0 <= i < j < |r| ==> r[i].end + 1 < r[j].start)
  }

  ghost predicate Contains(r: seq<Interval>, p: int) {
    exists i :: 0 <= i < |r| && In(r[i], p)
  }

  predicate In(i: Interval, p: int) {
    i.start <= p <= i.end
  }

  /** r1 holds what r holds, and p. */
  ghost predicate Added(r: seq<Interval>, p: int, r1: seq<Interval>) {
    forall q :: Contains(r1, q) <==> Contains(r, q) || q == p
  }

  /** A new range as element k. */
  function WithRange(r: seq<Interval>, k: nat, p: int): (r1: seq<Interval>)
    requires k <= |r|
    ensures |r1| == |r| + 1 && r1[k] == Interval(p, p)
    ensures forall i :: 0 <= i < k ==> r1[i] == r[i]
    ensures forall i :: k <= i < |r| ==> r1[i + 1] == r[i]
  {
    r[..k] + [Interval(p, p)] + r[k..]
  }

  lemma InsertAdded(r: seq<Interval>, k: nat, p: int)
    requires k <= |r|
    ensures Added(r, p, WithRange(r, k, p))
  {
    var r1 := WithRange(r, k, p);
    forall q ensures Contains(r1, q) <==> Contains(r, q) || q == p {
      if Contains(r, q) {
        InsertKeeps(r, k, p, q);
      }
      if Contains(r1, q) && q != p {
        InsertOnly(r, k, p, q);
      }
      assert In(r1[k], p);
    }
  }

  lemma InsertOnly(r: seq<Interval>, k: nat, p: int, q: int)
    requires k <= |r| && Contains(WithRange(r, k, p), q) && q != p
    ensures Contains(r, q)
  {
    var i :| 0 <= i < |r| + 1 && In(WithRange(r, k, p)[i], q);
    assert In(r[if i < k then i else i - 1], q);
  }

  lemma InsertKeeps(r: seq<Interval>, k: nat, p: int, q: int)
    requires k <= |r| && Contains(r, q)
    ensures Contains(WithRange(r, k, p), q)
  {
    var i :| 0 <= i < |r| && In(r[i], q);
    assert In(WithRange(r, k, p)[if i < k then i else i + 1], q);
  }

  /** p fits before element k, with gaps. */
  ghost predicate Between(r: seq<Interval>, k: nat, p: int) {
    k <= |r| && (forall i :: 0 <= i < k ==> r[i].end + 1 < p) && (forall i :: k <= i < |r| ==> p + 1 < r[i].start)
  }

  lemma InsertValid(r: seq<Interval>, k: nat, p: int)
    requires ValidRanges(r) && Between(r, k, p)
    ensures ValidRanges(WithRange(r, k, p))
  {
    var r1 := WithRange(r, k, p);
    forall i, j | 0 <= i < j < |r1| ensures r1[i].end + 1 < r1[j].start {
      assert i < k ==> r1[i] == r[i];
      assert i > k ==> r1[i] == r[i - 1];
      assert j < k ==> r1[j] == r[j];
      assert j > k ==> r1[j] == r[j - 1];
    }
  }

  lemma Insert(r: seq<Interval>, k: nat, p: int)
    requires ValidRanges(r) && k <= |r| && (k > 0 ==> r[k - 1].end + 1 < p) && (k < |r| ==> p + 1 < r[k].start)
    ensures ValidRanges(WithRange(r, k, p)) && Added(r, p, WithRange(r, k, p)) && !Touches(r, p)
  {
    assert Between(r, k, p);
    InsertValid(r, k, p);
    InsertAdded(r, k, p);
  }

  lemma ExtendEnd(r: seq<Interval>, k: nat, p: int)
    requires ValidRanges(r) && k < |r| && r[k].end == p - 1 && (k + 1 < |r| ==> p + 1 < r[k + 1].start)
    ensures var r1 := r[k := Interval(r[k].start, p)]; ValidRanges(r1) && Added(r, p, r1)
  {
    var r1 := r[k := Interval(r[k].start, p)];
    assert forall i :: k < i < |r| ==> p + 1 < r[i].start;
    forall q ensures Contains(r1, q) <==> Contains(r, q) || q == p {
      if Contains(r, q) {
        var i :| 0 <= i < |r| && In(r[i], q);
        assert In(r1[i], q);
      }
      if Contains(r1, q) && q != p {
        var i :| 0 <= i < |r1| && In(r1[i], q);
        assert In(r[i], q);
      }
      assert In(r1[k], p);
    }
  }

  lemma ExtendStart(r: seq<Interval>, k: nat, p: int)
    requires ValidRanges(r) && k < |r| && r[k].start == p + 1 && (k > 0 ==> r[k - 1].end + 1 < p)
    ensures var r1 := r[k := Interval(p, r[k].end)]; ValidRanges(r1) && Added(r, p, r1)
  {
    var r1 := r[k := Interval(p, r[k].end)];
    assert forall i :: 0 <= i < k ==> r[i].end + 1 < p;
    forall q ensures Contains(r1, q) <==> Contains(r, q) || q == p {
      if Contains(r, q) {
        var i :| 0 <= i < |r| && In(r[i], q);
        assert In(r1[i], q);
      }
      if Contains(r1, q) && q != p {
        var i :| 0 <= i < |r1| && In(r1[i], q);
        assert In(r[i], q);
      }
      assert In(r1[k], p);
    }
  }

  /** Elements k - 1 and k as one range. */
  function Joined(r: seq<Interval>, k: nat): (r1: seq<Interval>)
    requires 0 < k < |r|
    ensures |r1| == |r| - 1 && r1[k - 1] == Interval(r[k - 1].start, r[k].end)
    ensures forall i :: 0 <= i < k - 1 ==> r1[i] == r[i]
    ensures forall i :: k <= i < |r1| ==> r1[i] == r[i + 1]
  {
    r[..k - 1] + [Interval(r[k - 1].start, r[k].end)] + r[k + 1..]
  }

  lemma JoinedAdded(r: seq<Interval>, k: nat, p: int)
    requires ValidRanges(r) && 0 < k < |r| && r[k].start == p + 1 && r[k - 1].end + 1 == p
    ensures Added(r, p, Joined(r, k))
  {
    var r1 := Joined(r, k);
    forall q ensures Contains(r1, q) <==> Contains(r, q) || q == p {
      if Contains(r, q) {
        JoinedKeeps(r, k, q);
      }
      if Contains(r1, q) && q != p {
        var i :| 0 <= i < |r1| && In(r1[i], q);
        assert if i < k - 1 then In(r[i], q) else if i == k - 1 then In(r[k - 1], q) || In(r[k], q)
          else In(r[i + 1], q);
      }
      assert In(r1[k - 1], p);
    }
  }

  lemma JoinedKeeps(r: seq<Interval>, k: nat, q: int)
    requires ValidRanges(r) && 0 < k < |r| && Contains(r, q)
    ensures Contains(Joined(r, k), q)
  {
    var i :| 0 <= i < |r| && In(r[i], q);
    assert In(Joined(r, k)[if i < k then i else i - 1], q);
  }

  /** p closes the gap between two ranges. */
  lemma Merge(r: seq<Interval>, k: nat, p: int)
    requires ValidRanges(r) && 0 < k < |r| && r[k].start == p + 1 && r[k - 1].end + 1 == p
    ensures ValidRanges(Joined(r, k)) && Added(r, p, Joined(r, k))
  {
    JoinedAdded(r, k, p);
  }

  /** p is in a range or next to one. */
  ghost predicate Touches(r: seq<Interval>, p: int) {
    Contains(r, p - 1) || Contains(r, p) || Contains(r, p + 1)
  }

  /** Adds p, looking from the highest range down. */
  method AddToRanges(r: seq<Interval>, p: int) returns (r1: seq<Interval>, isNew: bool)
    requires ValidRanges(r)
    ensures ValidRanges(r1) && Added(r, p, r1) && (isNew <==> !Contains(r, p))
    ensures |r1| <= |r| + 1 && (|r1| == |r| + 1 <==> !Touches(r, p))
    ensures |r1| > 0 && (|r| > 0 ==> r1[0].start == Min(r[0].start, p))
  {
    var i := |r|;
    while i > 0
      invariant 0 <= i <= |r| && forall k :: i <= k < |r| ==> p + 1 < r[k].start
    {
      i := i - 1;
      if In(r[i], p) {
        return r, false;
      }
      if r[i].end == p - 1 {
        assert In(r[i], p - 1);
        ExtendEnd(r, i, p);
        return r[i := Interval(r[i].start, p)], true;
      }
      if r[i].start == p + 1 {
        assert In(r[i], p + 1);
        if i > 0 && r[i - 1].end + 1 == p {
          Merge(r, i, p);
          return Joined(r, i), true;
        }
        ExtendStart(r, i, p);
        return r[i := Interval(p, r[i].end)], true;
      }
      if p > r[i].end {
        Insert(r, i + 1, p);
        return WithRange(r, i + 1, p), true;
      }
    }
    Insert(r, 0, p);
    return WithRange(r, 0, p), true;
  }

  /** The ranges that remain if the lowest k are dropped. */
  lemma Dropped(r: seq<Interval>, k: nat)
    requires ValidRanges(r) && k < |r|
    ensures ValidRanges(r[k..]) && forall q :: Contains(r[k..], q) <==> Contains(r, q) && r[k].start <= q
  {
    assert forall i :: 0 <= i < |r| - k ==> r[k..][i] == r[k + i];
    forall q ensures Contains(r[k..], q) <==> Contains(r, q) && r[k].start <= q {
      if Contains(r[k..], q) {
        var i :| 0 <= i < |r| - k && In(r[k..][i], q);
        assert In(r[k + i], q) && r[k].start <= r[k + i].start;
      }
      if Contains(r, q) && r[k].start <= q {
        var i :| 0 <= i < |r| && In(r[i], q);
        assert i >= k && In(r[k..][i - k], q);
      }
    }
  }

  lemma CutStart(r: seq<Interval>, p: int)
    requires ValidRanges(r) && |r| > 0 && In(r[0], p)
    ensures var r1 := r[0 := Interval(p, r[0].end)];
            ValidRanges(r1) && forall q :: Contains(r1, q) <==> Contains(r, q) && p <= q
  {
    var r1 := r[0 := Interval(p, r[0].end)];
    forall q ensures Contains(r1, q) <==> Contains(r, q) && p <= q {
      if Contains(r1, q) {
        var i :| 0 <= i < |r1| && In(r1[i], q);
        assert In(r[i], q);
      }
      if Contains(r, q) && p <= q {
        var i :| 0 <= i < |r| && In(r[i], q);
        assert In(r1[i], q);
      }
    }
  }

  /** There are as many ranges as there may be, and p needs another one. */
  ghost predicate Full(r: seq<Interval>, p: int) {
    |r| == MAX_NUM_ACK_RANGES && !Touches(r, p)
  }

  /** p was added; if that took another range than there may be, the lowest one is gone. */
  ghost predicate AddedCapped(r: seq<Interval>, p: int, r1: seq<Interval>) {
    if Full(r, p) then
      && |r1| > 0 && Min(r[0].start, p) < r1[0].start
      && forall q :: Contains(r1, q) <==> (Contains(r, q) || q == p) && r1[0].start <= q
    else Added(r, p, r1) && (!Touches(r, p) ==> |r1| == |r| + 1)
  }

  /** Exactly when adding p loses nothing. */
  lemma LosesNothing(r: seq<Interval>, p: int, r1: seq<Interval>)
    requires ValidRanges(r) && AddedCapped(r, p, r1)
    ensures Added(r, p, r1) <==> !Full(r, p)
  {
    if Full(r, p) {
      var lowest := Min(r[0].start, p);
      assert In(r[0], r[0].start);
      assert Contains(r, lowest) || lowest == p;
      assert !Contains(r1, lowest);
    }
  }

  method AddCapped(r: seq<Interval>, p: int) returns (r1: seq<Interval>, isNew: bool)
    requires ValidRanges(r) && |r| <= MAX_NUM_ACK_RANGES
    ensures ValidRanges(r1) && |r1| <= MAX_NUM_ACK_RANGES && AddedCapped(r, p, r1) && (isNew <==> !Contains(r, p))
  {
    r1, isNew := AddToRanges(r, p);
    if |r1| > MAX_NUM_ACK_RANGES {
      Dropped(r1, |r1| - MAX_NUM_ACK_RANGES);
      r1 := r1[|r1| - MAX_NUM_ACK_RANGES..];
    }
  }

  /** Keeps what is at least p. */
  method CutBelow(r: seq<Interval>, p: int) returns (r1: seq<Interval>)
    requires ValidRanges(r)
    ensures ValidRanges(r1) && |r1| <= |r| && forall q :: Contains(r1, q) <==> Contains(r, q) && p <= q
  {
    var k := 0;
    while k < |r| && r[k].end < p
      invariant 0 <= k <= |r| && forall i :: 0 <= i < k ==> r[i].end < p
    {
      k := k + 1;
    }
    r1 := r[k..];
    if k < |r| {
      Dropped(r, k);
      if r[k].start < p {
        CutStart(r1, p);
        r1 := r1[0 := Interval(p, r1[0].end)];
      }
    }
  }

  /** Descending ranges with real gaps, as an ACK frame needs them (section 19.3.1 of RFC 9000). */
  ghost predicate ValidAckRanges(a: seq<Interval>) {
    && (forall i :: 0 <= i < |a| ==> a[i].start <= a[i].end)
    && (forall i, j :: 0 <= i < j < |a| ==> a[j].end + 1 < a[i].start)
  }

  class ReceivedPacketHistory {
    var ranges: seq<Interval>
    var deletedBelow: int

    /** All numbers received so far, and whether ranges had to be dropped because there were too many. */
    ghost var received: set<int>
    ghost var dropped: bool

    /** Unless ranges were dropped, the ranges hold exactly what was received from deletedBelow on. */
    ghost predicate Valid()
      reads this
    {
      && ValidRanges(ranges) && |ranges| <= MAX_NUM_ACK_RANGES
      && (forall q :: Contains(ranges, q) ==> q in received && deletedBelow <= q)
      && (!dropped ==> forall q :: q in received && deletedBelow <= q ==> Contains(ranges, q))
    }

    constructor ()
      ensures Valid() && ranges == [] && deletedBelow == 0 && received == {} && !dropped
    {
      ranges, deletedBelow, received, dropped := [], 0, {}, false;
    }

    /** Reports a number as new exactly if it is not below the cutoff and not in a range. Ranges are
        dropped exactly if there are as many as there may be and the number starts another one. */
    method ReceivedPacket(p: int) returns (isNew: bool)
      requires Valid()
      modifies this
      ensures Valid() && deletedBelow == old(deletedBelow) && received == old(received) + {p}
      ensures isNew <==> deletedBelow <= p && !old(Contains(ranges, p))
      ensures dropped == (old(dropped) || (deletedBelow <= p && old(Full(ranges, p))))
      ensures if p < deletedBelow then ranges == old(ranges) else AddedCapped(old(ranges), p, ranges)
    {
      received := received + {p};
      if p < deletedBelow {
        return false;
      }
      var r;
      r, isNew := AddCapped(ranges, p);
      dropped := dropped || Full(ranges, p);
      ranges := r;
    }

    /** Forgets what is below p, and nothing else. */
    method DeleteBelow(p: int)
      requires Valid()
      modifies `ranges, `deletedBelow
      ensures Valid() && deletedBelow == Max(old(deletedBelow), p)
      ensures forall q :: Contains(ranges, q) <==> old(Contains(ranges, q)) && deletedBelow <= q
    {
      if p < deletedBelow {
        return;
      }
      ranges := CutBelow(ranges, p);
      deletedBelow := p;
    }

    method AppendAckRanges() returns (a: seq<Interval>)
      requires Valid()
      ensures ValidAckRanges(a) && |a| == |ranges| && forall q :: Contains(a, q) <==> Contains(ranges, q)
    {
      a := [];
      var i := |ranges|;
      while i > 0
        invariant 0 <= i <= |ranges| && |a| == |ranges| - i
        invariant forall k :: 0 <= k < |a| ==> a[k] == ranges[|ranges| - 1 - k]
      {
        i := i - 1;
        a := a + [ranges[i]];
      }
      forall q ensures Contains(a, q) <==> Contains(ranges, q) {
        if Contains(ranges, q) {
          var k :| 0 <= k < |ranges| && In(ranges[k], q);
          assert In(a[|ranges| - 1 - k], q);
        }
      }
    }

    /** Unless ranges were dropped, a number is a duplicate exactly if it was received or is below the cutoff. */
    method IsPotentiallyDuplicate(p: int) returns (r: bool)
      requires Valid()
      ensures r <==> p < deletedBelow || Contains(ranges, p)
      ensures !dropped ==> (r <==> p < deletedBelow || p in received)
    {
      if p < deletedBelow {
        return true;
      }
      var i := |ranges|;
      while i > 0
        invariant 0 <= i <= |ranges| && forall k :: i <= k < |ranges| ==> p < ranges[k].start
      {
        i := i - 1;
        if p > ranges[i].end {
          return false;
        }
        if In(ranges[i], p) {
          return true;
        }
      }
      return false;
    }
  }

  lemma Lowest(r: seq<Interval>, p: int)
    requires ValidRanges(r) && Contains(r, p)
    ensures |r| > 0 && r[0].start <= p && Contains(r, r[0].start)
  {
    var i :| 0 <= i < |r| && In(r[i], p);
    assert In(r[0], r[0].start) && r[0].start <= r[i].start;
  }

  /** After 33 numbers with gaps between them, the first one is taken for new again. */
  method ForgetsDropped() returns (h: ReceivedPacketHistory, isNew: bool, ghost before: set<int>)
    ensures fresh(h) && h.Valid() && h.deletedBelow == 0 && h.dropped
    ensures 0 in before && isNew && h.received == before
  {
    h := new ReceivedPacketHistory();
    for i := 0 to MAX_NUM_ACK_RANGES
      invariant fresh(h) && h.Valid() && h.deletedBelow == 0 && |h.ranges| == i && !h.dropped
      invariant forall q :: q in h.received <==> 0 <= q < 2 * i && q % 2 == 0
    {
      isNew := h.ReceivedPacket(2 * i);
    }
    Lowest(h.ranges, 0);
    isNew := h.ReceivedPacket(2 * MAX_NUM_ACK_RANGES);
    before := h.received;
    isNew := h.ReceivedPacket(0);
  }
}
