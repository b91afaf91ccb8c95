/** The packets sent and not yet acknowledged or lost (internal/ackhandler/sent_packet_history.go). */
module SentPackets {
  import opened Protocol

  datatype Packet = Packet(number: int, isMtuProbe: bool, skipped: bool, isPathProbe: bool) {
    predicate Outstanding() {
      !skipped && !isMtuProbe && !isPathProbe
    }
  }

  type Slots = seq<Option<Packet>>

  /** Slot i holds number first + i or nothing; the first slot is never empty. */
  ghost predicate ValidSlots(s: Slots, highest: int) {
    |s| > 0 ==> s[0].Some? && s[0].value.number + |s| - 1 == highest
                && forall i :: 0 <= i < |s| && s[i].Some? ==> s[i].value.number == s[0].value.number + i
  }

  predicate IsOutstanding(p: Option<Packet>) {
    p.Some? && p.value.Outstanding()
  }

  /** The number of outstanding packets. */
  ghost function OutstandingIn(s: Slots): nat {
    if |s| == 0 then 0 else OutstandingIn(s[..|s| - 1]) + if IsOutstanding(s[|s| - 1]) then 1 else 0
  }

  lemma OutstandingAppend(s: Slots, p: Option<Packet>)
    ensures OutstandingIn(s + [p]) == OutstandingIn(s) + if IsOutstanding(p) then 1 else 0
  {
    assert (s + [p])[..|s|] == s;
  }

  lemma {:induction false} OutstandingEmptied(s: Slots, i: nat)
    requires i < |s|
    ensures OutstandingIn(s[i := None]) == OutstandingIn(s) - if IsOutstanding(s[i]) then 1 else 0
    decreases |s|
  {
    var n := |s| - 1;
    if i < n {
      OutstandingEmptied(s[..n], i);
      assert s[i := None][..n] == s[..n][i := None];
    } else {
      assert s[i := None][..n] == s[..n];
    }
  }

  /** Dropping empty slots from the front does not change the number. */
  lemma {:induction false} OutstandingDrop(s: Slots, k: nat)
    requires k <= |s| && forall i :: 0 <= i < k ==> s[i].None?
    ensures OutstandingIn(s[k..]) == OutstandingIn(s)
    decreases |s|
  {
    if k < |s| {
      var n := |s| - 1;
      OutstandingDrop(s[..n], k);
      assert s[k..][..n - k] == s[..n][k..];
    } else {
      NoneOutstanding(s);
    }
  }

  lemma {:induction false} NoneOutstanding(s: Slots)
    requires forall i :: 0 <= i < |s| ==> !IsOutstanding(s[i])
    ensures OutstandingIn(s) == 0
  {
    if |s| > 0 {
      NoneOutstanding(s[..|s| - 1]);
    }
  }

  lemma {:induction false} SomeOutstanding(s: Slots)
    requires OutstandingIn(s) > 0
    ensures exists i :: 0 <= i < |s| && IsOutstanding(s[i])
  {
    if !IsOutstanding(s[|s| - 1]) {
      SomeOutstanding(s[..|s| - 1]);
    }
  }

  lemma {:induction false} OutstandingPositive(s: Slots, i: nat)
    requires i < |s| && IsOutstanding(s[i])
    ensures OutstandingIn(s) > 0
    decreases |s|
  {
    if i < |s| - 1 {
      OutstandingPositive(s[..|s| - 1], i);
    }
  }

  /** The packet with number n, if it is stored. */
  ghost function At(s: Slots, n: int): Option<Packet> {
    if |s| > 0 && s[0].Some? && s[0].value.number <= n < s[0].value.number + |s| then s[n - s[0].value.number] else None
  }

  /** Drops empty slots from the front. */
  method CleanupStart(s: Slots) returns (r: Slots, k: nat)
    ensures |r| > 0 ==> r[0].Some?
    ensures k <= |s| && r == s[k..] && forall i :: 0 <= i < k ==> s[i].None?
    ensures OutstandingIn(r) == OutstandingIn(s)
  {
    k := 0;
    while k < |s| && s[k].None?
      invariant 0 <= k <= |s| && forall i :: 0 <= i < k ==> s[i].None?
    {
      k := k + 1;
    }
    OutstandingDrop(s, k);
    r := s[k..];
  }

  /** Empties the skipped packets directly before slot idx; returns where it stopped. */
  method DropSkipped(s: Slots, idx: nat) returns (r: Slots, stop: nat)
    requires idx < |s|
    ensures |r| == |s| && stop <= idx && OutstandingIn(r) == OutstandingIn(s)
    ensures forall i :: 0 <= i < |s| ==> r[i] == if Skips(s, i, idx) then None else s[i]
    ensures stop > 0 ==> r[0] == s[0]
  {
    r, stop := s, idx;
    while stop > 0
      invariant 0 <= stop <= idx && |r| == |s| && OutstandingIn(r) == OutstandingIn(s)
      invariant forall i :: 0 <= i < |s| ==> r[i] == if stop <= i < idx then None else s[i]
      invariant forall i :: stop <= i < idx ==> s[i].Some? && s[i].value.skipped
    {
      stop := stop - 1;
      if r[stop].None? || !r[stop].value.skipped {
        break;
      }
      OutstandingEmptied(r, stop);
      r := r[stop := None];
    }
  }

  /** Slot i and all between it and idx hold skipped packets. */
  ghost predicate Skips(s: Slots, i: int, idx: int)
    requires 0 <= i && idx < |s|
  {
    i < idx && forall j :: i <= j < idx ==> s[j].Some? && s[j].value.skipped
  }

  // ----- what operations do to the stored packets

  /** Number n is the only one that changes, to p. */
  ghost predicate Changed(before: Slots, after: Slots, number: int, p: Option<Packet>) {
    forall n :: At(after, n) == if n == number then p else At(before, n)
  }

  lemma AppendChanges(s: Slots, highest: int, p: Option<Packet>, number: int)
    requires ValidSlots(s, highest) && (if |s| > 0 then number == highest + 1 else p.Some?)
    requires (p.Some? ==> p.value.number == number)
    ensures ValidSlots(s + [p], number) && Changed(s, s + [p], number, p)
  {
  }

  /** s2 is s with some slots emptied, and r is s2 without its empty front. */
  lemma EmptiedAt(s: Slots, s2: Slots, r: Slots, highest: int, k: nat)
    requires ValidSlots(s, highest) && |s| > 0 && |s2| == |s|
    requires forall i :: 0 <= i < |s| ==> s2[i] == s[i] || s2[i] == None
    requires k <= |s2| && r == s2[k..] && (|r| > 0 ==> r[0].Some?) && forall i :: 0 <= i < k ==> s2[i].None?
    ensures ValidSlots(r, highest)
    ensures forall n :: At(r, n) == if 0 <= n - s[0].value.number < |s| then s2[n - s[0].value.number] else None
  {
    assert forall i :: 0 <= i < |r| ==> r[i] == s2[k + i];
    forall n ensures At(r, n) == if 0 <= n - s[0].value.number < |s| then s2[n - s[0].value.number] else None {
      if |r| > 0 && r[0].value.number <= n < r[0].value.number + |r| {
        assert r[n - r[0].value.number] == s2[n - s[0].value.number];
      }
    }
  }

  /** n is one of the skipped numbers directly before pn. */
  ghost predicate SkippedBefore(s: Slots, n: int, pn: int) {
    n < pn && forall k :: n <= k < pn ==> At(s, k).Some? && At(s, k).value.skipped
  }

  lemma SkipsAt(s: Slots, highest: int, idx: nat, i: int, pn: int)
    requires ValidSlots(s, highest) && idx < |s| && pn == s[0].value.number + idx && 0 <= i < |s|
    ensures Skips(s, i, idx) <==> SkippedBefore(s, s[0].value.number + i, pn)
  {
    var first := s[0].value.number;
    if Skips(s, i, idx) {
      forall k | first + i <= k < pn ensures At(s, k).Some? && At(s, k).value.skipped {
        assert s[k - first].Some?;
      }
    }
    if SkippedBefore(s, first + i, pn) {
      forall j | i <= j < idx ensures s[j].Some? && s[j].value.skipped {
        assert At(s, first + j) == s[j];
      }
    }
  }

  /** Empties slot idx, which holds pn, and the skipped numbers directly before it. */
  method TakeOut(s: Slots, idx: nat, ghost pn: int, ghost highest: int) returns (r: Slots)
    requires ValidSlots(s, highest) && idx < |s| && s[idx].Some? && pn == s[0].value.number + idx
    ensures ValidSlots(r, highest) && OutstandingIn(r) == OutstandingIn(s[idx := None])
    ensures forall n :: At(r, n) == if n == pn || SkippedBefore(s, n, pn) then None else At(s, n)
  {
    var s1 := s[idx := None];
    var s2, stop := DropSkipped(s1, idx);
    var k := 0;
    r := s2;
    if stop == 0 {
      r, k := CleanupStart(s2);
    }
    SkipsSame(s, s1, idx);
    EmptiedAt(s, s2, r, highest, k);
    TakenOut(s, s2, r, idx, pn, highest);
  }

  lemma SkipsSame(s: Slots, s1: Slots, idx: nat)
    requires idx < |s| && s1 == s[idx := None]
    ensures forall i :: 0 <= i < |s| ==> (Skips(s1, i, idx) <==> Skips(s, i, idx))
  {
    assert forall j :: 0 <= j < idx ==> s1[j] == s[j];
    forall i | 0 <= i < |s| ensures Skips(s1, i, idx) <==> Skips(s, i, idx) {
      if Skips(s1, i, idx) {
        assert forall j :: i <= j < idx ==> s1[j].Some? && s1[j].value.skipped && s[j] == s1[j];
      }
    }
  }

  lemma TakenOut(s: Slots, s2: Slots, r: Slots, idx: nat, pn: int, highest: int)
    requires ValidSlots(s, highest) && idx < |s| == |s2| && pn == s[0].value.number + idx
    requires forall i :: 0 <= i < |s| ==> s2[i] == if i == idx || Skips(s, i, idx) then None else s[i]
    requires forall n :: At(r, n) == if 0 <= n - s[0].value.number < |s| then s2[n - s[0].value.number] else None
    ensures forall n :: At(r, n) == if n == pn || SkippedBefore(s, n, pn) then None else At(s, n)
  {
    forall n ensures At(r, n) == if n == pn || SkippedBefore(s, n, pn) then None else At(s, n) {
      var i := n - s[0].value.number;
      if 0 <= i < |s| {
        SkipsAt(s, highest, idx, i, pn);
      }
    }
  }

  /** Empties slot idx, which holds pn. */
  method EmptyOut(s: Slots, idx: nat, ghost pn: int, ghost highest: int) returns (r: Slots)
    requires ValidSlots(s, highest) && idx < |s| && s[idx].Some? && pn == s[0].value.number + idx
    ensures ValidSlots(r, highest) && OutstandingIn(r) == OutstandingIn(s[idx := None]) && Changed(s, r, pn, None)
  {
    var s1 := s[idx := None];
    var k := 0;
    r := s1;
    if idx == 0 {
      r, k := CleanupStart(s1);
    }
    EmptiedAt(s, s1, r, highest, k);
  }

  datatype RemoveResult = NotFound | EmptySlot | Removed

  class SentPacketHistory {
    var packets: Slots
    var pathProbes: seq<Packet>
    var numOutstanding: int
    var highest: int

    ghost predicate Valid()
      reads this
    {
      && ValidSlots(packets, highest) && numOutstanding == OutstandingIn(packets)
      && highest >= INVALID_PACKET_NUMBER && (highest == INVALID_PACKET_NUMBER ==> packets == [] && pathProbes == [])
      && (forall i, j :: 0 <= i < j < |pathProbes| ==> pathProbes[i].number < pathProbes[j].number)
      && (forall i :: 0 <= i < |pathProbes| ==> pathProbes[i].number <= highest)
    }

    constructor ()
      ensures Valid() && packets == [] && pathProbes == [] && highest == INVALID_PACKET_NUMBER
    {
      packets, pathProbes, numOutstanding, highest := [], [], 0, INVALID_PACKET_NUMBER;
    }

    /** Packet numbers are used in sequence; anything else panics. */
    predicate Sequential(pn: int)
      reads this
    {
      pn >= 0 && (highest != INVALID_PACKET_NUMBER ==> pn == highest + 1)
    }

    /** The next slot, unless the slots would begin with an empty one. */
    method Append(pn: int, p: Option<Packet>)
      requires Valid() && Sequential(pn) && (p.Some? ==> p.value.number == pn)
      modifies `packets, `highest, `numOutstanding
      ensures Valid() && highest == pn && Changed(old(packets), packets, pn, p)
    {
      if |packets| > 0 || p.Some? {
        AppendChanges(packets, highest, p, pn);
        OutstandingAppend(packets, p);
        packets := packets + [p];
        numOutstanding := numOutstanding + if IsOutstanding(p) then 1 else 0;
      }
      highest := pn;
    }

    method SkippedPacket(pn: int)
      requires Valid() && Sequential(pn)
      modifies `packets, `highest, `numOutstanding
      ensures Valid() && highest == pn && Changed(old(packets), packets, pn, Some(Packet(pn, false, true, false)))
    {
      Append(pn, Some(Packet(pn, false, true, false)));
    }

    method SentNonAckElicitingPacket(pn: int)
      requires Valid() && Sequential(pn)
      modifies `packets, `highest, `numOutstanding
      ensures Valid() && highest == pn && Changed(old(packets), packets, pn, None)
    {
      Append(pn, None);
    }

    method SentAckElicitingPacket(p: Packet)
      requires Valid() && Sequential(p.number)
      modifies `packets, `highest, `numOutstanding
      ensures Valid() && highest == p.number && Changed(old(packets), packets, p.number, Some(p))
    {
      Append(p.number, Some(p));
    }

    method SentPathProbePacket(p: Packet)
      requires Valid() && Sequential(p.number)
      modifies this
      ensures Valid() && highest == p.number && pathProbes == old(pathProbes) + [p]
      ensures Changed(old(packets), packets, p.number, Some(Packet(p.number, false, false, true)))
    {
      Append(p.number, Some(Packet(p.number, false, false, true)));
      pathProbes := pathProbes + [p];
    }

    /** The lowest outstanding packet. */
    method FirstOutstanding() returns (r: Option<Packet>)
      requires Valid()
      ensures r.None? <==> forall n :: !IsOutstanding(At(packets, n))
      ensures r.Some? ==> At(packets, r.value.number) == r && r.value.Outstanding()
                          && forall n :: n < r.value.number ==> !IsOutstanding(At(packets, n))
    {
      if numOutstanding > 0 {
        SomeOutstanding(packets);
        var i := 0;
        while !IsOutstanding(packets[i])
          invariant 0 <= i < |packets| && forall k :: 0 <= k < i ==> !IsOutstanding(packets[k])
          invariant exists k :: i <= k < |packets| && IsOutstanding(packets[k])
          decreases |packets| - i
        {
          i := i + 1;
        }
        assert At(packets, packets[i].value.number) == packets[i];
        return packets[i];
      }
      forall n ensures !IsOutstanding(At(packets, n)) {
        if IsOutstanding(At(packets, n)) {
          OutstandingPositive(packets, n - packets[0].value.number);
        }
      }
      r := None;
    }

    method GetIndex(pn: int) returns (idx: nat, ok: bool)
      requires Valid()
      ensures ok ==> idx < |packets| && idx == pn - packets[0].value.number && packets[idx] == At(packets, pn)
      ensures !ok ==> At(packets, pn).None? && (packets == [] || pn < packets[0].value.number || highest < pn)
    {
      if |packets| == 0 || pn < packets[0].value.number || pn - packets[0].value.number > |packets| - 1 {
        return 0, false;
      }
      return pn - packets[0].value.number, true;
    }

    /** The counter for the slots without slot idx; it does not become negative. */
    method CountDown(idx: nat)
      requires Valid() && idx < |packets| && packets[idx].Some?
      modifies `numOutstanding
      ensures numOutstanding == OutstandingIn(packets[idx := None]) >= 0
    {
      OutstandingEmptied(packets, idx);
      if packets[idx].value.Outstanding() {
        numOutstanding := numOutstanding - 1;
      }
    }

    /** Removes a packet that was acknowledged, and the skipped numbers directly before it. */
    method Remove(pn: int) returns (r: RemoveResult)
      requires Valid()
      modifies `packets, `numOutstanding
      ensures Valid()
      ensures r.Removed? <==> old(At(packets, pn)).Some?
      ensures r.EmptySlot? <==>
                && At(packets, pn).None? && old(packets) != []
                && old(packets)[0].value.number <= pn <= highest && !r.Removed?
      ensures !r.Removed? ==> packets == old(packets)
      ensures r.Removed? ==>
                forall n :: At(packets, n) ==
                  if n == pn || SkippedBefore(old(packets), n, pn) then None else old(At(packets, n))
    {
      var idx, ok := GetIndex(pn);
      if !ok {
        return NotFound;
      }
      if packets[idx].None? {
        return EmptySlot;
      }
      CountDown(idx);
      packets := TakeOut(packets, idx, pn, highest);
      r := Removed;
    }

    /** A packet was declared lost. */
    method DeclareLost(pn: int) returns (r: RemoveResult)
      requires Valid()
      modifies `packets, `numOutstanding
      ensures Valid()
      ensures r.Removed? <==> old(At(packets, pn)).Some?
      ensures r.EmptySlot? <==>
                && At(packets, pn).None? && old(packets) != []
                && old(packets)[0].value.number <= pn <= highest && !r.Removed?
      ensures !r.Removed? ==> packets == old(packets)
      ensures r.Removed? ==> Changed(old(packets), packets, pn, None)
    {
      var idx, ok := GetIndex(pn);
      if !ok {
        return NotFound;
      }
      if packets[idx].None? {
        return EmptySlot;
      }
      CountDown(idx);
      packets := EmptyOut(packets, idx, pn, highest);
      r := Removed;
    }

    /** Removes a path probe; the others keep their order. */
    method RemovePathProbe(pn: int) returns (r: Option<Packet>)
      requires Valid()
      modifies `pathProbes
      ensures Valid()
      ensures if r.None? then pathProbes == old(pathProbes)
                && forall i :: 0 <= i < |pathProbes| ==> pathProbes[i].number != pn
              else exists i :: 0 <= i < |old(pathProbes)| && old(pathProbes)[i] == r.value && r.value.number == pn
                               && pathProbes == old(pathProbes)[..i] + old(pathProbes)[i + 1..]
    {
      var i := 0;
      while i < |pathProbes| && pathProbes[i].number != pn
        invariant 0 <= i <= |pathProbes| && forall k :: 0 <= k < i ==> pathProbes[k].number != pn
      {
        i := i + 1;
      }
      if i == |pathProbes| {
        return None;
      }
      r := Some(pathProbes[i]);
      var rest := pathProbes[..i] + pathProbes[i + 1..];
      assert forall k :: 0 <= k < |rest| ==> rest[k] == pathProbes[if k < i then k else k + 1];
      pathProbes := rest;
    }
  }
}
