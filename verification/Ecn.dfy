/** ECN validation of a path (internal/ackhandler/ecn.go; section 13.4.2 of RFC 9000). */
module EcnTracking {
  import opened Protocol

  const NUM_ECN_TESTING_PACKETS := 10

  datatype EcnState = Initial | Testing | Unknown | Capable | Failed

  /** The marking of a packet that is sent. */
  datatype Ecn = Non | Ect0 | Ect1 | Unsupported

  /** How many of the packets are in the set. */
  ghost function CountIn(packets: seq<int>, s: set<int>): nat {
    if |packets| == 0 then 0 else CountIn(packets[..|packets| - 1], s) + if packets[|packets| - 1] in s then 1 else 0
  }

  /** What the tracker takes for the marking of packet pn. */
  function Marking(firstTesting: int, lastTesting: int, firstCapable: int, pn: int): Ecn {
    if pn < firstTesting || firstTesting == INVALID_PACKET_NUMBER then Non
    else if pn < lastTesting || lastTesting == INVALID_PACKET_NUMBER then Ect0
    else if pn < firstCapable || firstCapable == INVALID_PACKET_NUMBER then Non
    else Ect0
  }

  ghost predicate ValidCounts(state: EcnState, numSentTesting: nat, sentEct0: nat, sentEct1: nat, ackedEct0: int,
                              ackedEct1: int, ackedCe: int)
  {
    && 0 <= ackedEct0 <= sentEct0 && 0 <= ackedEct1 <= sentEct1 && 0 <= ackedCe
    && (state == Initial ==> sentEct0 + sentEct1 == numSentTesting == 0)
    && (state == Testing ==> numSentTesting == sentEct0 + sentEct1 < NUM_ECN_TESTING_PACKETS)
    && (state == Unknown ==> numSentTesting == sentEct0 + sentEct1 == NUM_ECN_TESTING_PACKETS)
  }

  /** Packet numbers are known in the order of the states. */
  ghost predicate ValidNumbers(state: EcnState, firstTesting: int, lastTesting: int, firstCapable: int, highest: int) {
    && INVALID_PACKET_NUMBER <= firstTesting <= highest && INVALID_PACKET_NUMBER <= lastTesting <= highest
    && INVALID_PACKET_NUMBER <= firstCapable <= highest
    && (state == Initial || state == Testing ==> lastTesting == firstCapable == INVALID_PACKET_NUMBER)
    && (state == Unknown ==> lastTesting != INVALID_PACKET_NUMBER && firstCapable == INVALID_PACKET_NUMBER)
    && (state == Unknown || state == Capable ==> firstTesting != INVALID_PACKET_NUMBER)
  }

  ghost predicate ValidMarks(state: EcnState, firstTesting: int, lastTesting: int, firstCapable: int, marked: set<int>,
                             highest: int)
  {
    && ValidNumbers(state, firstTesting, lastTesting, firstCapable, highest)
    && (forall pn :: pn in marked ==> 0 <= pn <= highest)
    && (state != Failed ==> forall pn :: pn in marked ==>
       (Marking(firstTesting, lastTesting, firstCapable, pn) == Ect0 <==> pn != lastTesting))
  }

  predicate IsEct(ecn: Ecn) {
    ecn == Ect0 || ecn == Ect1
  }

  /** How many of the packets count as marked with ECT(0). */
  ghost function CountMarked(firstTesting: int, lastTesting: int, firstCapable: int, packets: seq<int>): nat {
    if |packets| == 0 then 0
    else
      var last := packets[|packets| - 1];
      CountMarked(firstTesting, lastTesting, firstCapable, packets[..|packets| - 1])
        + if Marking(firstTesting, lastTesting, firstCapable, last) == Ect0 then 1 else 0
  }

  /** Every marked packet is counted but the last one of the test. */
  lemma {:induction false} CountedEnough(firstTesting: int, lastTesting: int, firstCapable: int, packets: seq<int>,
                                         marked: set<int>)
    requires forall pn :: pn in marked ==>
             (Marking(firstTesting, lastTesting, firstCapable, pn) == Ect0 <==> pn != lastTesting)
    ensures CountIn(packets, marked - {lastTesting}) <= CountMarked(firstTesting, lastTesting, firstCapable, packets)
  {
    if |packets| > 0 {
      CountedEnough(firstTesting, lastTesting, firstCapable, packets[..|packets| - 1], marked);
    }
  }

  class EcnTracker {
    var state: EcnState
    var numSentTesting: nat
    var numLostTesting: nat
    var firstTesting: int
    var lastTesting: int
    var firstCapable: int
    var sentEct0: nat
    var sentEct1: nat
    var ackedEct0: int
    var ackedEct1: int
    var ackedCe: int

    /** The packets sent with ECT(0), the highest packet number sent, and whether an ACK ever
        reported an ECT count. */
    ghost var marked: set<int>
    ghost var highest: int
    ghost var ectReported: bool

    /** At most ten marked packets are sent before the path is capable; the counts accepted do not
        exceed the packets sent; a path without ECT counts is never capable; and a packet sent with
        ECT(0) is known as such, unless it is the last one of the test. */
    ghost predicate Valid()
      reads this
    {
      && ValidCounts(state, numSentTesting, sentEct0, sentEct1, ackedEct0, ackedEct1, ackedCe)
      && ValidMarks(state, firstTesting, lastTesting, firstCapable, marked, highest)
      && (!ectReported ==> state != Capable && ackedEct0 == ackedEct1 == 0)
    }

    constructor ()
      ensures Valid() && state == Initial && !ectReported && marked == {} && highest == INVALID_PACKET_NUMBER
      ensures sentEct0 == sentEct1 == 0 && ackedEct0 == ackedEct1 == ackedCe == 0
    {
      state, numSentTesting, numLostTesting := Initial, 0, 0;
      firstTesting, lastTesting, firstCapable := INVALID_PACKET_NUMBER, INVALID_PACKET_NUMBER, INVALID_PACKET_NUMBER;
      sentEct0, sentEct1, ackedEct0, ackedEct1, ackedCe := 0, 0, 0, 0, 0;
      marked, highest, ectReported := {}, INVALID_PACKET_NUMBER, false;
    }

    predicate IsTesting(pn: int)
      reads this
    {
      firstTesting != INVALID_PACKET_NUMBER && pn >= firstTesting
        && (pn <= lastTesting || lastTesting == INVALID_PACKET_NUMBER)
    }

    /** The marking for the next packet. */
    method Mode() returns (ecn: Ecn)
      requires Valid()
      modifies `state
      ensures Valid() && state == (if old(state) == Initial then Testing else old(state))
      ensures ecn == if state == Testing || state == Capable then Ect0 else Non
    {
      if state == Initial {
        state := Testing;
      }
      ecn := if state == Testing || state == Capable then Ect0 else Non;
    }

    /** A packet was sent, unmarked or marked as Mode allows. Marking may be unsupported once validation
        has failed; before, that panics. */
    method SentPacket(pn: int, ecn: Ecn)
      requires Valid() && highest < pn && pn >= 0
      requires (ecn == Ect0 || ecn == Ect1 ==> state == Testing || state == Capable)
      requires (ecn == Unsupported ==> state == Failed)
      modifies this
      ensures Valid() && marked == old(marked) + (if ecn == Ect0 then {pn} else {}) && ectReported == old(ectReported)
      ensures state == if IsEct(ecn) && old(state) == Testing && sentEct0 + sentEct1 == NUM_ECN_TESTING_PACKETS
              then Unknown else old(state)
      ensures sentEct0 == old(sentEct0) + (if ecn == Ect0 then 1 else 0)
      ensures sentEct1 == old(sentEct1) + (if ecn == Ect1 then 1 else 0)
      ensures ackedEct0 == old(ackedEct0) && ackedEct1 == old(ackedEct1) && ackedCe == old(ackedCe)
    {
      highest := pn;
      if IsEct(ecn) {
        marked := marked + if ecn == Ect0 then {pn} else {};
        sentEct0 := sentEct0 + if ecn == Ect0 then 1 else 0;
        sentEct1 := sentEct1 + if ecn == Ect1 then 1 else 0;
        if state == Capable {
          if firstCapable == INVALID_PACKET_NUMBER {
            firstCapable := pn;
          }
        } else {
          CountTesting(pn);
        }
      }
    }

    /** One more testing packet; the tenth is the last one. */
    method CountTesting(pn: int)
      requires state == Testing && pn == highest && pn >= 0
      requires sentEct0 + sentEct1 == numSentTesting + 1 <= NUM_ECN_TESTING_PACKETS
      modifies `numSentTesting, `firstTesting, `lastTesting, `state
      ensures numSentTesting == old(numSentTesting) + 1
      ensures firstTesting == if old(firstTesting) == INVALID_PACKET_NUMBER then pn else old(firstTesting)
      ensures if numSentTesting == NUM_ECN_TESTING_PACKETS then state == Unknown && lastTesting == pn
              else state == Testing && lastTesting == old(lastTesting)
    {
      numSentTesting := (numSentTesting + 1) % 256;
      if firstTesting == INVALID_PACKET_NUMBER {
        firstTesting := pn;
      }
      if sentEct0 + sentEct1 >= NUM_ECN_TESTING_PACKETS {
        state := Unknown;
        lastTesting := pn;
      }
    }

    /** All testing packets were lost or marked CE. */
    predicate Mangled()
      reads this
    {
      sentEct0 + sentEct1 <= ackedCe + numLostTesting
    }

    method LostPacket(pn: int)
      requires Valid()
      modifies `state, `numLostTesting
      ensures Valid() && (state == old(state) || (old(state) == Unknown && state == Failed))
      ensures old(state) == Unknown && IsTesting(pn) ==>
                (state == Failed <==> numLostTesting >= numSentTesting || Mangled())
      ensures numLostTesting ==
              if (old(state) == Testing || old(state) == Unknown) && IsTesting(pn) then (old(numLostTesting) + 1) % 256
              else old(numLostTesting)
    {
      if (state == Testing || state == Unknown) && IsTesting(pn) {
        numLostTesting := (numLostTesting + 1) % 256;
        if state == Unknown && (numLostTesting >= numSentTesting || Mangled()) {
          state := Failed;
        }
      }
    }

    /** The counts do not exceed the packets sent, do not decrease, and cover the packets that
        are newly acknowledged. */
    ghost predicate Plausible(packets: seq<int>, ect0: int, ect1: int, ce: int)
      reads this
    {
      && ackedEct0 <= ect0 <= sentEct0 && ackedEct1 <= ect1 <= sentEct1 && ackedCe <= ce
      && CountMarked(firstTesting, lastTesting, firstCapable, packets) <= (ect0 - ackedEct0) + (ce - ackedCe)
    }

    /** The checks on the counts of an ACK frame; the test for missing counts rejects nothing
        that the other tests would accept. */
    method Check(packets: seq<int>, ect0: int, ect1: int, ce: int) returns (ok: bool)
      requires Valid() && ect0 >= 0 && ect1 >= 0 && ce >= 0
      ensures ok <==> Plausible(packets, ect0, ect1, ce)
    {
      if ect0 > sentEct0 || ect1 > sentEct1 {
        return false;
      }
      var newlyEct0, newlyEct1 := 0, 0;
      for i := 0 to |packets|
        invariant newlyEct0 == CountMarked(firstTesting, lastTesting, firstCapable, packets[..i]) && newlyEct1 == 0
      {
        assert packets[..i + 1][..i] == packets[..i];
        match Marking(firstTesting, lastTesting, firstCapable, packets[i]) {
          case Ect0 => newlyEct0 := newlyEct0 + 1;
          case Ect1 => newlyEct1 := newlyEct1 + 1;
          case _ =>
        }
      }
      assert packets[..|packets|] == packets;
      if (newlyEct0 > 0 || newlyEct1 > 0) && ect0 == 0 && ect1 == 0 && ce == 0 {
        return false;
      }
      if ect0 < ackedEct0 || ect1 < ackedEct1 || ce < ackedCe {
        return false;
      }
      ok := (ect0 - ackedEct0) + (ce - ackedCe) >= newlyEct0 && (ect1 - ackedEct1) + (ce - ackedCe) >= newlyEct1;
    }

    method AnyTesting(packets: seq<int>) returns (r: bool)
      ensures r <==> exists i :: 0 <= i < |packets| && IsTesting(packets[i])
    {
      for i := 0 to |packets|
        invariant forall k :: 0 <= k < i ==> !IsTesting(packets[k])
      {
        if IsTesting(packets[i]) {
          return true;
        }
      }
      return false;
    }

    /** The ECN counts of an ACK frame that raises the largest number acknowledged. */
    method HandleNewlyAcked(packets: seq<int>, ect0: int, ect1: int, ce: int) returns (congested: bool)
      requires Valid() && ect0 >= 0 && ect1 >= 0 && ce >= 0
      modifies `state, `ackedEct0, `ackedEct1, `ackedCe, `ectReported
      ensures Valid() && ectReported == (old(ectReported) || ect0 > 0 || ect1 > 0)
      ensures old(ackedEct0) <= ackedEct0 && old(ackedEct1) <= ackedEct1 && old(ackedCe) <= ackedCe
      ensures old(state) == Failed || !old(Plausible(packets, ect0, ect1, ce)) ==> state == Failed && !congested
      ensures old(state) != Failed && old(Plausible(packets, ect0, ect1, ce)) ==>
                && ackedEct0 == ect0 && ackedEct1 == ect1 && ackedCe == ce
                && CountIn(packets, marked - {lastTesting}) <= (ect0 - old(ackedEct0)) + (ce - old(ackedCe))
                && state == Judged(old(state), packets, ect0 > old(ackedEct0) || ect1 > old(ackedEct1))
                && (congested <==> state == Capable && ce > old(ackedCe))
                && (ackedCe <= sentEct0 + sentEct1 <==> ce <= sentEct0 + sentEct1)
    {
      ectReported := ectReported || ect0 > 0 || ect1 > 0;
      congested := false;
      if state != Failed {
        var ok := Check(packets, ect0, ect1, ce);
        if ok {
          congested := Take(packets, ect0, ect1, ce);
        } else {
          state := Failed;
        }
      }
    }

    /** Takes over counts that passed the checks. */
    method Take(packets: seq<int>, ect0: int, ect1: int, ce: int) returns (congested: bool)
      requires Valid() && state != Failed && Plausible(packets, ect0, ect1, ce)
      requires (ect0 > 0 || ect1 > 0 ==> ectReported)
      modifies `state, `ackedEct0, `ackedEct1, `ackedCe
      ensures Valid() && ackedEct0 == ect0 && ackedEct1 == ect1 && ackedCe == ce
      ensures CountIn(packets, marked - {lastTesting}) <= (ect0 - old(ackedEct0)) + (ce - old(ackedCe))
      ensures state == Judged(old(state), packets, ect0 > old(ackedEct0) || ect1 > old(ackedEct1))
      ensures congested <==> state == Capable && ce > old(ackedCe)
    {
      CountedEnough(firstTesting, lastTesting, firstCapable, packets, marked);
      var raised, newCe := ect0 > ackedEct0 || ect1 > ackedEct1, ce > ackedCe;
      ackedEct0, ackedEct1, ackedCe := ect0, ect1, ce;
      Judge(packets, raised);
      congested := state == Capable && newCe;
    }

    /** The state after an ACK whose counts were accepted. */
    ghost function Judged(before: EcnState, packets: seq<int>, raised: bool): EcnState
      reads this
    {
      if before == Unknown && Mangled() then Failed
      else if (before == Testing || before == Unknown) && raised
        && (exists i :: 0 <= i < |packets| && IsTesting(packets[i])) then Capable
      else before
    }

    method Judge(packets: seq<int>, raised: bool)
      requires Valid() && (raised ==> ectReported)
      modifies `state
      ensures Valid() && state == Judged(old(state), packets, raised)
    {
      if state == Unknown && Mangled() {
        state := Failed;
      } else if state == Testing || state == Unknown {
        var any := AnyTesting(packets);
        if any && raised {
          state := Capable;
        }
      }
    }
  }

  /** An accepted CE count may exceed the number of packets sent, since it is not checked against it: it
      does exactly if the count in the ACK frame does. */
  method CeExceedsSent() returns (e: EcnTracker)
    ensures fresh(e) && e.Valid() && e.state == Testing && e.ackedCe > e.sentEct0 + e.sentEct1
  {
    e := new EcnTracker();
    var ecn := e.Mode();
    e.SentPacket(0, ecn);
    var congested := e.HandleNewlyAcked([0], 0, 0, 7);
  }
}
