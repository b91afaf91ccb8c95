/** Path MTU discovery: a binary search that tolerates lost probes (mtu_discoverer.go). */
module MtuDiscovery {
  import opened Protocol

  const INVALID_BYTE_COUNT := -1
  const MAX_MTU_DIFF := 20
  const MAX_LOST_PROBES := 3
  const PROBE_DELAY := 5

  /** The search: the largest acknowledged size, the (at most three) smallest sizes that were
      lost since, in order, with the initial maximum as the first, and whether the last
      probe was lost. */
  datatype Search = Search(min: int, lost: seq<int>, lastLost: bool)

  ghost predicate ValidSearch(s: Search) {
    && 1 <= |s.lost| <= MAX_LOST_PROBES
    && 0 <= s.min <= s.lost[0]
    && Ordered(s.lost)
  }

  ghost predicate Ordered(a: seq<int>) {
    forall i, j :: 0 <= i < j < |a| ==> a[i] <= a[j]
  }

  function StartSearch(start: int, max: int): Search {
    Search(start, [max], false)
  }

  function Upper(s: Search): int
    requires |s.lost| > 0
  {
    s.lost[|s.lost| - 1]
  }

  predicate Done(s: Search)
    requires |s.lost| > 0
  {
    Upper(s) - s.min <= MAX_MTU_DIFF + 1
  }

  /** Halfway to the smallest lost size after a loss, else halfway to the upper end. */
  function ProbeSize(s: Search): int
    requires |s.lost| > 0
  {
    if s.lastLost then (s.min + s.lost[0]) / 2 else (s.min + Upper(s)) / 2
  }

  /** The index of the first entry above size. */
  function FirstAbove(lost: seq<int>, size: int): (k: nat)
    ensures k <= |lost| && (forall i :: 0 <= i < k ==> lost[i] <= size) && (k < |lost| ==> size < lost[k])
  {
    if |lost| == 0 || size < lost[0] then 0 else 1 + FirstAbove(lost[1..], size)
  }

  /** Sorted insertion. */
  function InsertSize(lost: seq<int>, size: int): seq<int> {
    var k := FirstAbove(lost, size);
    lost[..k] + [size] + lost[k..]
  }

  function Truncate(lost: seq<int>): seq<int> {
    if |lost| <= MAX_LOST_PROBES then lost else lost[..MAX_LOST_PROBES]
  }

  /** An acknowledgement raises the lower end and drops the losses at or below it. */
  function Acked(s: Search, size: int): Search {
    Search(size, s.lost[FirstAbove(s.lost, size)..], false)
  }

  /** A loss is recorded if it is among the three smallest. */
  function Lost(s: Search, size: int): Search {
    s.(lost := Truncate(InsertSize(s.lost, size)), lastLost := true)
  }

  /** The search after the outcome of its next probe. */
  function Next(s: Search, acked: bool): Search
    requires |s.lost| > 0
  {
    if acked then Acked(s, ProbeSize(s)) else Lost(s, ProbeSize(s))
  }

  // ----- one outcome

  /** A probe lies between the two ends, and strictly between after an acknowledgement. */
  lemma ProbeInside(s: Search)
    requires ValidSearch(s) && !Done(s)
    ensures s.min <= ProbeSize(s) < Upper(s) && (!s.lastLost ==> s.min < ProbeSize(s))
  {
    assert s.lost[0] <= Upper(s);
  }

  /** Recording a loss below the upper end keeps the entries sorted; the entry that falls
      out of a full list is the upper end. */
  lemma RecordLoss(lost: seq<int>, size: int)
    requires 1 <= |lost| <= MAX_LOST_PROBES && Ordered(lost) && size < lost[|lost| - 1]
    ensures var i := InsertSize(lost, size);
            && Ordered(i) && |i| == |lost| + 1 && i[|lost|] == lost[|lost| - 1] && i[0] == Min(size, lost[0])
  {
    var k := FirstAbove(lost, size);
    assert k < |lost|;
  }

  lemma AckedValid(s: Search, size: int)
    requires ValidSearch(s) && s.min <= size < Upper(s)
    ensures FirstAbove(s.lost, size) < |s.lost|
    ensures ValidSearch(Acked(s, size)) && Upper(Acked(s, size)) == Upper(s)
  {
    SuffixOrdered(s.lost, FirstAbove(s.lost, size), size);
  }

  lemma SuffixOrdered(lost: seq<int>, k: nat, size: int)
    requires Ordered(lost) && |lost| > 0 && k <= |lost| && size < lost[|lost| - 1]
    requires (forall i :: 0 <= i < k ==> lost[i] <= size) && (k < |lost| ==> size < lost[k])
    ensures k < |lost| && Ordered(lost[k..]) && size < lost[k..][0] && lost[k..][|lost| - k - 1] == lost[|lost| - 1]
  {
    assert k < |lost|;
    assert forall i :: 0 <= i < |lost| - k ==> lost[k..][i] == lost[k + i];
  }

  lemma LostValid(s: Search, size: int)
    requires ValidSearch(s) && s.min <= size < Upper(s)
    ensures FirstAbove(s.lost, size) < |s.lost|
    ensures ValidSearch(Lost(s, size)) && Upper(Lost(s, size)) <= Upper(s)
    ensures |s.lost| < MAX_LOST_PROBES ==> Upper(Lost(s, size)) == Upper(s)
  {
    RecordLoss(s.lost, size);
    TruncateOrdered(InsertSize(s.lost, size));
  }

  lemma TruncateOrdered(lost: seq<int>)
    requires Ordered(lost) && |lost| > 0
    ensures var t := Truncate(lost);
            Ordered(t) && 1 <= |t| <= MAX_LOST_PROBES && t[0] == lost[0] && t[|t| - 1] <= lost[|lost| - 1]
  {
  }

  /** Outcomes keep the entries sorted; the lower end never falls, the upper end never rises. */
  lemma NextValid(s: Search, acked: bool)
    requires ValidSearch(s) && !Done(s)
    ensures ValidSearch(Next(s, acked))
    ensures s.min <= Next(s, acked).min && Upper(Next(s, acked)) <= Upper(s)
    ensures acked || |s.lost| < MAX_LOST_PROBES ==> Upper(Next(s, acked)) == Upper(s)
  {
    ProbeInside(s);
    if acked {
      AckedValid(s, ProbeSize(s));
    } else {
      LostValid(s, ProbeSize(s));
    }
  }

  /** How many entries lie below p. */
  function CountBelow(lost: seq<int>, p: int): (n: nat)
    ensures n <= |lost|
  {
    if |lost| == 0 then 0 else (if lost[0] < p then 1 else 0) + CountBelow(lost[1..], p)
  }

  lemma {:induction false} CountBelowConcat(a: seq<int>, b: seq<int>, p: int)
    ensures CountBelow(a + b, p) == CountBelow(a, p) + CountBelow(b, p)
  {
    if |a| == 0 {
      assert a + b == b;
    } else {
      assert (a + b)[1..] == a[1..] + b;
      CountBelowConcat(a[1..], b, p);
    }
  }

  lemma {:induction false} CountBelowNone(a: seq<int>, p: int)
    requires forall i :: 0 <= i < |a| ==> p <= a[i]
    ensures CountBelow(a, p) == 0
  {
    if |a| > 0 {
      CountBelowNone(a[1..], p);
    }
  }

  lemma {:induction false} CountBelowAll(a: seq<int>, p: int)
    requires forall i :: 0 <= i < |a| ==> a[i] < p
    ensures CountBelow(a, p) == |a|
  {
    if |a| > 0 {
      CountBelowAll(a[1..], p);
    }
  }

  lemma CountAfterInsert(lost: seq<int>, size: int, p: int)
    ensures CountBelow(InsertSize(lost, size), p) == CountBelow(lost, p) + if size < p then 1 else 0
  {
    var k := FirstAbove(lost, size);
    CountBelowConcat(lost[..k] + [size], lost[k..], p);
    CountBelowConcat(lost[..k], [size], p);
    CountBelowConcat(lost[..k], lost[k..], p);
    assert lost == lost[..k] + lost[k..];
  }

  lemma CountAfterTruncate(lost: seq<int>, p: int)
    requires |lost| <= MAX_LOST_PROBES + 1
    ensures CountBelow(Truncate(lost), p) ==
            CountBelow(lost, p) - if |lost| > MAX_LOST_PROBES && lost[MAX_LOST_PROBES] < p then 1 else 0
  {
    if |lost| > MAX_LOST_PROBES {
      assert lost == lost[..MAX_LOST_PROBES] + [lost[MAX_LOST_PROBES]];
      CountBelowConcat(lost[..MAX_LOST_PROBES], [lost[MAX_LOST_PROBES]], p);
    }
  }

  lemma CountAfterAck(lost: seq<int>, size: int, p: int)
    ensures var r := lost[FirstAbove(lost, size)..];
            && CountBelow(r, p) <= CountBelow(lost, p)
            && (size < p ==> |r| - CountBelow(r, p) == |lost| - CountBelow(lost, p))
  {
    var k := FirstAbove(lost, size);
    assert lost == lost[..k] + lost[k..];
    CountBelowConcat(lost[..k], lost[k..], p);
    if size < p {
      CountBelowAll(lost[..k], p);
    }
  }

  // ----- termination

  /** A lexicographic measure, as one number: the width of the interval, the copies of its
      upper end among the losses, the places not taken by a loss above the lower end,
      whether the last probe was lost, and the free places. */
  function Rank(s: Search): int
    requires |s.lost| > 0
  {
    128 * (Upper(s) - s.min) + 32 * Copies(s) + 8 * (MAX_LOST_PROBES - LossesAboveMin(s))
    + (if s.lastLost then 4 else 0) + (MAX_LOST_PROBES - |s.lost|)
  }

  function Copies(s: Search): nat
    requires |s.lost| > 0
  {
    |s.lost| - CountBelow(s.lost, Upper(s))
  }

  function LossesAboveMin(s: Search): nat {
    |s.lost| - CountBelow(s.lost, s.min + 1)
  }

  /** Every outcome of a probe lowers the measure. */
  lemma RankDecreases(s: Search, acked: bool)
    requires ValidSearch(s) && !Done(s)
    ensures ValidSearch(Next(s, acked)) && 0 <= Rank(Next(s, acked)) < Rank(s)
  {
    NextValid(s, acked);
    ProbeInside(s);
    RankNonNegative(Next(s, acked));
    if acked {
      AckLowersRank(s);
    } else if Upper(Next(s, acked)) == Upper(s) {
      LossLowersRank(s);
    }
  }

  lemma AckLowersRank(s: Search)
    requires ValidSearch(s) && !Done(s) && ValidSearch(Next(s, true)) && Upper(Next(s, true)) == Upper(s)
    ensures Rank(Next(s, true)) < Rank(s)
  {
    ProbeInside(s);
    AckParts(s, ProbeSize(s), Next(s, true));
  }

  /** How an acknowledgement changes the parts of the measure. */
  lemma AckParts(s: Search, size: int, t: Search)
    requires |s.lost| > 0 && size < Upper(s) && t == Acked(s, size) && |t.lost| > 0 && Upper(t) == Upper(s)
    ensures Copies(t) == Copies(s)
    ensures size == s.min ==> LossesAboveMin(t) == LossesAboveMin(s)
  {
    CountAfterAck(s.lost, size, Upper(s));
    CountAfterAck(s.lost, size, size + 1);
  }

  lemma LossLowersRank(s: Search)
    requires ValidSearch(s) && !Done(s) && ValidSearch(Next(s, false)) && Upper(Next(s, false)) == Upper(s)
    ensures Rank(Next(s, false)) < Rank(s)
  {
    ProbeInside(s);
    LossParts(s, ProbeSize(s), Next(s, false));
  }

  /** How a loss changes the parts of the measure. */
  lemma LossParts(s: Search, size: int, t: Search)
    requires ValidSearch(s) && s.min <= size < Upper(s) && s.min < Upper(s) && t == Lost(s, size)
    requires ValidSearch(t) && Upper(t) == Upper(s)
    ensures |t.lost| == Min(|s.lost| + 1, MAX_LOST_PROBES)
    ensures Copies(t) == Copies(s) - if |s.lost| == MAX_LOST_PROBES then 1 else 0
    ensures LossesAboveMin(t) == LossesAboveMin(s) + (|t.lost| - |s.lost|) - if size == s.min then 1 else 0
  {
    LossCounts(s.lost, size, Upper(s));
    LossCounts(s.lost, size, s.min + 1);
  }

  /** A recorded loss adds one to the entries below p, unless the one that falls out was below p. */
  lemma LossCounts(lost: seq<int>, size: int, p: int)
    requires 1 <= |lost| <= MAX_LOST_PROBES && Ordered(lost) && size < lost[|lost| - 1] && p <= lost[|lost| - 1]
    ensures var r := Truncate(InsertSize(lost, size));
            && |r| == Min(|lost| + 1, MAX_LOST_PROBES)
            && CountBelow(r, p) == CountBelow(lost, p) + if size < p then 1 else 0
  {
    RecordLoss(lost, size);
    CountAfterInsert(lost, size, p);
    CountAfterTruncate(InsertSize(lost, size), p);
  }

  // ----- whole runs between two resets

  /** Probes are sent only while the search is not done. */
  ghost predicate IsRun(s: Search, outcomes: seq<bool>)
    decreases |outcomes|
  {
    |outcomes| == 0 ||
    (ValidSearch(s) && !Done(s) && IsRun(Next(s, outcomes[0]), outcomes[1..]))
  }

  function Final(s: Search, outcomes: seq<bool>): Search
    requires IsRun(s, outcomes)
    decreases |outcomes|
  {
    if |outcomes| == 0 then s else Final(Next(s, outcomes[0]), outcomes[1..])
  }

  /** The search sends no more probes than its initial measure. */
  lemma {:induction false} RunTerminates(s: Search, outcomes: seq<bool>)
    requires ValidSearch(s) && IsRun(s, outcomes)
    ensures ValidSearch(Final(s, outcomes)) && |outcomes| <= Rank(s) - Rank(Final(s, outcomes)) <= Rank(s)
    decreases |outcomes|
  {
    if |outcomes| > 0 {
      RankDecreases(s, outcomes[0]);
      RunTerminates(Next(s, outcomes[0]), outcomes[1..]);
    } else {
      RankNonNegative(s);
    }
  }

  lemma RankNonNegative(s: Search)
    requires ValidSearch(s)
    ensures Rank(s) >= 0
  {
    assert s.lost[0] <= Upper(s);
  }

  /** How many probes smaller than p were lost. */
  function LossesBelow(s: Search, outcomes: seq<bool>, p: int): nat
    requires IsRun(s, outcomes)
    decreases |outcomes|
  {
    if |outcomes| == 0 then 0
    else (if !outcomes[0] && ProbeSize(s) < p then 1 else 0) + LossesBelow(Next(s, outcomes[0]), outcomes[1..], p)
  }

  /** No probe larger than p was acknowledged. */
  ghost predicate NoneAckedAbove(s: Search, outcomes: seq<bool>, p: int)
    requires IsRun(s, outcomes)
    decreases |outcomes|
  {
    |outcomes| > 0 ==>
      && (outcomes[0] ==> ProbeSize(s) <= p)
      && NoneAckedAbove(Next(s, outcomes[0]), outcomes[1..], p)
  }

  /** The upper end drops below p only after three losses below p. */
  lemma {:induction false} UpperEndNeedsLosses(s: Search, outcomes: seq<bool>, p: int)
    requires ValidSearch(s) && IsRun(s, outcomes) && p <= Upper(s)
    requires CountBelow(s.lost, p) + LossesBelow(s, outcomes, p) < MAX_LOST_PROBES
    ensures |Final(s, outcomes).lost| > 0 && p <= Upper(Final(s, outcomes))
    decreases |outcomes|
  {
    if |outcomes| > 0 {
      var acked, t, size := outcomes[0], Next(s, outcomes[0]), ProbeSize(s);
      NextValid(s, acked);
      if acked {
        CountAfterAck(s.lost, size, p);
      } else {
        ProbeInside(s);
        LossCounts(s.lost, size, p);
        if Upper(t) < p {
          CountBelowAll(t.lost, p);
        }
      }
      UpperEndNeedsLosses(t, outcomes[1..], p);
    }
  }

  lemma {:induction false} LowerEndAtMost(s: Search, outcomes: seq<bool>, p: int)
    requires IsRun(s, outcomes) && s.min <= p && NoneAckedAbove(s, outcomes, p)
    ensures Final(s, outcomes).min <= p
    decreases |outcomes|
  {
    if |outcomes| > 0 {
      LowerEndAtMost(Next(s, outcomes[0]), outcomes[1..], p);
    }
  }

  /** On a path that carries sizes up to p and nothing larger, a finished search that lost
      at most two smaller probes by accident is at most 21 bytes short of p, and never above. */
  lemma Accuracy(start: int, max: int, outcomes: seq<bool>, p: int)
    requires 0 <= start <= p <= max && IsRun(StartSearch(start, max), outcomes)
    requires NoneAckedAbove(StartSearch(start, max), outcomes, p)
    requires LossesBelow(StartSearch(start, max), outcomes, p) < MAX_LOST_PROBES
    ensures var f := Final(StartSearch(start, max), outcomes);
            |f.lost| > 0 && f.min <= p && (Done(f) ==> p - MAX_MTU_DIFF - 1 <= f.min)
  {
    var s := StartSearch(start, max);
    CountBelowNone(s.lost, p);
    UpperEndNeedsLosses(s, outcomes, p);
    LowerEndAtMost(s, outcomes, p);
  }

  /** Two is the most accidental losses tolerated: three can push the upper end below a
      size the path carries. */
  lemma ToleranceIsTight()
    ensures var s, outcomes := StartSearch(1000, 2000), [false, false, false];
            IsRun(s, outcomes) && LossesBelow(s, outcomes, 1600) == 3 && |Final(s, outcomes).lost| > 0
              && Upper(Final(s, outcomes)) < 1600
  {
    var s0 := StartSearch(1000, 2000);
    var s1, s2, s3 := Search(1000, [1500, 2000], true), Search(1000, [1250, 1500, 2000], true),
      Search(1000, [1125, 1250, 1500], true);
    assert Next(s0, false) == s1;
    assert Next(s1, false) == s2;
    assert InsertSize(s2.lost, 1125) == [1125, 1250, 1500, 2000];
    assert Next(s2, false) == s3;
    assert [false, false, false][1..] == [false, false] && [false, false][1..] == [false] && [false][1..] == [];
  }

  // ----- the finder

  /** The finder as a value: the search, the size in flight and the reset counter, one byte wide. */
  datatype Finder = Finder(search: Search, inFlight: int, generation: int)

  function WithReset(f: Finder, start: int, max: int): Finder {
    Finder(StartSearch(start, max), INVALID_BYTE_COUNT, (f.generation + 1) % 256)
  }

  function WithProbe(f: Finder): Finder
    requires |f.search.lost| > 0
  {
    f.(inFlight := ProbeSize(f.search))
  }

  /** An acknowledgement or a loss counts only if the probe has the current generation; the
      code panics if nothing is in flight then. */
  predicate Accepts(f: Finder, generation: int) {
    generation == f.generation
  }

  function AfterReport(f: Finder, generation: int, acked: bool): Finder {
    if !Accepts(f, generation) || f.inFlight == INVALID_BYTE_COUNT then f
    else f.(search := if acked then Acked(f.search, f.inFlight) else Lost(f.search, f.inFlight),
            inFlight := INVALID_BYTE_COUNT)
  }

  /** The array of losses holds the entries, then only invalid places. */
  ghost predicate Stores(a: seq<int>, entries: seq<int>) {
    && |entries| <= |a|
    && (forall i :: 0 <= i < |entries| ==> a[i] == entries[i] >= 0)
    && (forall i :: |entries| <= i < |a| ==> a[i] == INVALID_BYTE_COUNT)
  }

  /** The first place with a value above size; there is one. */
  method FindAbove(lost: array<int>, size: int, ghost entries: seq<int>) returns (j: int)
    requires Stores(lost[..], entries) && FirstAbove(entries, size) < |entries|
    ensures j == FirstAbove(entries, size)
  {
    j := 0;
    while size >= lost[j]
      invariant 0 <= j <= FirstAbove(entries, size)
      decreases lost.Length - j
    {
      j := j + 1;
    }
  }

  /** Moves the values down by j places and invalidates the rest. */
  method ShiftDown(lost: array<int>, j: int, ghost entries: seq<int>)
    requires Stores(lost[..], entries) && 0 <= j <= |entries|
    modifies lost
    ensures Stores(lost[..], entries[j..])
  {
    ghost var a := lost[..];
    for k := 0 to lost.Length
      invariant forall l :: 0 <= l < k ==> lost[l] == if l + j < |a| then a[l + j] else INVALID_BYTE_COUNT
      invariant forall l :: k <= l < lost.Length ==> lost[l] == a[l]
    {
      if k + j < lost.Length {
        lost[k] := lost[k + j];
      } else {
        lost[k] := INVALID_BYTE_COUNT;
      }
    }
  }

  /** Removes the values that are not above size. */
  method DropUpTo(lost: array<int>, size: int, ghost entries: seq<int>)
    requires Stores(lost[..], entries) && FirstAbove(entries, size) < |entries|
    modifies lost
    ensures Stores(lost[..], entries[FirstAbove(entries, size)..])
  {
    var j := FindAbove(lost, size, entries);
    if j > 0 {
      ShiftDown(lost, j, entries);
    } else {
      assert entries[j..] == entries;
    }
  }

  lemma StoresInserted(a: seq<int>, entries: seq<int>, size: int)
    requires |a| == MAX_LOST_PROBES && 0 <= size && Stores(a, entries) && FirstAbove(entries, size) < |entries|
    ensures var i := FirstAbove(entries, size);
            Stores(a[..i] + [size] + a[i..|a| - 1], Truncate(InsertSize(entries, size)))
  {
    var i := FirstAbove(entries, size);
    InsertedStores(a, entries, size, i);
  }

  lemma InsertedStores(a: seq<int>, entries: seq<int>, size: int, i: nat)
    requires |a| == MAX_LOST_PROBES && 0 <= size && Stores(a, entries) && i < |entries|
    ensures Stores(a[..i] + [size] + a[i..|a| - 1], Truncate(entries[..i] + [size] + entries[i..]))
  {
    var b, r := a[..i] + [size] + a[i..|a| - 1], entries[..i] + [size] + entries[i..];
    assert forall k :: 0 <= k < i ==> b[k] == a[k] && r[k] == entries[k];
    assert forall k :: i < k < |a| ==> b[k] == a[k - 1];
    assert forall k :: i < k < |r| ==> r[k] == entries[k - 1];
  }

  /** Inserts size before the first larger value; the last place falls out. */
  method InsertLoss(lost: array<int>, size: int, ghost entries: seq<int>)
    requires lost.Length == MAX_LOST_PROBES && 0 <= size
    requires Stores(lost[..], entries) && FirstAbove(entries, size) < |entries|
    modifies lost
    ensures Stores(lost[..], Truncate(InsertSize(entries, size)))
  {
    ghost var a := lost[..];
    var i := FindAbove(lost, size, entries);
    var k := lost.Length - 1;
    while i < k
      invariant i <= k < lost.Length
      invariant lost[..k + 1] == a[..k + 1] && lost[k + 1..] == a[k..lost.Length - 1]
    {
      lost[k] := lost[k - 1];
      k := k - 1;
    }
    lost[i] := size;
    assert lost[..] == a[..i] + [size] + a[i..lost.Length - 1];
    StoresInserted(a, entries, size);
  }

  class MtuFinder {
    var lastProbeTime: Option<int>
    var inFlight: int
    var min: int
    var lost: array<int>
    var lastProbeWasLost: bool
    var generation: int
    /** The valid part of lost. */
    ghost var entries: seq<int>

    ghost predicate Valid()
      reads this, lost
    {
      && lost.Length == MAX_LOST_PROBES && Stores(lost[..], entries) && 0 <= generation < 256
      && ValidSearch(Model().search)
      && (inFlight != INVALID_BYTE_COUNT ==> min <= inFlight < Upper(Model().search))
    }

    ghost function Model(): Finder
      reads this
    {
      Finder(Search(min, entries, lastProbeWasLost), inFlight, generation)
    }

    constructor (start: int, max: int)
      requires 0 <= start <= max
      ensures Valid() && fresh(lost)
      ensures Model() == Finder(StartSearch(start, max), INVALID_BYTE_COUNT, 0) && lastProbeTime == None
    {
      inFlight, lastProbeTime, lastProbeWasLost, generation := INVALID_BYTE_COUNT, None, false, 0;
      lost := new int[MAX_LOST_PROBES];
      new;
      Init(start, max);
    }

    method Init(start: int, max: int)
      requires lost.Length == MAX_LOST_PROBES && 0 <= start <= max
      modifies this`min, this`entries, lost
      ensures min == start && entries == [max] && Stores(lost[..], entries)
    {
      min := start;
      entries := [max];
      for i := 0 to lost.Length
        invariant min == start && entries == [max]
        invariant forall k :: 0 <= k < i ==> lost[k] == if k == 0 then max else INVALID_BYTE_COUNT
      {
        if i == 0 {
          lost[i] := max;
        } else {
          lost[i] := INVALID_BYTE_COUNT;
        }
      }
    }

    method MaxSize() returns (m: int)
      requires Valid()
      ensures m == Upper(Model().search)
    {
      for i := 0 to lost.Length
        invariant i <= |entries|
      {
        if lost[i] == INVALID_BYTE_COUNT {
          return lost[i - 1];
        }
      }
      return lost[lost.Length - 1];
    }

    method IsDone() returns (d: bool)
      requires Valid()
      ensures d <==> Done(Model().search)
    {
      var m := MaxSize();
      d := m - min <= MAX_MTU_DIFF + 1;
    }

    /** From now on probes become due. */
    method Start(now: int)
      requires Valid()
      modifies `lastProbeTime
      ensures Valid() && Model() == old(Model()) && lastProbeTime == Some(now)
    {
      lastProbeTime := Some(now);
    }

    /** A probe is due only if none is in flight and the search is not done. */
    method ShouldSendProbe(now: int, smoothedRtt: int) returns (should: bool)
      requires Valid()
      ensures should <==> lastProbeTime.Some? && inFlight == INVALID_BYTE_COUNT && !Done(Model().search)
                          && now >= lastProbeTime.value + PROBE_DELAY * smoothedRtt
    {
      if lastProbeTime.None? {
        return false;
      }
      var done := IsDone();
      if inFlight != INVALID_BYTE_COUNT || done {
        return false;
      }
      return now >= lastProbeTime.value + PROBE_DELAY * smoothedRtt;
    }

    /** The caller asks ShouldSendProbe first (connection.go:2051). */
    method GetPing(now: int) returns (probeGeneration: int, size: int)
      requires Valid() && !Done(Model().search)
      modifies this
      ensures Valid() && lost == old(lost)
      ensures Model() == WithProbe(old(Model())) && size == inFlight && probeGeneration == generation
      ensures lastProbeTime == Some(now)
    {
      if lastProbeWasLost {
        size := (min + lost[0]) / 2;
      } else {
        var m := MaxSize();
        size := (min + m) / 2;
      }
      ProbeInside(Model().search);
      lastProbeTime, inFlight := Some(now), size;
      probeGeneration := generation;
    }

    method Reset(now: int, start: int, max: int)
      requires Valid() && 0 <= start <= max
      modifies this, lost
      ensures Valid() && lost == old(lost)
      ensures Model() == WithReset(old(Model()), start, max) && lastProbeTime == Some(now)
    {
      generation := (generation + 1) % 256;
      lastProbeTime, lastProbeWasLost, inFlight := Some(now), false, INVALID_BYTE_COUNT;
      Init(start, max);
    }

    method OnAcked(probeGeneration: int) returns (panicked: bool)
      requires Valid()
      modifies this, lost
      ensures Valid() && lost == old(lost)
      ensures panicked <==> Accepts(old(Model()), probeGeneration) && old(inFlight) == INVALID_BYTE_COUNT
      ensures Model() == AfterReport(old(Model()), probeGeneration, true)
    {
      if probeGeneration != generation {
        return false;
      }
      if inFlight == INVALID_BYTE_COUNT {
        return true;
      }
      panicked := false;
      RaiseMin();
    }

    /** The part of OnAcked that changes the search. */
    method RaiseMin()
      requires Valid() && inFlight != INVALID_BYTE_COUNT
      modifies this, lost
      ensures Valid() && lost == old(lost)
      ensures Model() == old(Model()).(search := Acked(old(Model()).search, old(inFlight)),
              inFlight := INVALID_BYTE_COUNT)
    {
      ghost var before := Model().search;
      var size := inFlight;
      AckedValid(before, size);
      inFlight, min, lastProbeWasLost := INVALID_BYTE_COUNT, size, false;
      DropUpTo(lost, size, entries);
      entries := Acked(before, size).lost;
    }

    method OnLost(probeGeneration: int) returns (panicked: bool)
      requires Valid()
      modifies this, lost
      ensures Valid() && lost == old(lost)
      ensures panicked <==> Accepts(old(Model()), probeGeneration) && old(inFlight) == INVALID_BYTE_COUNT
      ensures Model() == AfterReport(old(Model()), probeGeneration, false)
    {
      if probeGeneration != generation {
        return false;
      }
      if inFlight == INVALID_BYTE_COUNT {
        return true;
      }
      panicked := false;
      KeepLoss();
    }

    /** The part of OnLost that changes the search. */
    method KeepLoss()
      requires Valid() && inFlight != INVALID_BYTE_COUNT
      modifies this, lost
      ensures Valid() && lost == old(lost)
      ensures Model() == old(Model()).(search := Lost(old(Model()).search, old(inFlight)),
              inFlight := INVALID_BYTE_COUNT)
    {
      ghost var before := Model().search;
      var size := inFlight;
      LostValid(before, size);
      lastProbeWasLost, inFlight := true, INVALID_BYTE_COUNT;
      InsertLoss(lost, size, entries);
      entries := Lost(before, size).lost;
    }
  }

  // ----- whole runs across resets

  /** A probe on its way, with the number of resets before it was sent. */
  datatype Probe = Probe(epoch: nat, generation: int, size: int)

  datatype World = World(finder: Finder, epoch: nat, out: seq<Probe>)

  datatype Event = SendProbe | Report(i: nat, acked: bool) | ResetPath(start: int, max: int)

  /** Probes are sent as ShouldSendProbe allows, and a probe is reported before 256 more resets. */
  ghost predicate Enabled(w: World, e: Event) {
    match e
    case SendProbe => |w.finder.search.lost| > 0 && w.finder.inFlight == INVALID_BYTE_COUNT && !Done(w.finder.search)
    case Report(i, _) => i < |w.out| && w.epoch < w.out[i].epoch + 256
    case ResetPath(start, max) => 0 <= start <= max
  }

  function StepWorld(w: World, e: Event): World
    requires Enabled(w, e)
  {
    match e
    case SendProbe =>
      var f := WithProbe(w.finder);
      w.(finder := f, out := w.out + [Probe(w.epoch, f.generation, f.inFlight)])
    case Report(i, acked) =>
      w.(finder := AfterReport(w.finder, w.out[i].generation, acked), out := w.out[..i] + w.out[i + 1..])
    case ResetPath(start, max) =>
      w.(finder := WithReset(w.finder, start, max), epoch := w.epoch + 1)
  }

  /** Something is in flight exactly if a probe sent since the last reset is unreported; it is
      the only one, and its size is the size in flight. */
  ghost predicate WorldValid(w: World) {
    && ValidSearch(w.finder.search) && w.finder.generation == w.epoch % 256
    && (forall i :: 0 <= i < |w.out| ==> w.out[i].epoch <= w.epoch && w.out[i].generation == w.out[i].epoch % 256)
    && (forall i, j :: 0 <= i < j < |w.out| && w.out[i].epoch == w.epoch ==> w.out[j].epoch < w.epoch)
    && (forall i :: 0 <= i < |w.out| && w.out[i].epoch == w.epoch ==> w.finder.inFlight == w.out[i].size)
    && (w.finder.inFlight == INVALID_BYTE_COUNT ==> forall i :: 0 <= i < |w.out| ==> w.out[i].epoch < w.epoch)
    && (w.finder.inFlight != INVALID_BYTE_COUNT ==>
          !Done(w.finder.search) && w.finder.inFlight == ProbeSize(w.finder.search))
  }

  /** A report counts exactly if no reset came between; then something is in flight, so
      nothing panics, and the search moves by the outcome of its own last probe. */
  lemma WorldStep(w: World, e: Event)
    requires WorldValid(w) && Enabled(w, e)
    ensures WorldValid(StepWorld(w, e))
    ensures e.Report? ==> (Accepts(w.finder, w.out[e.i].generation) <==> w.out[e.i].epoch == w.epoch)
    ensures e.Report? && Accepts(w.finder, w.out[e.i].generation) ==>
              w.finder.inFlight != INVALID_BYTE_COUNT && StepWorld(w, e).finder.search == Next(w.finder.search, e.acked)
    ensures e.Report? && !Accepts(w.finder, w.out[e.i].generation) ==> StepWorld(w, e).finder == w.finder
  {
    match e
    case SendProbe =>
      SendProbeValid(w);
    case Report(i, acked) =>
      StaleIffWrapped(w, i);
      if w.out[i].epoch == w.epoch {
        ReportInFlight(w, i, acked);
      } else {
        ReportStale(w, i, acked);
      }
    case ResetPath(start, max) =>
      ResetValid(w, start, max);
  }

  lemma SendProbeValid(w: World)
    requires WorldValid(w) && Enabled(w, SendProbe)
    ensures WorldValid(StepWorld(w, SendProbe))
  {
    ProbeInside(w.finder.search);
  }

  lemma ResetValid(w: World, start: int, max: int)
    requires WorldValid(w) && Enabled(w, ResetPath(start, max))
    ensures WorldValid(StepWorld(w, ResetPath(start, max)))
  {
    var v := StepWorld(w, ResetPath(start, max));
    assert v.out == w.out && v.finder.search == StartSearch(start, max) && v.finder.inFlight == INVALID_BYTE_COUNT;
    assert forall i :: 0 <= i < |v.out| ==> v.out[i].epoch < v.epoch && v.out[i].generation == v.out[i].epoch % 256;
  }

  lemma ReportInFlight(w: World, i: nat, acked: bool)
    requires WorldValid(w) && i < |w.out| && w.out[i].epoch == w.epoch
    ensures w.finder.inFlight != INVALID_BYTE_COUNT && WorldValid(StepWorld(w, Report(i, acked)))
    ensures StepWorld(w, Report(i, acked)).finder.search == Next(w.finder.search, acked)
  {
    assert w.finder.inFlight != INVALID_BYTE_COUNT;
    NextValid(w.finder.search, acked);
    OthersOld(w, i);
  }

  /** The probes other than the current one were sent before the last reset. */
  lemma OthersOld(w: World, i: nat)
    requires WorldValid(w) && i < |w.out| && w.out[i].epoch == w.epoch
    ensures var out := w.out[..i] + w.out[i + 1..];
            forall k :: 0 <= k < |out| ==> out[k].epoch < w.epoch && out[k].generation == out[k].epoch % 256
  {
    var out := w.out[..i] + w.out[i + 1..];
    forall k | 0 <= k < |out| ensures out[k].epoch < w.epoch && out[k].generation == out[k].epoch % 256 {
      assert out[k] == w.out[if k < i then k else k + 1];
    }
  }

  lemma ReportStale(w: World, i: nat, acked: bool)
    requires WorldValid(w) && i < |w.out| && w.out[i].epoch < w.epoch < w.out[i].epoch + 256
    requires w.out[i].generation != w.finder.generation
    ensures WorldValid(StepWorld(w, Report(i, acked))) && StepWorld(w, Report(i, acked)).finder == w.finder
  {
    var out := w.out[..i] + w.out[i + 1..];
    assert forall k :: 0 <= k < |out| ==> out[k] == w.out[if k < i then k else k + 1];
    if w.finder.inFlight != INVALID_BYTE_COUNT {
      ProbeInside(w.finder.search);
    }
  }

  /** The report of a probe counts exactly if a multiple of 256 resets, perhaps none, came between. */
  lemma StaleIffWrapped(w: World, i: nat)
    requires WorldValid(w) && i < |w.out|
    ensures Accepts(w.finder, w.out[i].generation) <==> (w.epoch - w.out[i].epoch) % 256 == 0
  {
    SameResidue(w.out[i].epoch, w.epoch);
  }

  lemma SameResidue(sent: nat, now: nat)
    requires sent <= now
    ensures sent % 256 == now % 256 <==> (now - sent) % 256 == 0
  {
  }

  function ResetTimes(f: Finder, n: nat, start: int, max: int): Finder {
    if n == 0 then f else WithReset(ResetTimes(f, n - 1, start, max), start, max)
  }

  lemma {:induction false} ResetTimesGeneration(f: Finder, n: nat, start: int, max: int)
    requires 0 <= f.generation < 256
    ensures ResetTimes(f, n, start, max).generation == (f.generation + n) % 256
    ensures n > 0 ==> ResetTimes(f, n, start, max).inFlight == INVALID_BYTE_COUNT
  {
    if n > 0 {
      ResetTimesGeneration(f, n - 1, start, max);
    }
  }

  /** So after 256 resets the report of an old probe is accepted with nothing in flight,
      which is the panic. */
  lemma WrapAroundPanics(f: Finder, start: int, max: int)
    requires 0 <= f.generation < 256
    ensures var g := ResetTimes(f, 256, start, max);
            Accepts(g, f.generation) && g.inFlight == INVALID_BYTE_COUNT
  {
    ResetTimesGeneration(f, 256, start, max);
  }

  /** Every event sequence that the start state allows. */
  ghost predicate AllEnabled(w: World, events: seq<Event>)
    decreases |events|
  {
    |events| > 0 ==> Enabled(w, events[0]) && AllEnabled(StepWorld(w, events[0]), events[1..])
  }

  function RunWorld(w: World, events: seq<Event>): World
    requires AllEnabled(w, events)
    decreases |events|
  {
    if |events| == 0 then w else RunWorld(StepWorld(w, events[0]), events[1..])
  }

  lemma {:induction false} WorldRun(w: World, events: seq<Event>)
    requires WorldValid(w) && AllEnabled(w, events)
    ensures WorldValid(RunWorld(w, events))
    decreases |events|
  {
    if |events| > 0 {
      WorldStep(w, events[0]);
      WorldRun(StepWorld(w, events[0]), events[1..]);
    }
  }
}
