/** Issuing connection IDs (conn_id_generator.go), and the two sides of the protocol together. */
module ConnIdPairing {
  import opened ConnIdManaging
  import opened Protocol

  const MAX_ISSUED_CONNECTION_IDS := 6

  datatype RetireError = NeverIssued | InUse

  /** Issues connection IDs: ids(n) is the ID that belongs to number n. */
  class ConnIdGenerator {
    const ids: nat -> ConnId
    const tokens: ConnId -> seq<Byte>
    const zeroLength: bool
    var highestSeq: nat
    var active: map<nat, ConnId>

    /** The NEW_CONNECTION_ID frames queued so far. */
    var newFrames: seq<NewConnId>

    /** The numbers that were retired, and the most that may be active at a time. */
    ghost var gone: set<nat>
    ghost var bound: nat

    ghost function Frame(n: nat): NewConnId {
      NewConnId(Entry(n, ids(n), tokens(ids(n))), 0)
    }

    ghost predicate Valid()
      reads this
    {
      && 1 <= bound && |active| <= bound
      && (forall n: nat :: n in active <==> n <= highestSeq && n !in gone)
      && (forall n: nat :: n in active ==> active[n] == ids(n))
      && (forall f :: f in newFrames ==> 1 <= f.entry.number <= highestSeq && f == Frame(f.entry.number))
      && (forall n :: n in gone ==> n <= highestSeq) && (zeroLength ==> highestSeq == 0)
    }

    constructor (ids: nat -> ConnId, tokens: ConnId -> seq<Byte>)
      ensures Valid() && this.ids == ids && this.tokens == tokens && zeroLength == (ids(0) == [])
      ensures highestSeq == 0 && active == map[0 := ids(0)] && newFrames == [] && gone == {} && bound == 1
    {
      this.ids, this.tokens, zeroLength := ids, tokens, ids(0) == [];
      highestSeq, active, newFrames := 0, map[0 := ids(0)], [];
      gone, bound := {}, 1;
    }

    /** Issues the next number. */
    method Issue()
      requires Valid() && !zeroLength && |active| < bound
      modifies `highestSeq, `active, `newFrames
      ensures Valid() && highestSeq == old(highestSeq) + 1 && |active| == |old(active)| + 1
      ensures newFrames == old(newFrames) + [Frame(highestSeq)] && active == old(active)[highestSeq := ids(highestSeq)]
    {
      var n := highestSeq + 1;
      active := active[n := ids(n)];
      newFrames := newFrames + [NewConnId(Entry(n, ids(n), tokens(ids(n))), 0)];
      highestSeq := n;
    }

    /** The peer's limit is known: fills up to it. */
    method SetMaxActive(limit: nat)
      requires Valid()
      modifies this
      ensures Valid() && gone == old(gone) && old(newFrames) <= newFrames && old(highestSeq) <= highestSeq
      ensures bound == Max(old(bound), Min(limit, MAX_ISSUED_CONNECTION_IDS))
      ensures |active| == if zeroLength then |old(active)|
              else Max(|old(active)|, Min(limit, MAX_ISSUED_CONNECTION_IDS))
    {
      bound := Max(bound, Min(limit, MAX_ISSUED_CONNECTION_IDS));
      if !zeroLength {
        while |active| < Min(limit, MAX_ISSUED_CONNECTION_IDS)
          invariant Valid() && gone == old(gone) && old(newFrames) <= newFrames && old(highestSeq) <= highestSeq
          invariant bound == Max(old(bound), Min(limit, MAX_ISSUED_CONNECTION_IDS))
          invariant |old(active)| <= |active| <= Max(|old(active)|, Min(limit, MAX_ISSUED_CONNECTION_IDS))
        {
          Issue();
        }
      }
    }

    /** A RETIRE_CONNECTION_ID frame, in a packet that was sent to dcid. A number other than 0 is
        replaced, so that as many are active as before. */
    method Retire(n: nat, dcid: ConnId) returns (err: Option<RetireError>)
      requires Valid()
      modifies this
      ensures Valid() && bound == old(bound) && old(newFrames) <= newFrames && old(highestSeq) <= highestSeq
      ensures err == if n > old(highestSeq) then Some(NeverIssued)
              else if n in old(active) && ids(n) == dcid then Some(InUse) else None
      ensures gone == if err.None? && n in old(active) then old(gone) + {n} else old(gone)
      ensures |active| == |old(active)| - if err.None? && n == 0 && n in old(active) then 1 else 0
    {
      if n > highestSeq {
        return Some(NeverIssued);
      }
      if n !in active {
        return None;
      }
      if active[n] == dcid {
        return Some(InUse);
      }
      Drop(n);
      if n != 0 {
        Issue();
      }
      err := None;
    }

    method Drop(n: nat)
      requires Valid() && n in active
      modifies `active, `gone
      ensures Valid() && active == old(active) - {n} && gone == old(gone) + {n} && |active| == |old(active)| - 1
    {
      assert active.Keys - {n} == (active - {n}).Keys;
      assert active.Keys == (active - {n}).Keys + {n};
      active, gone := active - {n}, gone + {n};
    }
  }

  /** The queue and the active number are different members of a set. */
  lemma {:induction false} QueueSmaller(queue: seq<Entry>, active: nat, floor: nat, all: set<nat>)
    requires ValidQueue(queue, active, floor) && active in all
    requires forall i :: 0 <= i < |queue| ==> queue[i].number in all
    ensures |queue| < |all|
    decreases |queue|
  {
    var rest := all - {active};
    assert all == rest + {active};
    if |queue| > 0 {
      assert forall i :: 0 <= i < |queue| - 1 ==> queue[1..][i] == queue[i + 1];
      QueueSmaller(queue[1..], queue[0].number, floor, rest);
    }
  }

  /** The issuing and the using side of one direction. Frames may be lost, repeated and
      reordered: any frame ever queued may arrive at any time, any number of times. */
  class ConnIdPair {
    const g: ConnIdGenerator
    const m: ConnIdManager

    /** The RETIRE_CONNECTION_ID frames sent: the number retired, and the number of the connection ID
        that the packet was sent to. */
    ghost var retireSent: set<(nat, nat)>

    ghost predicate Injective()
      reads this
    {
      !g.zeroLength ==> forall i: nat, j: nat :: g.ids(i) == g.ids(j) ==> i == j
    }

    ghost predicate Valid()
      reads this, g, m
    {
      && g.Valid() && m.Valid() && !m.probed && !m.closed && g.bound <= m.limit
      && Injective() && (forall n: nat :: (g.ids(n) == []) == g.zeroLength)
      && (forall e :: e in m.seen ==> Genuine(e))
      && (forall n :: n in g.gone ==> n in m.retireFrames)
      && (forall r :: r in retireSent ==> r.0 in m.retireFrames && r.0 < r.1 <= g.highestSeq)
    }

    ghost predicate Genuine(e: Entry)
      reads this, g
    {
      e.number <= g.highestSeq && e.id == g.ids(e.number) && (e.number > 0 ==> e.token == g.tokens(e.id))
    }

    constructor (ids: nat -> ConnId, tokens: ConnId -> seq<Byte>, limit: nat)
      requires forall n: nat :: (ids(n) == []) == (ids(0) == [])
      requires ids(0) != [] ==> forall i: nat, j: nat :: ids(i) == ids(j) ==> i == j
      ensures Valid()
    {
      g := new ConnIdGenerator(ids, tokens);
      m := new ConnIdManager(ids(0), limit);
      retireSent := {};
    }

    /** The numbers that one side holds are active on the other, with the same ID. */
    lemma HeldActive()
      requires Valid()
      ensures forall n: nat :: m.Held(n) ==> n in g.active
      ensures m.active in g.active && g.active[m.active] == m.activeId
      ensures |m.queue| < |g.active| <= m.limit
    {
      assert Genuine(Entry(m.active, m.activeId, TokenOf(m.activeToken)));
      forall i | 0 <= i < |m.queue| ensures m.queue[i].number in g.active {
        assert Genuine(m.queue[i]);
      }
      QueueSmaller(m.queue, m.active, Max(m.highestRetired, m.highestProbing), g.active.Keys);
    }

    /** The limit of the peer becomes known. */
    method SetMaxActive(limit: nat)
      requires Valid() && limit <= m.limit
      modifies g
      ensures Valid()
    {
      g.SetMaxActive(limit);
    }

    /** A NEW_CONNECTION_ID frame arrives; it is never an error. */
    method DeliverNew(f: NewConnId, rand: nat) returns (err: Option<AddError>)
      requires Valid() && f in g.newFrames && rand < PACKETS_PER_CONNECTION_ID
      modifies m
      ensures Valid() && err.None?
    {
      HeldActive();
      forall e | e in m.queue && e.number == f.entry.number ensures e == f.entry {
        assert Genuine(e);
      }
      assert m.activeId != [];
      err := m.Add(f, rand);
      HeldActive();
    }

    /** A connection ID is chosen for the next packet. */
    method Get(rand: nat) returns (id: ConnId)
      requires Valid() && rand < PACKETS_PER_CONNECTION_ID
      modifies m
      ensures Valid() && id == m.activeId
    {
      id := m.Get(rand);
    }

    /** A RETIRE_CONNECTION_ID frame is sent, perhaps again, in a packet to the active ID. */
    ghost method SendRetire(n: nat)
      requires Valid() && n in m.retireFrames
      modifies this
      ensures Valid() && retireSent == old(retireSent) + {(n, m.active)}
    {
      HeldActive();
      retireSent := retireSent + {(n, m.active)};
    }

    /** A packet that retires a number is not sent to the ID of that number. */
    lemma NotInUse(n: nat, k: nat)
      requires Valid() && (n, k) in retireSent
      ensures n <= g.highestSeq && g.ids(n) != g.ids(k) && !m.Held(n)
    {
    }

    /** It arrives; it is never an error, and what it retires is not held. */
    method DeliverRetire(n: nat, ghost k: nat, dcid: ConnId) returns (err: Option<RetireError>)
      requires Valid() && (n, k) in retireSent && dcid == g.ids(k)
      modifies g
      ensures Valid() && err.None? && !m.Held(n)
    {
      NotInUse(n, k);
      err := g.Retire(n, dcid);
    }
  }
}
