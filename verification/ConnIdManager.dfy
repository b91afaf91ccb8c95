/** The connection IDs that the peer issued (conn_id_manager.go; section 5.1 of RFC 9000). */
module ConnIdManaging {
  import opened Protocol

  const MAX_ACTIVE_CONNECTION_IDS := 4
  const PACKETS_PER_CONNECTION_ID := 10000

  type ConnId = seq<Byte>

  datatype Entry = Entry(number: nat, id: ConnId, token: seq<Byte>)

  /** A NEW_CONNECTION_ID frame; the parser refuses one that retires more than it issues. */
  datatype NewConnId = NewConnId(entry: Entry, retirePriorTo: nat) {
    ghost predicate Valid() {
      retirePriorTo <= entry.number
    }
  }

  datatype AddError = ZeroLengthInUse | ConflictingId | ConflictingToken | LimitExceeded

  /** Strictly increasing, above the active number, and not below what was retired or probed. */
  ghost predicate ValidQueue(queue: seq<Entry>, active: nat, floor: nat) {
    && (forall i, j :: 0 <= i < j < |queue| ==> queue[i].number < queue[j].number)
    && (forall i :: 0 <= i < |queue| ==> active < queue[i].number && floor <= queue[i].number)
  }

  ghost predicate InQueue(queue: seq<Entry>, n: int) {
    exists i :: 0 <= i < |queue| && queue[i].number == n
  }

  ghost predicate InProbing(probing: map<nat, Entry>, n: int) {
    exists p :: p in probing && probing[p].number == n
  }

  ghost predicate Holds(queue: seq<Entry>, probing: map<nat, Entry>, active: nat, n: int) {
    n == active || InQueue(queue, n) || InProbing(probing, n)
  }

  /** Every number ever held is held, or a RETIRE_CONNECTION_ID frame was queued for it. */
  ghost predicate Accounted(seen: set<Entry>, queue: seq<Entry>, probing: map<nat, Entry>, active: nat,
                            retired: seq<nat>)
  {
    forall e :: e in seen ==> Holds(queue, probing, active, e.number) || e.number in retired
  }

  ghost function TokenOf(token: Option<seq<Byte>>): seq<Byte> {
    if token.Some? then token.value else []
  }

  /** Only the token of the active ID is registered, and none once the manager is closed. */
  ghost function Tokens(token: Option<seq<Byte>>, closed: bool): multiset<seq<Byte>> {
    if token.Some? && !closed then multiset{token.value} else multiset{}
  }

  ghost predicate AllSeen(seen: set<Entry>, queue: seq<Entry>) {
    forall i :: 0 <= i < |queue| ==> queue[i] in seen
  }

  /** No number serves twice: not for two paths, nor for a path and another use. */
  ghost predicate Disjoint(queue: seq<Entry>, probing: map<nat, Entry>, active: nat) {
    && (forall n :: InProbing(probing, n) ==> n != active && !InQueue(queue, n))
    && (forall p, q :: p in probing && q in probing && p != q ==> probing[p].number != probing[q].number)
  }

  /** The queue has another entry with the number of e. */
  ghost predicate Conflicts(queue: seq<Entry>, e: Entry) {
    exists o :: o in queue && o.number == e.number && o != e
  }

  /** Only entries below prior are gone. */
  ghost predicate Kept(before: seq<Entry>, after: seq<Entry>, prior: nat) {
    forall e :: (e in after ==> e in before) && (e in before && prior <= e.number ==> e in after)
  }

  lemma ConflictsKept(before: seq<Entry>, after: seq<Entry>, prior: nat, e: Entry)
    requires Kept(before, after, prior) && prior <= e.number
    ensures Conflicts(before, e) <==> Conflicts(after, e)
  {
  }

  lemma EnqueuedAccounted(seen: set<Entry>, queue: seq<Entry>, queue1: seq<Entry>, probing: map<nat, Entry>,
                          active: nat, retired: seq<nat>, e: Entry)
    requires Accounted(seen, queue, probing, active, retired)
    requires forall n :: InQueue(queue1, n) <==> InQueue(queue, n) || n == e.number
    ensures Accounted(seen + {e}, queue1, probing, active, retired)
  {
    forall o | o in seen ensures Holds(queue1, probing, active, o.number) || o.number in retired {
      assert Holds(queue, probing, active, o.number) || o.number in retired;
    }
  }

  ghost predicate SubMap(a: map<nat, Entry>, b: map<nat, Entry>) {
    forall p :: p in a ==> p in b && a[p] == b[p]
  }

  // ----- the queue

  /** Removes the entries below prior from the front; none are if prior was seen before. */
  method RetireQueue(queue0: seq<Entry>, prior: nat, highestRetired: nat, ghost active: nat, ghost floor: nat,
                     ghost seen: set<Entry>)
    returns (queue: seq<Entry>, retired: seq<nat>)
    requires ValidQueue(queue0, active, floor) && highestRetired <= floor && AllSeen(seen, queue0)
    ensures prior == 0 ==> queue == queue0 && retired == []
    ensures ValidQueue(queue, active, Max(floor, prior)) && |queue| <= |queue0| && AllSeen(seen, queue)
    ensures forall n :: InQueue(queue0, n) ==> if n < prior then n in retired else InQueue(queue, n)
    ensures forall n :: n in retired ==> InQueue(queue0, n) && n < prior
    ensures forall n :: InQueue(queue, n) ==> InQueue(queue0, n)
    ensures Kept(queue0, queue, prior)
  {
    var k := 0;
    queue, retired := queue0, [];
    if prior <= highestRetired {
      return;
    }
    while k < |queue0| && queue0[k].number < prior
      invariant 0 <= k <= |queue0| && forall i :: 0 <= i < k ==> queue0[i].number in retired
      invariant forall n :: n in retired ==> InQueue(queue0, n) && n < prior
    {
      retired := retired + [queue0[k].number];
      k := k + 1;
    }
    QueueBehind(queue0, k, prior, active, floor);
    queue := queue0[k..];
  }

  /** What is left of a queue without the k entries in front, which are those below prior. */
  lemma QueueBehind(queue: seq<Entry>, k: nat, prior: nat, active: nat, floor: nat)
    requires ValidQueue(queue, active, floor) && k <= |queue|
    requires forall i :: 0 <= i < k ==> queue[i].number < prior
    requires k < |queue| ==> prior <= queue[k].number
    ensures ValidQueue(queue[k..], active, Max(floor, prior))
    ensures forall n :: InQueue(queue[k..], n) <==> InQueue(queue, n) && prior <= n
    ensures forall e :: e in queue[k..] <==> e in queue && prior <= e.number
  {
    var rest := queue[k..];
    assert forall i :: 0 <= i < |rest| ==> rest[i] == queue[k + i];
    forall n | InQueue(queue, n) && prior <= n ensures InQueue(rest, n) {
      var i :| 0 <= i < |queue| && queue[i].number == n;
      assert rest[i - k].number == n;
    }
    forall e | e in queue && prior <= e.number ensures e in rest {
      var i :| 0 <= i < |queue| && queue[i] == e;
      assert rest[i - k] == e;
    }
  }

  /** Inserts e in order; an entry with the same number must be the same. */
  method Insert(queue0: seq<Entry>, e: Entry, ghost active: nat, ghost floor: nat, ghost seen: set<Entry>)
    returns (queue: seq<Entry>, err: Option<AddError>)
    requires ValidQueue(queue0, active, floor) && AllSeen(seen, queue0) && active < e.number && floor <= e.number
    ensures err.None? ==> ValidQueue(queue, active, floor) && |queue| <= |queue0| + 1 && e in queue
    ensures err.None? ==> forall n :: InQueue(queue, n) <==> InQueue(queue0, n) || n == e.number
    ensures err.None? ==> AllSeen(seen + {e}, queue)
    ensures err.Some? ==> queue == queue0 && !err.value.LimitExceeded? && !err.value.ZeroLengthInUse?
    ensures err.Some? <==> Conflicts(queue0, e)
  {
    err, queue := None, queue0;
    var k := |queue0|;
    if |queue0| > 0 && queue0[|queue0| - 1].number >= e.number {
      k := 0;
      while queue0[k].number < e.number
        invariant 0 <= k < |queue0| && forall i :: 0 <= i < k ==> queue0[i].number < e.number
      {
        k := k + 1;
      }
      if queue0[k].number == e.number {
        OnlyEntry(queue0, k, e, active, floor);
        if queue0[k].id != e.id {
          err := Some(ConflictingId);
        } else if queue0[k].token != e.token {
          err := Some(ConflictingToken);
        }
        return;
      }
    }
    InsertedAt(queue0, e, k, active, floor);
    queue := queue0[..k] + [e] + queue0[k..];
  }

  /** Entries have different numbers, so one with that number conflicts exactly if it is another one. */
  lemma OnlyEntry(queue: seq<Entry>, k: nat, e: Entry, active: nat, floor: nat)
    requires ValidQueue(queue, active, floor) && k < |queue| && queue[k].number == e.number
    ensures Conflicts(queue, e) <==> queue[k] != e
    ensures InQueue(queue, e.number) && queue[k] in queue
  {
  }

  lemma InsertedAt(queue: seq<Entry>, e: Entry, k: nat, active: nat, floor: nat)
    requires ValidQueue(queue, active, floor) && active < e.number && floor <= e.number && k <= |queue|
    requires forall i :: 0 <= i < k ==> queue[i].number < e.number
    requires k < |queue| ==> e.number < queue[k].number
    ensures var r := queue[..k] + [e] + queue[k..];
            ValidQueue(r, active, floor) && e in r && forall n :: InQueue(r, n) <==> InQueue(queue, n) || n == e.number
  {
    var r := queue[..k] + [e] + queue[k..];
    assert r[k] == e;
    forall n ensures InQueue(r, n) <==> InQueue(queue, n) || n == e.number {
      InsertedNumber(queue, e, k, n);
    }
  }

  lemma InsertedNumber(queue: seq<Entry>, e: Entry, k: nat, n: int)
    requires k <= |queue|
    ensures InQueue(queue[..k] + [e] + queue[k..], n) <==> InQueue(queue, n) || n == e.number
  {
    var r := queue[..k] + [e] + queue[k..];
    assert r[k] == e;
    if InQueue(queue, n) {
      var i :| 0 <= i < |queue| && queue[i].number == n;
      assert r[if i < k then i else i + 1] == queue[i];
    }
  }

  /** Removes the entries below prior from the map. */
  method RetireProbing(probing0: map<nat, Entry>, prior: nat) returns (probing: map<nat, Entry>, retired: seq<nat>)
    ensures forall n :: InProbing(probing0, n) ==> if n < prior then n in retired else InProbing(probing, n)
    ensures forall n :: InProbing(probing, n) ==> prior <= n && InProbing(probing0, n)
    ensures SubMap(probing, probing0) && (prior == 0 ==> probing == probing0 && retired == [])
    ensures forall n :: n in retired ==> InProbing(probing0, n) && n < prior
  {
    probing, retired := probing0, [];
    if prior == 0 {
      return;
    }
    var left := probing0.Keys;
    while left != {}
      invariant left <= probing.Keys && forall p :: p in probing ==> p in probing0 && probing[p] == probing0[p]
      invariant forall p :: p in probing0 ==> if p in probing then p in left || prior <= probing0[p].number
                                              else probing0[p].number < prior && probing0[p].number in retired
      invariant forall n :: n in retired ==> InProbing(probing0, n) && n < prior
    {
      var p :| p in left;
      left := left - {p};
      if probing[p].number < prior {
        retired := retired + [probing[p].number];
        probing := probing - {p};
      }
    }
    forall n | InProbing(probing0, n) ensures if n < prior then n in retired else InProbing(probing, n) {
      var p :| p in probing0 && probing0[p].number == n;
      assert n >= prior ==> probing[p].number == n;
    }
  }

  /** Removes everything below prior but the active number. */
  method RetireBelow(queue: seq<Entry>, probing: map<nat, Entry>, prior: nat, highestRetired: nat, ghost active: nat,
                     ghost highestProbing: nat,
                     ghost retired: seq<nat>, ghost seen: set<Entry>)
    returns (q: seq<Entry>, p: map<nat, Entry>, r: seq<nat>)
    requires ValidQueue(queue, active, Max(highestRetired, highestProbing)) && AllSeen(seen, queue)
    requires Accounted(seen, queue, probing, active, retired)
    ensures ValidQueue(q, active, Max(Max(highestRetired, prior), highestProbing)) && AllSeen(seen, q) && |q| <= |queue|
    ensures Accounted(seen, q, p, active, retired + r) && SubMap(p, probing)
    ensures Disjoint(queue, probing, active) ==> Disjoint(q, p, active)
    ensures forall n :: InQueue(q, n) ==> prior <= n && InQueue(queue, n)
    ensures forall n :: InProbing(p, n) <==> prior <= n && InProbing(probing, n)
    ensures forall n :: n in r ==> n < prior && Holds(queue, probing, active, n)
    ensures (prior == 0 ==> q == queue && p == probing && r == [])
    ensures Kept(queue, q, prior)
  {
    var r1, r2;
    p, r1 := RetireProbing(probing, prior);
    q, r2 := RetireQueue(queue, prior, highestRetired, active, Max(highestRetired, highestProbing), seen);
    r := r1 + r2;
    PurgedAccounted(seen, queue, probing, active, retired, q, p, r, prior);
    PurgedDisjoint(queue, probing, active, q, p);
  }

  // ----- the manager

  class ConnIdManager {
    const limit: nat
    var queue: seq<Entry>
    var highestProbing: nat
    var probing: map<nat, Entry>
    var handshakeComplete: bool
    var active: nat
    var activeId: ConnId
    var activeToken: Option<seq<Byte>>
    var highestRetired: nat
    var packetsSinceLastChange: nat
    var packetsPerConnectionId: nat
    var closed: bool

    /** The stateless reset tokens that are registered for this connection. */
    var registered: multiset<seq<Byte>>

    /** The numbers of all RETIRE_CONNECTION_ID frames queued so far. */
    var retireFrames: seq<nat>

    /** All entries accepted so far, and whether a path has ever been probed. */
    ghost var seen: set<Entry>
    ghost var probed: bool

    ghost predicate Core()
      reads this
    {
      && ValidQueue(queue, active, Max(highestRetired, highestProbing))
      && Accounted(seen, queue, probing, active, retireFrames)
      && AllSeen(seen, queue) && Entry(active, activeId, TokenOf(activeToken)) in seen
      && registered == Tokens(activeToken, closed)
    }

    /** Valid but for the active number, which may be below prior. */
    ghost predicate Almost(prior: nat)
      reads this
    {
      && Core() && highestRetired <= Max(active, prior)
      && (forall p :: p in probing ==> probing[p].number <= highestProbing)
      && (!probed ==> probing == map[] && highestProbing == 0)
      && (!probed ==> forall n :: n in retireFrames ==> n < Max(active, prior))
    }

    /** Without probing, only numbers below the active one are ever retired: none that is held. */
    ghost predicate Valid()
      reads this
    {
      && Core() && highestRetired <= active && (forall p :: p in probing ==> probing[p].number <= highestProbing)
      && (!probed ==> probing == map[] && highestProbing == 0 && forall n :: n in retireFrames ==> n < active)
    }

    ghost predicate Held(n: int)
      reads this
    {
      Holds(queue, probing, active, n)
    }

    /** No number serves twice. */
    ghost predicate Unique()
      reads this
    {
      Disjoint(queue, probing, active)
    }

    ghost predicate NothingBelow(n: nat)
      reads this
    {
      forall m :: Held(m) ==> n <= m
    }

    /** Neither the active number nor one of a path is below prior. */
    ghost predicate ClearBelow(prior: nat)
      reads this
    {
      prior <= active && forall p :: p in probing ==> prior <= probing[p].number
    }

    /** The connection ID limit is the one chosen, or the default. */
    constructor (id: ConnId, connectionIdLimit: nat)
      ensures Valid() && queue == [] && active == 0 && activeId == id && retireFrames == []
      ensures seen == {Entry(0, id, [])}
      ensures probing == map[] && highestProbing == 0 && !probed && !closed
      ensures limit == if connectionIdLimit == 0 then MAX_ACTIVE_CONNECTION_IDS else connectionIdLimit
    {
      limit := if connectionIdLimit == 0 then MAX_ACTIVE_CONNECTION_IDS else connectionIdLimit;
      queue, highestProbing, probing, handshakeComplete := [], 0, map[], false;
      active, activeId, activeToken, highestRetired := 0, id, None, 0;
      packetsSinceLastChange, packetsPerConnectionId, closed, registered := 0, 0, false, multiset{};
      retireFrames, seen, probed := [], {Entry(0, id, [])}, false;
    }

    /** Whether a frame is reordered or was retired already. */
    predicate Early(number: nat)
      reads this
    {
      number < Max(active, highestProbing) || number < highestRetired
    }

    /** Retires the active number and makes the next one active. The queue is not empty. */
    method Rotate(rand: nat)
      requires Core() && |queue| > 0 && rand < PACKETS_PER_CONNECTION_ID && !closed
      modifies `queue, `highestRetired, `retireFrames, `active, `activeId, `activeToken, `registered
      modifies `packetsSinceLastChange, `packetsPerConnectionId
      ensures Core() && queue == old(queue)[1..] && active == old(queue)[0].number && activeId == old(queue)[0].id
      ensures highestRetired == Max(old(highestRetired), old(active)) <= active
      ensures retireFrames == old(retireFrames) + [old(active)]
      ensures probing == old(probing) && seen == old(seen)
      ensures forall n :: Held(n) <==> old(Held(n)) && (n != old(active) || InProbing(probing, n))
      ensures forall n :: InQueue(queue, n) ==> old(InQueue(queue, n))
      ensures old(Unique()) ==> Unique()
    {
      RotatedHolds(queue, probing, active);
      RotatedCore(seen, queue, probing, active, highestRetired, highestProbing, retireFrames);
      var front := queue[0];
      retireFrames, highestRetired, queue := retireFrames + [active], Max(highestRetired, active), queue[1..];
      Activate(front, rand);
    }

    method Activate(e: Entry, rand: nat)
      requires rand < PACKETS_PER_CONNECTION_ID && !closed && registered == Tokens(activeToken, closed)
      modifies `active, `activeId, `activeToken, `registered, `packetsSinceLastChange, `packetsPerConnectionId
      ensures active == e.number && activeId == e.id && activeToken == Some(e.token) && packetsSinceLastChange == 0
      ensures registered == Tokens(activeToken, closed)
      ensures PACKETS_PER_CONNECTION_ID / 2 <= packetsPerConnectionId < 3 * PACKETS_PER_CONNECTION_ID / 2
    {
      if activeToken.Some? {
        registered := registered - multiset{activeToken.value};
      }
      active, activeId, activeToken := e.number, e.id, Some(e.token);
      registered := registered + multiset{e.token};
      packetsSinceLastChange, packetsPerConnectionId := 0, PACKETS_PER_CONNECTION_ID / 2 + rand;
    }

    predicate ShouldUpdate()
      reads this
    {
      handshakeComplete &&
      ((|queue| > 0 && active == 0)
        || (2 * |queue| >= MAX_ACTIVE_CONNECTION_IDS && packetsSinceLastChange >= packetsPerConnectionId))
    }

    /** The connection ID to send with; it may change now. */
    method Get(rand: nat) returns (id: ConnId)
      requires Valid() && rand < PACKETS_PER_CONNECTION_ID && !closed
      modifies `queue, `highestRetired, `retireFrames, `active, `activeId, `activeToken, `registered
      modifies `packetsSinceLastChange, `packetsPerConnectionId
      ensures Valid() && id == activeId && seen == old(seen) && probing == old(probing) && (old(Unique()) ==> Unique())
      ensures old(ShouldUpdate()) ==>
                && |old(queue)| > 0 && active == old(queue)[0].number && activeId == old(queue)[0].id
                && queue == old(queue)[1..] && retireFrames == old(retireFrames) + [old(active)]
      ensures !old(ShouldUpdate()) ==>
                && active == old(active) && activeId == old(activeId)
                && queue == old(queue) && retireFrames == old(retireFrames)
    {
      if ShouldUpdate() {
        Rotate(rand);
      }
      id := activeId;
    }

    /** Retires what is queued or probed below prior; the active number waits. */
    method Purge(prior: nat)
      requires Core()
      modifies `queue, `probing, `highestRetired, `retireFrames
      ensures Core() && highestRetired == Max(old(highestRetired), prior)
      ensures forall n :: InQueue(queue, n) ==> prior <= n && old(InQueue(queue, n))
      ensures forall n :: InProbing(probing, n) <==> prior <= n && old(InProbing(probing, n))
      ensures |queue| <= |old(queue)| && SubMap(probing, old(probing)) && (old(Unique()) ==> Unique())
      ensures old(retireFrames) <= retireFrames
      ensures forall n :: n in retireFrames ==> n in old(retireFrames) || (n < prior && old(Held(n)))
      ensures prior == 0 ==> queue == old(queue) && probing == old(probing) && retireFrames == old(retireFrames)
      ensures Kept(old(queue), queue, prior)
    {
      var q, p, r := RetireBelow(queue, probing, prior, highestRetired, active, highestProbing, retireFrames, seen);
      queue, probing, highestRetired, retireFrames := q, p, Max(highestRetired, prior), retireFrames + r;
    }

    /** Takes over a frame that is not early. Nothing below its retirePriorTo is held then, and
        the queue is not empty when the active number has to be replaced. */
    method Accept(f: NewConnId, rand: nat) returns (err: Option<AddError>)
      requires Valid() && f.Valid() && rand < PACKETS_PER_CONNECTION_ID && !closed
      requires !Early(f.entry.number) && f.entry.number != active
      modifies `queue, `probing, `highestRetired, `retireFrames, `seen, `active, `activeId, `activeToken, `registered
      modifies `packetsSinceLastChange, `packetsPerConnectionId
      ensures err.None? ==>
                Valid() && NothingBelow(f.retirePriorTo) && seen == old(seen) + {f.entry} && Held(f.entry.number)
      ensures err.Some? ==> err.value.ConflictingId? || err.value.ConflictingToken?
      ensures err.Some? <==> old(Conflicts(queue, f.entry))
      ensures forall n :: Held(n) ==> old(Held(n)) || n == f.entry.number
      ensures forall n :: InQueue(queue, n) ==> old(InQueue(queue, n)) || n == f.entry.number
      ensures old(retireFrames) <= retireFrames
      ensures f.retirePriorTo <= old(active) ==> active == old(active) && activeId == old(activeId)
      ensures f.retirePriorTo == 0 ==> probing == old(probing) && retireFrames == old(retireFrames)
      ensures forall n :: n in retireFrames ==> n in old(retireFrames) || n < f.retirePriorTo
      ensures err.None? && f.retirePriorTo <= old(active) ==> f.entry in queue
      ensures err.None? && old(Unique()) ==> (Unique() <==> !old(InProbing(probing, f.entry.number)))
    {
      Purge(f.retirePriorTo);
      ConflictsKept(old(queue), queue, f.retirePriorTo, f.entry);
      assert Almost(f.retirePriorTo);
      err := Place(f.entry, f.retirePriorTo, rand);
    }

    /** A frame for the active number may only retire others. */
    method AcceptActive(f: NewConnId)
      requires Valid() && f.Valid() && !Early(f.entry.number) && f.entry.number == active
      modifies `queue, `probing, `highestRetired, `retireFrames, `seen
      ensures Valid() && NothingBelow(f.retirePriorTo) && seen == old(seen) + {f.entry}
      ensures forall n :: InQueue(queue, n) ==> old(InQueue(queue, n))
      ensures forall n :: Held(n) ==> old(Held(n))
      ensures forall n :: n in retireFrames ==> n in old(retireFrames) || n < f.retirePriorTo
      ensures old(retireFrames) <= retireFrames && |queue| <= |old(queue)| && (old(Unique()) ==> Unique())
      ensures f.retirePriorTo == 0 ==> probing == old(probing) && retireFrames == old(retireFrames)
    {
      Purge(f.retirePriorTo);
      assert Almost(f.retirePriorTo);
      See(f.entry);
    }

    /** An entry whose number is held was announced. */
    ghost method See(e: Entry)
      requires Valid() && Held(e.number)
      modifies `seen
      ensures Valid() && seen == old(seen) + {e}
    {
      seen := seen + {e};
    }

    /** Queues a new number. */
    method Enqueue(e: Entry) returns (err: Option<AddError>)
      requires Core() && active < e.number && Max(highestRetired, highestProbing) <= e.number
      modifies `queue, `seen
      ensures err.None? ==> Core() && seen == old(seen) + {e} && e in queue
      ensures err.None? ==> forall n :: InQueue(queue, n) <==> old(InQueue(queue, n)) || n == e.number
      ensures err.Some? ==>
                (err.value.ConflictingId? || err.value.ConflictingToken?) && queue == old(queue) && seen == old(seen)
      ensures err.Some? <==> old(Conflicts(queue, e))
      ensures err.None? && old(Unique()) ==> (Unique() <==> !InProbing(probing, e.number))
    {
      var q;
      q, err := Insert(queue, e, active, Max(highestRetired, highestProbing), seen);
      if err.None? {
        InsertedDisjoint(queue, q, probing, active, e.number);
        EnqueuedAccounted(seen, queue, q, probing, active, retireFrames, e);
        queue, seen := q, seen + {e};
      }
    }

    /** Queues a new number, and makes the next one active if the active one is below prior. */
    method Place(e: Entry, prior: nat, rand: nat) returns (err: Option<AddError>)
      requires Almost(prior) && rand < PACKETS_PER_CONNECTION_ID && !closed
      requires active < e.number && prior <= highestRetired
      requires Max(highestRetired, highestProbing) <= e.number
      modifies `queue, `highestRetired, `retireFrames, `seen, `active, `activeId, `activeToken, `registered
      modifies `packetsSinceLastChange, `packetsPerConnectionId
      ensures err.None? ==>
                Valid() && prior <= active && seen == old(seen) + {e} && Held(e.number)
      ensures err.Some? ==> err.value.ConflictingId? || err.value.ConflictingToken?
      ensures err.Some? <==> old(Conflicts(queue, e))
      ensures forall n :: Held(n) ==> old(Held(n)) || n == e.number
      ensures forall n :: InQueue(queue, n) ==> old(InQueue(queue, n)) || n == e.number
      ensures err.None? && prior <= old(active) ==> e in queue
      ensures old(active) <= active
      ensures (retireFrames == old(retireFrames)
              || (old(active) < active && retireFrames == old(retireFrames) + [old(active)]))
      ensures probing == old(probing)
      ensures prior <= old(active) ==>
                active == old(active) && activeId == old(activeId) && retireFrames == old(retireFrames)
      ensures err.None? && old(Unique()) ==> (Unique() <==> !InProbing(probing, e.number))
    {
      err := Enqueue(e);
      if err.None? && active < prior {
        RotatedTwice(queue, probing, active, e.number);
        Rotate(rand);
      }
    }

    /** An early frame is only answered. */
    method Refuse(f: NewConnId)
      requires Valid() && f.Valid() && Early(f.entry.number)
      modifies `retireFrames, `seen
      ensures Valid() && seen == old(seen) + {f.entry} && retireFrames == old(retireFrames) + [f.entry.number]
      ensures NothingBelow(f.retirePriorTo) <==> ClearBelow(f.retirePriorTo)
    {
      retireFrames, seen := retireFrames + [f.entry.number], seen + {f.entry};
      EarlyExact(f.entry.number, f.retirePriorTo);
    }

    /** A NEW_CONNECTION_ID frame. */
    method Add(f: NewConnId, rand: nat) returns (err: Option<AddError>)
      requires Valid() && f.Valid() && rand < PACKETS_PER_CONNECTION_ID && !closed
      modifies `queue, `probing, `highestRetired, `retireFrames, `seen, `active, `activeId, `activeToken, `registered
      modifies `packetsSinceLastChange, `packetsPerConnectionId
      ensures (err.None? || err.value.LimitExceeded?) ==> Valid() && seen == old(seen) + {f.entry}
      ensures err == Some(ZeroLengthInUse) <==> old(activeId) == []
      ensures err.Some? && (err.value.ConflictingId? || err.value.ConflictingToken?) <==>
                && old(activeId) != [] && !old(Early(f.entry.number)) && f.entry.number != old(active)
                && old(Conflicts(queue, f.entry))
      ensures (err == Some(LimitExceeded) ==> |queue| >= limit) && (err.None? ==> |queue| < limit)
      ensures err.None? || err.value.LimitExceeded? ==>
                (NothingBelow(f.retirePriorTo) <==> !old(Early(f.entry.number)) || old(ClearBelow(f.retirePriorTo)))
      ensures old(activeId) != [] && old(Early(f.entry.number)) ==> OnlyRefused(f.entry.number)
      ensures forall n :: Held(n) ==> old(Held(n)) || n == f.entry.number
      ensures forall n :: InQueue(queue, n) ==> old(InQueue(queue, n)) || n == f.entry.number
      ensures old(retireFrames) <= retireFrames
      ensures forall n :: n in retireFrames && !old(Early(f.entry.number)) ==>
                n in old(retireFrames) || n < f.retirePriorTo
      ensures f.retirePriorTo <= old(active) ==> active == old(active) && activeId == old(activeId)
      ensures f.retirePriorTo == 0 ==> probing == old(probing)
      ensures f.retirePriorTo == 0 && !old(Early(f.entry.number)) ==> retireFrames == old(retireFrames)
      ensures (err.None? || err.value.LimitExceeded?) && !old(Early(f.entry.number)) ==> Held(f.entry.number)
      ensures err.None? && f.retirePriorTo <= old(active) < f.entry.number && !old(Early(f.entry.number)) ==>
                f.entry in queue
      ensures err.None? && old(Unique()) ==>
                (Unique() <==> old(Early(f.entry.number)) || f.entry.number == old(active)
                               || !old(InProbing(probing, f.entry.number)))
    {
      var n := f.entry.number;
      if |activeId| == 0 {
        return Some(ZeroLengthInUse);
      }
      if Early(n) {
        Refuse(f);
        err := None;
      } else if n == active {
        AcceptActive(f);
        err := None;
      } else {
        err := Accept(f, rand);
      }
      if err.None? && |queue| >= limit {
        err := Some(LimitExceeded);
      }
    }

    /** An early frame is answered with RETIRE_CONNECTION_ID and changes nothing else. */
    twostate predicate OnlyRefused(n: nat)
      reads this
    {
      && retireFrames == old(retireFrames) + [n] && queue == old(queue) && probing == old(probing)
      && active == old(active)
      && highestRetired == old(highestRetired) && highestProbing == old(highestProbing)
    }

    /** The connection is closed; no token stays registered. */
    method Close()
      requires Valid()
      modifies `closed, `registered
      ensures Valid() && closed && registered == multiset{}
    {
      closed := true;
      if activeToken.Some? {
        registered := registered - multiset{activeToken.value};
      }
    }

    method SetHandshakeComplete()
      requires Valid()
      modifies `handshakeComplete
      ensures Valid() && handshakeComplete
    {
      handshakeComplete := true;
    }

    method SentPacket()
      requires Valid()
      modifies `packetsSinceLastChange
      ensures Valid() && packetsSinceLastChange == (old(packetsSinceLastChange) + 1) % 0x1_0000_0000
    {
      packetsSinceLastChange := (packetsSinceLastChange + 1) % 0x1_0000_0000;
    }

    /** A connection ID for a path: the one it has, or the next one of the queue. */
    method GetForPath(path: nat) returns (id: Option<ConnId>)
      requires Valid() && !closed
      modifies this
      ensures Valid() && !closed && active == old(active) && activeId == old(activeId) && seen == old(seen)
      ensures retireFrames == old(retireFrames) && highestRetired == old(highestRetired) && (old(Unique()) ==> Unique())
      ensures id.None? ==> queue == [] && path !in probing
      ensures id.Some? && activeId != [] ==> path in probing && probing[path].id == id.value
      ensures activeId == [] || path in old(probing) || old(queue) == [] ==>
                && queue == old(queue) && probing == old(probing)
                && highestProbing == old(highestProbing) && probed == old(probed)
      ensures !(activeId == [] || path in old(probing) || old(queue) == []) ==>
                && queue == old(queue)[1..] && probing == old(probing)[path := old(queue)[0]]
                && highestProbing == old(queue)[0].number
    {
      if |activeId| == 0 {
        return Some([]);
      }
      if path in probing {
        return Some(probing[path].id);
      }
      if |queue| == 0 {
        return None;
      }
      id := Some(queue[0].id);
      TakeForPath(path);
    }

    method TakeForPath(path: nat)
      requires Valid() && |queue| > 0 && path !in probing
      modifies `queue, `probing, `highestProbing, `probed
      ensures Valid() && (old(Unique()) ==> Unique())
      ensures queue == old(queue)[1..] && probing == old(probing)[path := old(queue)[0]]
      ensures highestProbing == old(queue)[0].number
    {
      var front := queue[0];
      assert Max(highestRetired, highestProbing) <= front.number;
      MovedToPath(seen, queue, probing, active, retireFrames, path);
      RotatedQueue(queue, active, highestRetired, highestProbing);
      queue, probing := queue[1..], probing[path := front];
      highestProbing, probed := front.number, true;
    }

    /** A path is given up. */
    method RetireForPath(path: nat)
      requires Valid() && !closed
      modifies `probing, `retireFrames
      ensures Valid() && (old(Unique()) ==> Unique())
      ensures activeId != [] ==> probing == old(probing) - {path}
      ensures retireFrames == old(retireFrames)
              + if activeId != [] && path in old(probing) then [old(probing)[path].number] else []
    {
      if |activeId| > 0 && path in probing {
        var n := probing[path].number;
        PathRemoved(probing, path);
        retireFrames, probing := retireFrames + [n], probing - {path};
      }
    }

    /** Exactly when an early frame, which changes nothing that is held, leaves nothing below its
        retirePriorTo. */
    lemma EarlyExact(number: nat, prior: nat)
      requires Valid() && Early(number) && prior <= number
      ensures NothingBelow(prior) <==> ClearBelow(prior)
    {
      if NothingBelow(prior) {
        assert Held(active);
        forall p | p in probing ensures prior <= probing[p].number {
          assert InProbing(probing, probing[p].number);
          assert Held(probing[p].number);
        }
      }
    }

    /** Unless a path was probed, that is always so. */
    lemma EarlyUnprobed(number: nat, prior: nat)
      requires Valid() && !probed && Early(number) && prior <= number
      ensures NothingBelow(prior)
    {
      EarlyExact(number, prior);
    }

    /** Exactly when an early frame retires a number that is still held. */
    lemma EarlyHeld(number: nat)
      requires Valid() && Early(number)
      ensures Held(number) <==> (number == active && active < highestProbing) || InProbing(probing, number)
    {
    }
  }

  /** A queue that holds only number n. */
  lemma OnlyNumber(queue: seq<Entry>, active: nat, floor: nat, n: nat)
    requires ValidQueue(queue, active, floor) && forall k :: InQueue(queue, k) ==> k == n
    ensures |queue| <= 1
  {
    assert |queue| > 1 ==> queue[0].number < queue[1].number;
    forall i | 0 <= i < |queue| ensures queue[i].number == n {
      assert InQueue(queue, queue[i].number);
    }
  }

  /** Adds number n to an empty queue. */
  method AddFirst(m: ConnIdManager, n: nat)
    requires m.Valid() && !m.closed && m.queue == [] && m.activeId != [] && m.active < n && m.highestProbing <= n
    requires m.limit == MAX_ACTIVE_CONNECTION_IDS
    modifies m
    ensures m.Valid() && !m.closed && m.queue == [Entry(n, [2], [3])] && m.active == old(m.active)
    ensures m.activeId == old(m.activeId)
    ensures m.probing == old(m.probing) && m.highestProbing == old(m.highestProbing)
    ensures m.handshakeComplete == old(m.handshakeComplete)
  {
    var err := m.Add(NewConnId(Entry(n, [2], [3]), 0), 0);
    OnlyNumber(m.queue, m.active, Max(m.highestRetired, m.highestProbing), n);
  }

  /** A manager that has changed to number 1. */
  method ActiveOne() returns (m: ConnIdManager)
    ensures fresh(m) && m.Valid() && !m.closed && m.limit == MAX_ACTIVE_CONNECTION_IDS
    ensures m.queue == [] && m.active == 1 && m.activeId == [2] && m.probing == map[] && m.highestProbing == 0
  {
    m := new ConnIdManager([1], 0);
    AddFirst(m, 1);
    m.SetHandshakeComplete();
    var id := m.Get(0);
  }

  /** Once a path was probed, a duplicate of the frame that issued the active number retires it. */
  method DuplicateRetiresActive() returns (m: ConnIdManager)
    ensures fresh(m) && m.Valid() && m.active in m.retireFrames
  {
    m := ActiveOne();
    AddFirst(m, 2);
    var probe := m.GetForPath(7);
    assert m.Early(1);
    var err := m.Add(NewConnId(Entry(1, [2], [3]), 0), 0);
  }

  /** A duplicate of the frame that issued the number probed last makes it serve a second path. */
  method DuplicateServesTwice() returns (m: ConnIdManager)
    ensures fresh(m) && m.Valid() && 7 in m.probing && 8 in m.probing && m.probing[7].number == m.probing[8].number
  {
    m := new ConnIdManager([1], 0);
    AddFirst(m, 1);
    var probe := m.GetForPath(7);
    AddFirst(m, 1);
    probe := m.GetForPath(8);
  }

  /** A manager still on number 0 that has handed numbers 1 and 2 to two paths. */
  method ProbedTwice() returns (m: ConnIdManager)
    ensures fresh(m) && m.Valid() && !m.closed && m.activeId != [] && m.active == 0 && m.highestProbing == 2
  {
    m := new ConnIdManager([1], 0);
    AddFirst(m, 1);
    var probe := m.GetForPath(7);
    AddFirst(m, 2);
    probe := m.GetForPath(8);
  }

  /** Once a path was probed, an early frame can leave the active number below its retirePriorTo. */
  method EarlyKeepsRetired() returns (m: ConnIdManager, f: NewConnId)
    ensures fresh(m) && m.Valid() && f.Valid() && !m.NothingBelow(f.retirePriorTo) && f.entry in m.seen
  {
    m := ProbedTwice();
    f := NewConnId(Entry(1, [2], [3]), 1);
    assert m.Early(1) && !m.ClearBelow(1);
    var err := m.Add(f, 0);
  }

  lemma MovedToPath(seen: set<Entry>, queue: seq<Entry>, probing: map<nat, Entry>, active: nat, retired: seq<nat>,
                    path: nat)
    requires |queue| > 0 && path !in probing && ValidQueue(queue, active, 0)
    ensures Accounted(seen, queue, probing, active, retired) ==>
              Accounted(seen, queue[1..], probing[path := queue[0]], active, retired)
    ensures Disjoint(queue, probing, active) ==> Disjoint(queue[1..], probing[path := queue[0]], active)
    ensures forall n :: InProbing(probing[path := queue[0]], n) <==> InProbing(probing, n) || n == queue[0].number
  {
    var probing1 := probing[path := queue[0]];
    forall n ensures InProbing(probing1, n) <==> InProbing(probing, n) || n == queue[0].number {
      if InProbing(probing, n) {
        var p :| p in probing && probing[p].number == n;
        assert p in probing1 && probing1[p].number == n;
      }
      assert probing1[path] == queue[0];
    }
    RotatedHolds(queue, probing, active);
    if Disjoint(queue, probing, active) {
      MovedDisjoint(queue, probing, active, path);
    }
  }

  lemma MovedDisjoint(queue: seq<Entry>, probing: map<nat, Entry>, active: nat, path: nat)
    requires |queue| > 0 && path !in probing && ValidQueue(queue, active, 0) && Disjoint(queue, probing, active)
    ensures Disjoint(queue[1..], probing[path := queue[0]], active)
  {
    var rest, probing1, front := queue[1..], probing[path := queue[0]], queue[0];
    assert forall i :: 0 <= i < |rest| ==> rest[i] == queue[i + 1];
    assert InQueue(queue, front.number);
    forall p | p in probing1 ensures probing1[p].number != active && !InQueue(rest, probing1[p].number) {
      if p != path {
        assert InProbing(probing, probing[p].number);
      }
    }
    forall p, q | p in probing1 && q in probing1 && p != q ensures probing1[p].number != probing1[q].number {
      assert p != path ==> InProbing(probing, probing[p].number);
      assert q != path ==> InProbing(probing, probing[q].number);
    }
  }

  lemma PathRemoved(probing: map<nat, Entry>, path: nat)
    requires path in probing
    ensures forall n :: InProbing(probing - {path}, n) ==> InProbing(probing, n)
    ensures forall n :: InProbing(probing, n) ==> n == probing[path].number || InProbing(probing - {path}, n)
  {
    var less := probing - {path};
    forall n | InProbing(probing, n) ensures n == probing[path].number || InProbing(less, n) {
      var p :| p in probing && probing[p].number == n;
      assert p != path ==> p in less && less[p].number == n;
    }
    forall n | InProbing(less, n) ensures InProbing(probing, n) {
      var p :| p in less && less[p].number == n;
      assert p in probing && probing[p].number == n;
    }
  }

  lemma PurgedDisjoint(queue: seq<Entry>, probing: map<nat, Entry>, active: nat, queue1: seq<Entry>, probing1: map<nat,
                       Entry>)
    requires SubMap(probing1, probing) && forall n :: InQueue(queue1, n) ==> InQueue(queue, n)
    requires forall n :: InProbing(probing1, n) ==> InProbing(probing, n)
    ensures Disjoint(queue, probing, active) ==> Disjoint(queue1, probing1, active)
  {
  }

  lemma PurgedAccounted(seen: set<Entry>, queue: seq<Entry>, probing: map<nat, Entry>, active: nat, retired: seq<nat>,
                        queue1: seq<Entry>, probing1: map<nat, Entry>, more: seq<nat>, prior: nat)
    requires Accounted(seen, queue, probing, active, retired)
    requires forall n :: InQueue(queue, n) ==> InQueue(queue1, n) || (n < prior && n in more)
    requires forall n :: InProbing(probing, n) ==> InProbing(probing1, n) || (n < prior && n in more)
    ensures Accounted(seen, queue1, probing1, active, retired + more)
  {
  }

  lemma RotatedHolds(queue: seq<Entry>, probing: map<nat, Entry>, active: nat)
    requires |queue| > 0 && ValidQueue(queue, active, 0)
    ensures forall n :: Holds(queue[1..], probing, queue[0].number, n) <==>
            Holds(queue, probing, active, n) && (n != active || InProbing(probing, n))
    ensures forall n :: InQueue(queue[1..], n) ==> InQueue(queue, n)
  {
    forall n ensures InQueue(queue, n) <==> n == queue[0].number || InQueue(queue[1..], n) {
      if InQueue(queue, n) {
        var i :| 0 <= i < |queue| && queue[i].number == n;
        assert i > 0 ==> queue[1..][i - 1].number == n;
      }
    }
  }

  lemma RotatedCore(seen: set<Entry>, queue: seq<Entry>, probing: map<nat, Entry>, active: nat, highestRetired: nat,
                    highestProbing: nat, retired: seq<nat>)
    requires |queue| > 0 && ValidQueue(queue, active, Max(highestRetired, highestProbing))
    requires Accounted(seen, queue, probing, active, retired) && AllSeen(seen, queue)
    ensures ValidQueue(queue[1..], queue[0].number, Max(Max(highestRetired, active), highestProbing))
    ensures Accounted(seen, queue[1..], probing, queue[0].number, retired + [active])
    ensures AllSeen(seen, queue[1..]) && queue[0] in seen
    ensures Disjoint(queue, probing, active) ==> Disjoint(queue[1..], probing, queue[0].number)
  {
    RotatedHolds(queue, probing, active);
    RotatedQueue(queue, active, highestRetired, highestProbing);
    assert forall i :: 0 <= i < |queue| - 1 ==> queue[1..][i] == queue[i + 1];
  }

  lemma InsertedDisjoint(queue: seq<Entry>, queue1: seq<Entry>, probing: map<nat, Entry>, active: nat, number: nat)
    requires forall n :: InQueue(queue1, n) <==> InQueue(queue, n) || n == number
    ensures Disjoint(queue, probing, active) ==> (Disjoint(queue1, probing, active) <==> !InProbing(probing, number))
  {
    assert InQueue(queue1, number);
  }

  /** A number that serves twice still does after a rotation. */
  lemma RotatedTwice(queue: seq<Entry>, probing: map<nat, Entry>, active: nat, number: nat)
    requires |queue| > 0 && InQueue(queue, number)
    ensures InProbing(probing, number) ==> !Disjoint(queue[1..], probing, queue[0].number)
  {
    var i :| 0 <= i < |queue| && queue[i].number == number;
    assert i > 0 ==> queue[1..][i - 1].number == number;
    assert i > 0 ==> InQueue(queue[1..], number);
  }

  lemma RotatedQueue(queue: seq<Entry>, active: nat, highestRetired: nat, highestProbing: nat)
    requires |queue| > 0 && ValidQueue(queue, active, Max(highestRetired, highestProbing))
    ensures ValidQueue(queue[1..], queue[0].number, Max(Max(highestRetired, active), highestProbing))
  {
    assert forall i :: 0 <= i < |queue| - 1 ==> queue[1..][i] == queue[i + 1];
  }
}
