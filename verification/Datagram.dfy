/** The sizes of a coalesced datagram that may begin with an Initial packet (u_packet_packer.go,
    with the lengths of packet_packer.go). */
module DatagramPacking {
  import opened InitialStaging
  import opened Protocol

  /** No packet is added to less than that. */
  const MIN_COALESCED_PACKET_SIZE := 128

  /** What can be packed with the keys of one level: fill gives the length of the payload for a budget,
      0 if there is none. */
  datatype Level = Level(hdrLen: nat, pnLen: nat, overhead: nat, fill: int -> nat) {
    /** A payload fits its budget, and the smallest packet fits where one is tried. */
    ghost predicate Valid() {
      && hdrLen + 4 + overhead <= MIN_COALESCED_PACKET_SIZE
      && forall b :: fill(b) > 0 ==> hdrLen + fill(b) <= b
    }

    /** The length of a packet with n bytes of payload, which needs four bytes with the packet number. */
    function PacketLength(n: nat): nat {
      hdrLen + n + (if n + pnLen < 4 then 4 - pnLen - n else 0) + overhead
    }
  }

  datatype Keys = Keys(initial: bool, handshake: Option<Level>, oneRtt: Option<Level>, zeroRtt: Option<Level>,
                       isClient: bool)

  ghost predicate ValidKeys(k: Keys) {
    && (k.handshake.Some? ==> k.handshake.value.Valid())
    && (k.oneRtt.Some? ==> k.oneRtt.value.Valid())
    && (k.zeroRtt.Some? ==> k.zeroRtt.value.Valid())
  }

  /** The length of each packet of a datagram, and the zero bytes after the last one. */
  datatype Datagram = Datagram(initial: nat, handshake: nat, zeroRtt: nat, oneRtt: nat, trailing: nat) {
    function Total(): nat {
      initial + handshake + zeroRtt + oneRtt + trailing
    }
  }

  datatype PackResult = PackFailed | NothingToPack | Packed(frames: seq<Frame>, laidOut: bool, datagram: Datagram)

  /** The length of a packet of the level, if there is room for one. */
  method Coalesce(size: nat, maxSize: nat, onlyAck: bool, level: Option<Level>) returns (added: nat)
    requires size <= maxSize && MIN_COALESCED_PACKET_SIZE <= maxSize && (level.Some? ==> level.value.Valid())
    ensures size + added <= maxSize && (onlyAck && size > 0 ==> added == 0)
  {
    added := 0;
    if level.Some? && ((onlyAck && size == 0) || (!onlyAck && size < maxSize - MIN_COALESCED_PACKET_SIZE)) {
      var n := level.value.fill(maxSize - size - level.value.overhead);
      if n > 0 {
        added := level.value.PacketLength(n);
      }
    }
  }

  /** Handshake and 0-RTT or 1-RTT packets after an Initial packet of the given size. */
  method CoalesceRest(size: nat, p: Plan, k: Keys) returns (d: Datagram)
    requires size <= p.maxSize && MIN_COALESCED_PACKET_SIZE <= p.maxSize && ValidKeys(k)
    ensures d.initial == size && d.trailing == 0 && d.Total() <= p.maxSize && (d.oneRtt == 0 || d.zeroRtt == 0)
    ensures p.onlyAck && size > 0 ==> d.Total() == size
  {
    var handshake := Coalesce(size, p.maxSize, p.onlyAck, k.handshake);
    var oneRtt, zeroRtt := 0, 0;
    if k.oneRtt.Some? {
      oneRtt := Coalesce(size + handshake, p.maxSize, p.onlyAck, k.oneRtt);
    } else if k.isClient && !p.onlyAck {
      zeroRtt := Coalesce(size + handshake, p.maxSize, p.onlyAck, k.zeroRtt);
    }
    d := Datagram(size, handshake, zeroRtt, oneRtt, 0);
  }

  /** A laid-out Initial packet fixes the smallest size of the datagram: a 1-RTT packet, which has no
      length of its own, takes the padding inside, otherwise it follows the packets. */
  function PadLaidOut(d: Datagram, minDatagram: int): (r: Datagram)
    requires d.trailing == 0 && (d.oneRtt == 0 || d.zeroRtt == 0)
    ensures r.Total() == Max(d.Total(), minDatagram) && (r.oneRtt > 0 ==> r.trailing == 0)
    ensures r.initial == d.initial && r.handshake == d.handshake && r.zeroRtt == d.zeroRtt && d.oneRtt <= r.oneRtt
  {
    var padding := Max(0, minDatagram - d.Total());
    if d.zeroRtt == 0 && d.oneRtt > 0 then d.(oneRtt := d.oneRtt + padding) else d.(trailing := padding)
  }

  /** An Initial packet without a layout is padded to the budget by a client. */
  function PadPlain(d: Datagram, maxSize: nat, isClient: bool): (r: Datagram)
    requires d.Total() <= maxSize
    ensures r.Total() == if d.initial > 0 && isClient then maxSize else d.Total()
  {
    if d.initial > 0 && isClient then d.(initial := d.initial + (maxSize - d.Total())) else d
  }

  /** Packs a datagram. An error leaves the handshake data as it was; otherwise every CRYPTO byte is
      still held or is in the packet. A datagram fits the budget; with a laid-out Initial packet it
      has at least the configured size, and with any other one from a client it fills the budget.
      Handshake data always gets a packet unless MayFail. */
  method PackCoalesced(packer: InitialPacker, p: Plan, k: Keys) returns (r: PackResult)
    requires packer.Valid() && MIN_COALESCED_PACKET_SIZE <= p.maxSize <= MAX_PACKET_SIZE && ValidKeys(k) && p.hdrLen > 0
    requires p.ack.Some? ==> |p.ack.value| >= 4
    modifies packer
    ensures packer.Valid()
    ensures r.PackFailed? ==> packer.stream == old(packer.stream) && packer.queue == old(packer.queue)
    ensures !r.PackFailed? ==>
              Conserved(old(packer.stream), old(packer.queue), packer.stream, packer.queue,
                        if r.Packed? then r.frames else [])
    ensures r.Packed? ==> 0 < r.datagram.Total() <= p.maxSize
    ensures r.Packed? && r.laidOut ==>
              p.minDatagram <= r.datagram.Total() && (r.datagram.oneRtt > 0 ==> r.datagram.trailing == 0)
    ensures r.Packed? && !r.laidOut && r.datagram.initial > 0 && k.isClient ==> r.datagram.Total() == p.maxSize
    ensures r.Packed? ==> (r.laidOut <==> r.frames != [])
    ensures r.PackFailed? ==> k.initial && MayFail(p, old(packer.queue))
    ensures k.initial && !p.onlyAck && old(packer.HasData()) && !MayFail(p, old(packer.queue)) ==>
              r.Packed? && r.laidOut
  {
    var ok, frames, laidOut, size := PackInitial(packer, p, k.initial);
    if !ok {
      return PackFailed;
    }
    var d := CoalesceRest(size, p, k);
    if d.Total() == 0 {
      return NothingToPack;
    }
    r := Packed(frames, laidOut, if laidOut then PadLaidOut(d, p.minDatagram) else PadPlain(d, p.maxSize, k.isClient));
  }

  /** The Initial packet, if there are keys for one. */
  method PackInitial(packer: InitialPacker, p: Plan, keys: bool)
    returns (ok: bool, frames: seq<Frame>, laidOut: bool, size: nat)
    requires packer.Valid() && 0 <= p.maxSize <= MAX_PACKET_SIZE && p.hdrLen > 0
    requires p.ack.Some? ==> |p.ack.value| >= 4
    modifies packer
    ensures packer.Valid() && size <= p.maxSize && (laidOut <==> frames != [])
    ensures !ok ==> packer.stream == old(packer.stream) && packer.queue == old(packer.queue)
    ensures ok ==> Conserved(old(packer.stream), old(packer.queue), packer.stream, packer.queue, frames)
    ensures laidOut ==> size > 0 && p.minDatagram <= p.maxSize
    ensures !ok ==> keys && MayFail(p, old(packer.queue))
    ensures keys && !p.onlyAck && old(packer.HasData()) && !MayFail(p, old(packer.queue)) ==> laidOut
  {
    ok, frames, laidOut, size := true, [], false, 0;
    if !keys {
      NothingTaken(packer.stream, packer.queue);
      return;
    }
    var prepared, layout, base, sent := packer.Prepare(p);
    if prepared.Failed? {
      return false, frames, laidOut, size;
    }
    frames, laidOut := prepared.frames, prepared.data.Some?;
    size := InitialSize(p, prepared);
  }

  lemma NothingTaken(s: Stream, q: Queue)
    ensures Conserved(s, q, s, q, [])
  {
    assert [] + q.initial == q.initial;
  }

  /** The size of the Initial packet. */
  function InitialSize(p: Plan, r: Prepared): (size: nat)
    requires r.Prepared? && (r.data.Some? ==> p.hdrLen + |r.data.value| + p.overhead <= p.maxSize)
    requires r.data.None? && r.length > 0 ==> r.length <= p.Available() && r.length + p.pnLen >= 4
    ensures size <= Max(p.maxSize, 0) && (p.hdrLen > 0 ==> (size > 0 <==> r.data.Some? || r.length > 0))
  {
    if r.data.Some? then p.hdrLen + |r.data.value| + p.overhead
    else if r.length > 0 then p.hdrLen + r.length + p.overhead
    else 0
  }
}
