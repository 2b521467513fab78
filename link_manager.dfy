/**
 * The bookkeeping of the component that owns the radio link: packet-id
 * generation, dispatch of outgoing messages, the table of packets waiting
 * for an acknowledgement, and the resolution of their results when a routing
 * response arrives. Sending is modelled as appending to `sent`; a result
 * handle (`CompletableFuture<Unit>`) is an index into `futures`.
 */
module LinkManager {
  import opened Wrappers
  import opened Mesh
  import CommonUtils

  // ---------------------------------------------------------------- packet ids

  /** `0xFFFFFFFF`, the modulus of the id generator. */
  const IdModulus: nat := 0xFFFF_FFFF

  /** A `Long` counter read as its unsigned 64-bit pattern. */
  const CounterRange: nat := 0x1_0000_0000_0000_0000

  /** The id made from a counter value: its remainder modulo `0xFFFFFFFF`, plus one. */
  function PacketIdOf(counter: nat): (id: UInt32)
    ensures 1 <= id <= 0xFFFF_FFFF
    ensures id == counter % IdModulus + 1
  {
    counter % IdModulus + 1
  }

  /** `getAndIncrement` on the `Long` counter, wrapping from `-1` to `0`. */
  function NextCounterAsWritten(counter: nat): nat {
    (counter + 1) % CounterRange
  }

  /**
   * As written, the 64-bit counter has `2^64 = 0xFFFFFFFF * (2^32 + 1) + 1`
   * values, so where it wraps from `-1` to `0` the id 1 is handed out twice in a row.
   */
  lemma AsWrittenRepeatsAtWrap()
    ensures PacketIdOf(CounterRange - 1) == 1
    ensures PacketIdOf(NextCounterAsWritten(CounterRange - 1)) == 1
  {
  }

  /** The generator with the counter kept below the modulus, so the id sequence has no seam. */
  function NextCounter(counter: nat): (r: nat)
    requires counter < IdModulus
    ensures r < IdModulus
  {
    (counter + 1) % IdModulus
  }

  /**
   * With the corrected counter, the next id is the previous one plus one,
   * except that `0xFFFFFFFF` is followed by 1; so consecutive ids always differ.
   */
  lemma ConsecutiveIds(counter: nat)
    requires counter < IdModulus
    ensures PacketIdOf(counter) < 0xFFFF_FFFF ==> PacketIdOf(NextCounter(counter)) == PacketIdOf(counter) + 1
    ensures PacketIdOf(counter) == 0xFFFF_FFFF ==> PacketIdOf(NextCounter(counter)) == 1
    ensures PacketIdOf(NextCounter(counter)) != PacketIdOf(counter)
  {
  }

  /** Away from the wrap, the as-written generator agrees with the corrected one. */
  lemma AsWrittenAgreesBelowWrap(counter: nat)
    requires counter < CounterRange - 1
    ensures PacketIdOf(NextCounterAsWritten(counter)) == PacketIdOf(NextCounter(counter % IdModulus))
  {
  }

  // ---------------------------------------------------------------- results

  /** A `CompletableFuture<Unit>`: it is resolved at most once. */
  datatype FutureState = Unresolved | Resolved | ResolvedWith(failure: Failure)

  datatype Failure = PacketIdCollision | DeliveryFailed(errorReason: nat)

  /** `complete`/`completeExceptionally`: only an unresolved future takes the new state. */
  function Settle(f: FutureState, outcome: FutureState): (r: FutureState)
    ensures f.Unresolved? ==> r == outcome
    ensures !f.Unresolved? ==> r == f
  {
    if f.Unresolved? then outcome else f
  }

  /** A packet waiting for its acknowledgement: its destination and its result handle. */
  datatype PendingAck = PendingAck(to: UInt32, future: nat)

  /**
   * How a routing response settles the future of the packet it acknowledges:
   * an error fails it, then a broadcast packet is completed, and a private
   * packet is completed only when the responder is its destination.
   */
  function AckResolution(f: FutureState, errorReason: nat, to: UInt32, responder: UInt32): (r: FutureState) {
    var afterError := if errorReason != 0 then Settle(f, ResolvedWith(DeliveryFailed(errorReason))) else f;
    if CommonUtils.IsBroadcastNum(to) then Settle(afterError, Resolved)
    else if responder == to then Settle(afterError, Resolved)
    else afterError
  }

  /** The outcome of an acknowledgement, read from the outside. */
  lemma AckResolutionCases(f: FutureState, errorReason: nat, to: UInt32, responder: UInt32)
    requires f.Unresolved?
    ensures errorReason != 0 ==> AckResolution(f, errorReason, to, responder) == ResolvedWith(DeliveryFailed(errorReason))
    ensures errorReason == 0 && to == BroadcastNum ==> AckResolution(f, errorReason, to, responder) == Resolved
    ensures errorReason == 0 && to != BroadcastNum && responder == to ==> AckResolution(f, errorReason, to, responder) == Resolved
    ensures errorReason == 0 && to != BroadcastNum && responder != to ==> AckResolution(f, errorReason, to, responder) == Unresolved
  {
    CommonUtils.IsBroadcastNumIff(to);
  }

  /** A future already resolved is not changed by a later acknowledgement. */
  lemma AckResolutionOnce(f: FutureState, errorReason: nat, to: UInt32, responder: UInt32)
    requires !f.Unresolved?
    ensures AckResolution(f, errorReason, to, responder) == f
  {
  }

  datatype SendError = NotConnected

  /** The packet `sendDataMeshPacket` builds: the packet's own fields with the chosen id. */
  function WithId(packet: MeshPacket, id: UInt32): (r: MeshPacket)
    ensures r.id == id && r.(id := packet.id) == packet
  {
    packet.(id := id)
  }

  /** The routing acknowledgement a message carries, if it is one: a decoded packet on the routing port. */
  predicate IsRoutingPacket(message: FromRadio) {
    message.FromPacket? && message.packet.payload.Decoded? && message.packet.payload.data.portnum == RoutingApp
  }

  class Link {
    /** The id counter, kept below `0xFFFFFFFF`. */
    var counter: nat
    /** Whether a reader/writer pair is installed. */
    var connected: bool
    /** Messages handed to the writer, in order. */
    var sent: seq<ToRadio>
    /** `pendingAckPackets`: packet id to destination and result. */
    var pending: map<UInt32, PendingAck>
    var futures: seq<FutureState>
    /** The acknowledgement collector stops for good when a routing payload does not parse. */
    var acking: bool
    const parseRouting: Bytes -> Option<Routing>

    predicate Valid()
      reads this
    {
      counter < IdModulus &&
      forall id :: id in pending ==> pending[id].future < |futures|
    }

    /**
     * `init`: the collector starts, then `connect` installs a link whose first
     * message asks for the configuration under `configId` (a random number in
     * the program, a parameter here).
     */
    constructor(seed: nat, configId: UInt32, parseRouting: Bytes -> Option<Routing>)
      ensures Valid() && counter == seed % IdModulus && connected
      ensures sent == [WantConfigId(configId)] && pending == map[] && futures == [] && acking
      ensures this.parseRouting == parseRouting
    {
      counter := seed % IdModulus;
      connected := true;
      sent := [WantConfigId(configId)];
      pending := map[];
      futures := [];
      acking := true;
      this.parseRouting := parseRouting;
    }

    /** `generatePacketId`: the id made from the counter, which then advances. */
    method GeneratePacketId() returns (id: UInt32)
      requires Valid()
      modifies this`counter
      ensures Valid()
      ensures id == PacketIdOf(old(counter)) && counter == NextCounter(old(counter))
      ensures 1 <= id <= 0xFFFF_FFFF
    {
      id := PacketIdOf(counter);
      counter := NextCounter(counter);
    }

    /** `connect`: a fresh link is installed and asks the radio for its configuration first. */
    method Connect(configId: UInt32)
      modifies this`connected, this`sent
      ensures connected && sent == old(sent) + [WantConfigId(configId)]
    {
      connected := true;
      var r := EnsureSend(WantConfigId(configId));
    }

    /** `disconnect`: tell the radio, when a link is installed, and drop the link. */
    method Disconnect()
      modifies this`connected, this`sent
      ensures !connected
      ensures sent == old(sent) + (if old(connected) then [ToDisconnect] else [])
    {
      if connected {
        sent := sent + [ToDisconnect];
      }
      connected := false;
    }

    /** `ensureSendMessage`: hand the message to the writer, or fail when no link is installed. */
    method EnsureSend(message: ToRadio) returns (r: Result<(), SendError>)
      modifies this`sent
      ensures connected ==> r.Ok? && sent == old(sent) + [message]
      ensures !connected ==> r == Err(NotConnected) && sent == old(sent)
    {
      if !connected {
        return Err(NotConnected);
      }
      sent := sent + [message];
      r := Ok(());
    }

    /** A fresh future in the given state. */
    method NewFuture(state: FutureState) returns (handle: nat)
      requires Valid()
      modifies this`futures
      ensures Valid()
      ensures handle == |old(futures)| && futures == old(futures) + [state]
    {
      handle := |futures|;
      futures := futures + [state];
    }

    /**
     * `sendDataMeshPacket`: the packet is registered under its id before it
     * is sent, and the registered future is returned. An id that is already
     * pending gives a failed future, sends nothing and keeps the existing entry.
     */
    method SendDataMeshPacket(packet: MeshPacket) returns (r: Result<nat, SendError>)
      requires Valid()
      modifies this`pending, this`futures, this`sent
      ensures Valid()
      ensures packet.id in old(pending) ==>
        r == Ok(|old(futures)|) && futures == old(futures) + [ResolvedWith(PacketIdCollision)] &&
        pending == old(pending) && sent == old(sent)
      ensures packet.id !in old(pending) ==>
        futures == old(futures) + [Unresolved] &&
        pending == old(pending)[packet.id := PendingAck(packet.to, |old(futures)|)] &&
        (connected ==> r == Ok(|old(futures)|) && sent == old(sent) + [ToPacket(packet)]) &&
        (!connected ==> r == Err(NotConnected) && sent == old(sent))
    {
      if packet.id in pending {
        var failed := NewFuture(ResolvedWith(PacketIdCollision));
        return Ok(failed);
      }
      var future := NewFuture(Unresolved);
      pending := pending[packet.id := PendingAck(packet.to, future)];
      var s := EnsureSend(ToPacket(packet));
      if s.Err? {
        return Err(s.error);
      }
      r := Ok(future);
    }

    /**
     * `sendMeshPacket`: a decoded packet keeps a nonzero id or gets a fresh
     * one and waits for its acknowledgement; any other packet is sent as it
     * is with an already completed future.
     */
    method SendMeshPacket(packet: MeshPacket) returns (r: Result<nat, SendError>)
      requires Valid()
      modifies this`pending, this`futures, this`sent, this`counter
      ensures Valid()
      ensures MeshPacketSent(packet, r)
    {
      if packet.payload.Decoded? {
        var id := packet.id;
        if id == 0 {
          id := GeneratePacketId();
        }
        r := SendDataMeshPacket(WithId(packet, id));
      } else {
        var s := EnsureSend(ToPacket(packet));
        if s.Err? {
          return Err(s.error);
        }
        var done := NewFuture(Resolved);
        r := Ok(done);
      }
    }

    /**
     * The effect of `sendMeshPacket` on the link: a decoded packet keeps a
     * nonzero id or takes the counter's, and is registered and sent as
     * `SendDataMeshPacket` does; any other packet is sent as it is with an
     * already completed future; nothing is sent without a link.
     */
    twostate predicate MeshPacketSent(packet: MeshPacket, new r: Result<nat, SendError>)
      requires old(Valid())
      reads this
    {
      (packet.payload.Decoded? && packet.id != 0 ==> counter == old(counter)) &&
      (packet.payload.Decoded? && packet.id == 0 ==> counter == NextCounter(old(counter))) &&
      (packet.payload.Decoded? ==>
        var id := if packet.id != 0 then packet.id else PacketIdOf(old(counter));
        (id in old(pending) ==>
          r == Ok(|old(futures)|) && futures == old(futures) + [ResolvedWith(PacketIdCollision)] &&
          pending == old(pending) && sent == old(sent)) &&
        (id !in old(pending) ==>
          pending == old(pending)[id := PendingAck(packet.to, |old(futures)|)] && futures == old(futures) + [Unresolved] &&
          (connected ==> r == Ok(|old(futures)|) && sent == old(sent) + [ToPacket(WithId(packet, id))]) &&
          (!connected ==> r == Err(NotConnected) && sent == old(sent)))) &&
      (!packet.payload.Decoded? ==>
        pending == old(pending) && counter == old(counter) &&
        (connected ==>
          r == Ok(|old(futures)|) && sent == old(sent) + [ToPacket(packet)] && futures == old(futures) + [Resolved]) &&
        (!connected ==> r == Err(NotConnected) && sent == old(sent) && futures == old(futures)))
    }

    /** `sendMessage`: packets go through `sendMeshPacket`; anything else is sent with a completed future. */
    method SendMessage(message: ToRadio) returns (r: Result<nat, SendError>)
      requires Valid()
      modifies this`pending, this`futures, this`sent, this`counter
      ensures Valid()
      ensures !message.ToPacket? ==>
        pending == old(pending) && counter == old(counter) &&
        (connected ==> r == Ok(|old(futures)|) && sent == old(sent) + [message] && futures == old(futures) + [Resolved]) &&
        (!connected ==> r == Err(NotConnected) && sent == old(sent) && futures == old(futures))
      ensures message.ToPacket? ==> MeshPacketSent(message.packet, r)
    {
      if message.ToPacket? {
        r := SendMeshPacket(message.packet);
      } else {
        var s := EnsureSend(message);
        if s.Err? {
          return Err(s.error);
        }
        var done := NewFuture(Resolved);
        r := Ok(done);
      }
    }

    /**
     * `processMessageForAck`: a decoded routing packet removes the entry of
     * the packet it acknowledges, whatever the outcome, and settles that
     * entry's future by `AckResolution`. Anything else, or an unknown id,
     * changes nothing; a routing payload that does not parse ends the collector.
     */
    method ProcessMessageForAck(message: FromRadio)
      requires Valid()
      modifies this`pending, this`futures, this`acking
      ensures Valid()
      ensures !old(acking) || !IsRoutingPacket(message) ==>
        pending == old(pending) && futures == old(futures) && acking == old(acking)
      ensures old(acking) && IsRoutingPacket(message) ==>
        var data := message.packet.payload.data;
        var routing := parseRouting(data.payload);
        (routing.None? ==> !acking && pending == old(pending) && futures == old(futures)) &&
        (routing.Some? && data.requestId !in old(pending) ==>
          acking && pending == old(pending) && futures == old(futures)) &&
        (routing.Some? && data.requestId in old(pending) ==>
          var entry := old(pending)[data.requestId];
          acking && pending == old(pending) - {data.requestId} &&
          futures == old(futures)[entry.future :=
            AckResolution(old(futures)[entry.future], routing.value.errorReason, entry.to, message.packet.from)])
    {
      if !acking || !IsRoutingPacket(message) {
        return;
      }
      var data := message.packet.payload.data;
      var routing := parseRouting(data.payload);
      if routing.None? {
        acking := false;
        return;
      }
      var ackId := data.requestId;
      if ackId !in pending {
        return;
      }
      var entry := pending[ackId];
      pending := pending - {ackId};
      var f := futures[entry.future];
      if routing.value.errorReason != 0 {
        f := Settle(f, ResolvedWith(DeliveryFailed(routing.value.errorReason)));
      }
      if CommonUtils.IsBroadcastNum(entry.to) {
        f := Settle(f, Resolved);
      } else if message.packet.from == entry.to {
        f := Settle(f, Resolved);
      }
      futures := futures[entry.future := f];
    }
  }
}
