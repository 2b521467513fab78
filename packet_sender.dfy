/**
 * `MeshPacketSender.sendPacket` of the server: before a packet is handed to
 * the link manager it is stamped with the own node number, a packet id when
 * one is needed, the PKI flag, the destination's public key and a default hop
 * limit. The own node number, the node database, the config map and the id
 * generator's next value are inputs.
 */
module PacketSender {
  import opened Mesh
  import CommonUtils
  import MeshPacketUtils
  import LinkManager

  /** Default hop limit when no LoRa config has been received. */
  const DefaultHopLimit: UInt32 := 3

  /** A packet with no acknowledgement and a single destination needs no id. */
  predicate NeedsNoId(p: MeshPacket) {
    !p.wantAck && !CommonUtils.IsBroadcastNum(p.to)
  }

  /** The id generator is consulted only for a packet that needs an id and has none. */
  predicate UsesGenerator(p: MeshPacket) {
    !NeedsNoId(p) && p.id == 0
  }

  /** Whether the node database supplies a key: encryption asked for, a private destination, not yet PKI after the key check. */
  predicate AutoEncrypts(p: MeshPacket, nodes: map<UInt32, NodeInfo>, autoEncrypt: bool) {
    autoEncrypt && !CommonUtils.IsBroadcastNum(p.to) && !(p.pkiEncrypted || |p.publicKey| > 0) && p.to in nodes
  }

  /** The hop limit a zero hop limit is replaced with: the LoRa config's, or 3. */
  function DeviceHopLimit(configs: map<int, Config>): (h: UInt32)
    ensures LoraCase !in configs ==> h == DefaultHopLimit
    ensures LoraCase in configs && configs[LoraCase].LoraSection? ==> h == configs[LoraCase].lora.hopLimit
  {
    match CommonUtils.GetLoraConfig(configs)
    case Some(lora) => lora.hopLimit
    case None => DefaultHopLimit
  }

  /** `sendPacket`'s builder chain: the four `apply` blocks in order, after `from` is forced. */
  function Stamp(p: MeshPacket, myNodeNum: UInt32, generatedId: UInt32,
                 nodes: map<UInt32, NodeInfo>, configs: map<int, Config>,
                 autoEncrypt: bool, autoLoraHop: bool): (r: MeshPacket)
    ensures r.from == myNodeNum
    ensures r.to == p.to && r.payload == p.payload && r.wantAck == p.wantAck && r.priority == p.priority
  {
    var withFrom := p.(from := myNodeNum);
    var withId :=
      if !withFrom.wantAck && !CommonUtils.IsBroadcastNum(withFrom.to) then withFrom.(id := 0)
      else if withFrom.id == 0 then withFrom.(id := generatedId)
      else withFrom;
    var withPki :=
      if |withId.publicKey| > 0 then withId.(pkiEncrypted := true, channel := 0) else withId;
    var withKey :=
      if autoEncrypt && !CommonUtils.IsBroadcastNum(withPki.to) && !withPki.pkiEncrypted && withPki.to in nodes
      then withPki.(pkiEncrypted := true, publicKey := nodes[withPki.to].user.publicKey)
      else withPki;
    if autoLoraHop && withKey.hopLimit == 0 then withKey.(hopLimit := DeviceHopLimit(configs)) else withKey
  }

  /** The id rule: zero for an unacknowledged private packet, else the packet's own nonzero id, else the generated one. */
  lemma IdRule(p: MeshPacket, myNodeNum: UInt32, generatedId: UInt32,
               nodes: map<UInt32, NodeInfo>, configs: map<int, Config>, autoEncrypt: bool, autoLoraHop: bool)
    ensures var r := Stamp(p, myNodeNum, generatedId, nodes, configs, autoEncrypt, autoLoraHop);
      (NeedsNoId(p) ==> r.id == 0) &&
      (!NeedsNoId(p) && p.id != 0 ==> r.id == p.id) &&
      (UsesGenerator(p) ==> r.id == generatedId)
  {
  }

  /**
   * With ids from the link manager's generator, which are never zero, a
   * stamped packet has id zero exactly when it needs none.
   */
  lemma IdZeroIff(p: MeshPacket, myNodeNum: UInt32, counter: nat,
                  nodes: map<UInt32, NodeInfo>, configs: map<int, Config>, autoEncrypt: bool, autoLoraHop: bool)
    ensures var r := Stamp(p, myNodeNum, LinkManager.PacketIdOf(counter), nodes, configs, autoEncrypt, autoLoraHop);
      r.id == 0 <==> NeedsNoId(p)
  {
    IdRule(p, myNodeNum, LinkManager.PacketIdOf(counter), nodes, configs, autoEncrypt, autoLoraHop);
  }

  /** The generated id matters only when the generator would have been called. */
  lemma GeneratorUnused(p: MeshPacket, myNodeNum: UInt32, g1: UInt32, g2: UInt32,
                        nodes: map<UInt32, NodeInfo>, configs: map<int, Config>, autoEncrypt: bool, autoLoraHop: bool)
    requires !UsesGenerator(p)
    ensures Stamp(p, myNodeNum, g1, nodes, configs, autoEncrypt, autoLoraHop) ==
      Stamp(p, myNodeNum, g2, nodes, configs, autoEncrypt, autoLoraHop)
  {
  }

  /**
   * PKI: the result is PKI-encrypted exactly when the packet already was,
   * carried a key, or its destination is a known node and auto-encryption
   * applies; a carried key also moves the packet to channel 0.
   */
  lemma PkiRule(p: MeshPacket, myNodeNum: UInt32, generatedId: UInt32,
                nodes: map<UInt32, NodeInfo>, configs: map<int, Config>, autoEncrypt: bool, autoLoraHop: bool)
    ensures var r := Stamp(p, myNodeNum, generatedId, nodes, configs, autoEncrypt, autoLoraHop);
      (r.pkiEncrypted <==> p.pkiEncrypted || |p.publicKey| > 0 || AutoEncrypts(p, nodes, autoEncrypt)) &&
      (|p.publicKey| > 0 ==> r.channel == 0 && r.publicKey == p.publicKey) &&
      (|p.publicKey| == 0 ==> r.channel == p.channel) &&
      (AutoEncrypts(p, nodes, autoEncrypt) ==> r.publicKey == nodes[p.to].user.publicKey) &&
      (!AutoEncrypts(p, nodes, autoEncrypt) ==> r.publicKey == p.publicKey)
  {
  }

  /**
   * The copied key is not checked: a known destination whose user record
   * has no key yields a PKI-flagged packet with an empty key.
   */
  lemma AutoEncryptMayLeaveEmptyKey(p: MeshPacket, myNodeNum: UInt32, generatedId: UInt32,
                                    nodes: map<UInt32, NodeInfo>, configs: map<int, Config>, autoLoraHop: bool)
    requires AutoEncrypts(p, nodes, true) && nodes[p.to].user.publicKey == []
    ensures var r := Stamp(p, myNodeNum, generatedId, nodes, configs, true, autoLoraHop);
      r.pkiEncrypted && r.publicKey == []
  {
  }

  /** Hop limit: a zero hop limit takes the device's when asked to, anything else is kept. */
  lemma HopRule(p: MeshPacket, myNodeNum: UInt32, generatedId: UInt32,
                nodes: map<UInt32, NodeInfo>, configs: map<int, Config>, autoEncrypt: bool, autoLoraHop: bool)
    ensures var r := Stamp(p, myNodeNum, generatedId, nodes, configs, autoEncrypt, autoLoraHop);
      (autoLoraHop && p.hopLimit == 0 ==> r.hopLimit == DeviceHopLimit(configs)) &&
      (autoLoraHop && p.hopLimit == 0 && LoraCase !in configs ==> r.hopLimit == 3) &&
      (!autoLoraHop || p.hopLimit != 0 ==> r.hopLimit == p.hopLimit)
  {
  }

  /**
   * Stamping a stamped packet again with the same inputs changes nothing,
   * unless auto-encryption copied a non-empty key onto a packet off channel
   * 0: the second pass then sees a carried key and moves it to channel 0.
   */
  lemma StampAgain(p: MeshPacket, myNodeNum: UInt32, generatedId: UInt32,
                   nodes: map<UInt32, NodeInfo>, configs: map<int, Config>, autoEncrypt: bool, autoLoraHop: bool)
    requires generatedId != 0
    ensures var r := Stamp(p, myNodeNum, generatedId, nodes, configs, autoEncrypt, autoLoraHop);
      var again := Stamp(r, myNodeNum, generatedId, nodes, configs, autoEncrypt, autoLoraHop);
      (|r.publicKey| == 0 || r.channel == 0 ==> again == r) &&
      (|r.publicKey| > 0 && r.channel != 0 ==> again == r.(channel := 0))
  {
    var r := Stamp(p, myNodeNum, generatedId, nodes, configs, autoEncrypt, autoLoraHop);
    IdRule(p, myNodeNum, generatedId, nodes, configs, autoEncrypt, autoLoraHop);
    PkiRule(p, myNodeNum, generatedId, nodes, configs, autoEncrypt, autoLoraHop);
    IdRule(r, myNodeNum, generatedId, nodes, configs, autoEncrypt, autoLoraHop);
    PkiRule(r, myNodeNum, generatedId, nodes, configs, autoEncrypt, autoLoraHop);
    HopRule(p, myNodeNum, generatedId, nodes, configs, autoEncrypt, autoLoraHop);
    HopRule(r, myNodeNum, generatedId, nodes, configs, autoEncrypt, autoLoraHop);
  }
}
