/**
 * The helpers the client's bot components use to talk to the forwarder
 * server: choosing a packet id, building text packets (broadcast, private,
 * reply) and looking up a config section. The server's HTTP answers (a
 * generated id, whether the send was accepted, the config map) are
 * parameters.
 */
module ClientComponent {
  import opened Wrappers
  import opened Mesh
  import Utf8
  import CommonUtils
  import MeshPacketUtils
  import PacketSender
  import ConfigStore

  /**
   * The id `sendMeshPacket` sends: 0 without an acknowledgement, else the
   * packet's own id, or a generated one when that is 0.
   */
  function PacketIdFor(packet: MeshPacket, generatedId: UInt32): (id: UInt32) {
    if packet.wantAck then (if packet.id == 0 then generatedId else packet.id) else 0
  }

  /** What `sendMeshPacket` puts on the wire, and what it returns. */
  datatype SendResult = SendResult(sent: MeshPacket, result: Result<UInt32, string>)

  /**
   * `sendMeshPacket`: the packet goes out with the chosen id; `accepted` is
   * whether the server's send call succeeded, in which case the id is
   * returned.
   */
  function SendMeshPacket(packet: MeshPacket, generatedId: UInt32, accepted: bool): (r: SendResult)
    ensures r.sent == packet.(id := PacketIdFor(packet, generatedId))
    ensures r.result.Ok? <==> accepted
    ensures accepted ==> r.result.value == r.sent.id
  {
    var id := PacketIdFor(packet, generatedId);
    SendResult(packet.(id := id), if accepted then Ok(id) else Err("send failed"))
  }

  /** The id rule, case by case, and that the sent packet differs from the input in `id` alone. */
  lemma SendIdRule(packet: MeshPacket, generatedId: UInt32, accepted: bool)
    ensures var r := SendMeshPacket(packet, generatedId, accepted);
      (!packet.wantAck ==> r.sent.id == 0) &&
      (packet.wantAck && packet.id == 0 ==> r.sent.id == generatedId) &&
      (packet.wantAck && packet.id != 0 ==> r.sent.id == packet.id) &&
      r.sent.(id := packet.id) == packet
  {
  }

  /**
   * The server stamps the client's id unchanged when it is nonzero. An
   * unacknowledged broadcast, sent by the client with id 0, is the one case
   * where the server generates an id after all.
   */
  lemma ServerKeepsClientId(packet: MeshPacket, clientGenerated: UInt32, serverGenerated: UInt32,
                            myNodeNum: UInt32, nodes: map<UInt32, NodeInfo>, configs: map<int, Config>,
                            autoEncrypt: bool, autoLoraHop: bool)
    ensures var sent := SendMeshPacket(packet, clientGenerated, true).sent;
      var stamped := PacketSender.Stamp(sent, myNodeNum, serverGenerated, nodes, configs, autoEncrypt, autoLoraHop);
      (sent.id != 0 ==> stamped.id == sent.id) &&
      (!packet.wantAck && CommonUtils.IsBroadcastNum(packet.to) ==> stamped.id == serverGenerated) &&
      (!packet.wantAck && !CommonUtils.IsBroadcastNum(packet.to) ==> stamped.id == 0)
  {
    var sent := SendMeshPacket(packet, clientGenerated, true).sent;
    PacketSender.IdRule(sent, myNodeNum, serverGenerated, nodes, configs, autoEncrypt, autoLoraHop);
  }

  /** The decoded payload of a text message: UTF-8 text on the text port, answering `replyId` (0 for none). */
  function TextData(text: string, replyId: UInt32): Data {
    DefaultData.(portnum := TextMessageApp, payload := Utf8.Encode(text), replyId := replyId)
  }

  /** `sendBroadcastTextMessage`'s packet: to everyone on `channelIndex`, acknowledged. */
  function BroadcastText(message: string, channelIndex: UInt32, id: UInt32): (p: MeshPacket)
    ensures MeshPacketUtils.IsBroadcast(p) && MeshPacketUtils.IsTextMessage(p)
    ensures p.channel == channelIndex && p.wantAck && p.id == id
    ensures p.payload.data.payload == Utf8.Encode(message) && p.payload.data.replyId == 0
  {
    DefaultPacket.(id := id, to := BroadcastNum, channel := channelIndex, wantAck := true,
                   payload := Decoded(TextData(message, 0)))
  }

  /** `sendPrivateTextMessage`'s packet: to `toNodeNum` on the default channel, acknowledged. */
  function PrivateText(message: string, toNodeNum: UInt32, id: UInt32): (p: MeshPacket)
    ensures p.to == toNodeNum && MeshPacketUtils.IsTextMessage(p)
    ensures p.channel == 0 && p.wantAck && p.id == id
    ensures p.payload.data.payload == Utf8.Encode(message) && p.payload.data.replyId == 0
  {
    DefaultPacket.(id := id, to := toNodeNum, wantAck := true, payload := Decoded(TextData(message, 0)))
  }

  /**
   * `replyTextMessage`'s packet: a reply to a broadcast is a broadcast on the
   * same channel, a reply to a private message goes back to its sender; both
   * are acknowledged text messages that name the original's id.
   */
  function Reply(packet: MeshPacket, replyMessage: string, id: UInt32): (p: MeshPacket)
    ensures MeshPacketUtils.IsTextMessage(p) && p.wantAck && p.id == id
    ensures p.payload.data.payload == Utf8.Encode(replyMessage) && p.payload.data.replyId == packet.id
    ensures MeshPacketUtils.IsBroadcast(packet) ==> MeshPacketUtils.IsBroadcast(p) && p.channel == packet.channel
    ensures !MeshPacketUtils.IsBroadcast(packet) ==> p.to == packet.from && p.channel == 0
  {
    if CommonUtils.IsBroadcastNum(packet.to) then
      DefaultPacket.(id := id, to := BroadcastNum, channel := packet.channel, wantAck := true,
                     payload := Decoded(TextData(replyMessage, packet.id)))
    else
      DefaultPacket.(id := id, to := packet.from, wantAck := true,
                     payload := Decoded(TextData(replyMessage, packet.id)))
  }

  /**
   * A private conversation stays between two nodes: a reply from `other`,
   * once the server has stamped it, is answered by a reply addressed back to
   * `other`, on the default channel.
   */
  lemma ReplyToStampedReply(packet: MeshPacket, text1: string, text2: string, id1: UInt32, id2: UInt32,
                            other: UInt32, generatedId: UInt32, nodes: map<UInt32, NodeInfo>,
                            configs: map<int, Config>, autoEncrypt: bool, autoLoraHop: bool)
    requires !CommonUtils.IsBroadcastNum(packet.to) && !CommonUtils.IsBroadcastNum(packet.from)
    ensures var answer := PacketSender.Stamp(Reply(packet, text1, id1), other, generatedId, nodes, configs, autoEncrypt, autoLoraHop);
      var back := Reply(answer, text2, id2);
      answer.to == packet.from && back.to == other && back.channel == 0 && back.payload.data.replyId == answer.id
  {
    var answer := PacketSender.Stamp(Reply(packet, text1, id1), other, generatedId, nodes, configs, autoEncrypt, autoLoraHop);
    assert !MeshPacketUtils.IsBroadcast(answer);
  }

  /**
   * `getConfig`: the config stored under a section number, or an error when
   * the server has none.
   */
  function GetConfig(configs: map<int, Config>, variantCase: int): (r: Result<Config, string>)
    ensures r.Err? <==> variantCase !in configs
    ensures r.Ok? ==> r.value == configs[variantCase]
  {
    if variantCase in configs then Ok(configs[variantCase]) else Err("Config variant not found")
  }

  /** Once the server has stored a section, the client finds it under that section's number. */
  lemma StoredConfigIsFound(configs: map<int, Config>, config: Config)
    ensures GetConfig(ConfigStore.Put(configs, config), ConfigCase(config)) == Ok(config)
  {
  }
}
