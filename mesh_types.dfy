/**
 * The protobuf messages of the Meshtastic client API that the forwarder reads
 * or builds, reduced to the fields it uses. Wire encoding is not modelled:
 * where the forwarder serialises or parses a message, the model takes the
 * serialiser or parser as a parameter and treats the bytes as opaque.
 */
module Mesh {
  import opened Wrappers

  /** An unsigned byte, as Kotlin's `byte.toInt() and 0xff` reads it. */
  type Byte = x: int | 0 <= x < 0x100
  type Bytes = seq<Byte>

  /**
   * A protobuf `fixed32`/`uint32` field. Kotlin holds these in a signed `Int`;
   * the model keeps the unsigned reading of the same 32 bits, so Kotlin's `-1`
   * is `0xFFFF_FFFF` here.
   */
  type UInt32 = x: int | 0 <= x < 0x1_0000_0000

  /** The node number that addresses every node (`-1` as a Kotlin `Int`). */
  const BroadcastNum: UInt32 := 0xFFFF_FFFF

  /** The application port of a decoded payload; only the ports the forwarder tests are named. */
  datatype PortNum = TextMessageApp | RoutingApp | AdminApp | NodeinfoApp | OtherPort(number: nat)

  datatype Data = Data(
    portnum: PortNum,
    payload: Bytes,
    wantResponse: bool,
    requestId: UInt32,
    replyId: UInt32,
    emoji: UInt32)

  const DefaultData := Data(OtherPort(0), [], false, 0, 0, 0)

  /** The `payload_variant` oneof of a mesh packet. */
  datatype PacketPayload = Decoded(data: Data) | Encrypted(bytes: Bytes) | PayloadNotSet

  datatype MeshPacket = MeshPacket(
    id: UInt32,
    from: UInt32,
    to: UInt32,
    channel: UInt32,
    hopLimit: UInt32,
    wantAck: bool,
    priority: nat,
    pkiEncrypted: bool,
    publicKey: Bytes,
    payload: PacketPayload)

  const DefaultPacket := MeshPacket(0, 0, 0, 0, 0, false, 0, false, [], PayloadNotSet)

  datatype User = User(id: string, longName: string, shortName: string, publicKey: Bytes)

  const DefaultUser := User("", "", "", [])

  /** A node database entry; an unset `user` reads as the default user, as protobuf getters do. */
  datatype NodeInfo = NodeInfo(num: UInt32, user: User, lastHeard: UInt32, channel: UInt32, viaMqtt: bool, hopsAway: nat)

  const DefaultNodeInfo := NodeInfo(0, DefaultUser, 0, 0, false, 0)

  datatype MyNodeInfo = MyNodeInfo(myNodeNum: UInt32, rebootCount: nat, minAppVersion: nat)

  const DefaultMyNodeInfo := MyNodeInfo(0, 0, 0)

  datatype ChannelRole = Disabled | Primary | Secondary

  datatype ChannelSettings = ChannelSettings(name: string, psk: Bytes, uplinkEnabled: bool, downlinkEnabled: bool)

  datatype Channel = Channel(index: int, role: ChannelRole, settings: ChannelSettings)

  const DefaultChannel := Channel(0, Disabled, ChannelSettings("", [], false, false))

  datatype LoraConfig = LoraConfig(hopLimit: UInt32, region: nat)

  datatype SecurityConfig = SecurityConfig(publicKey: Bytes, privateKey: Bytes)

  /** The `payload_variant` oneof of `Config`; sections the forwarder never opens keep opaque bodies. */
  datatype Config =
    | DeviceSection(body: Bytes)
    | PositionSection(body: Bytes)
    | PowerSection(body: Bytes)
    | NetworkSection(body: Bytes)
    | DisplaySection(body: Bytes)
    | LoraSection(lora: LoraConfig)
    | BluetoothSection(body: Bytes)
    | SecuritySection(security: SecurityConfig)
    | SessionkeySection(body: Bytes)
    | DeviceUiSection(body: Bytes)
    | ConfigNotSet

  /** The protobuf field number of the variant a config holds, 0 when none is set. */
  function ConfigCase(c: Config): (n: nat)
    ensures n <= 10
    ensures n == 0 <==> c.ConfigNotSet?
  {
    match c
    case DeviceSection(_) => 1
    case PositionSection(_) => 2
    case PowerSection(_) => 3
    case NetworkSection(_) => 4
    case DisplaySection(_) => 5
    case LoraSection(_) => 6
    case BluetoothSection(_) => 7
    case SecuritySection(_) => 8
    case SessionkeySection(_) => 9
    case DeviceUiSection(_) => 10
    case ConfigNotSet => 0
  }

  const LoraCase: nat := 6
  const SecurityCase: nat := 8

  /** A routing response; `errorReason` 0 is `NONE`. */
  datatype Routing = Routing(errorReason: nat)

  datatype AdminMessage = GetOwnerResponse(owner: User) | OtherAdmin(variant: nat)

  datatype ProxyPayload = ProxyData(data: Bytes) | ProxyText(text: string) | ProxyNotSet

  datatype MqttClientProxyMessage = MqttClientProxyMessage(topic: string, payload: ProxyPayload, retained: bool)

  datatype MqttConfig = MqttConfig(
    enabled: bool,
    proxyToClientEnabled: bool,
    tlsEnabled: bool,
    address: string,
    username: string,
    password: string,
    root: string)

  /** A `ModuleConfig` from the radio; only the MQTT module's settings are opened. */
  datatype ModuleConfig = MqttModule(mqtt: MqttConfig) | OtherModule(body: Bytes)

  /** Host-to-radio messages. */
  datatype ToRadio =
    | ToPacket(packet: MeshPacket)
    | WantConfigId(configId: UInt32)
    | ToDisconnect
    | ToMqttProxy(proxy: MqttClientProxyMessage)
    | ToHeartbeat

  /** Radio-to-host messages. */
  datatype FromRadio =
    | FromPacket(packet: MeshPacket)
    | MyInfo(myInfo: MyNodeInfo)
    | FromNodeInfo(nodeInfo: NodeInfo)
    | FromConfig(config: Config)
    | FromModuleConfig(moduleConfig: ModuleConfig)
    | FromChannel(channel: Channel)
    | FromMqttProxy(proxy: MqttClientProxyMessage)
    | ConfigCompleteId(completeId: UInt32)
    | FromOther
}
