/**
 * The server's own-node cells: the radio's `MyNodeInfo`, republished only
 * when it changes, and the owner's `User`, taken from an admin
 * GET_OWNER_RESPONSE packet.
 */
module MyNodeInfoCells {
  import opened Wrappers
  import opened Mesh

  /** The owner an admin packet reports, if it is one. `Err` is a payload that does not parse as an admin message. */
  function ReportedOwner(packet: MeshPacket, parseAdmin: Bytes -> Option<AdminMessage>): (r: Result<Option<User>, string>)
    ensures !packet.payload.Decoded? || packet.payload.data.portnum != AdminApp ==> r == Ok(None)
    ensures packet.payload.Decoded? && packet.payload.data.portnum == AdminApp ==>
      var parsed := parseAdmin(packet.payload.data.payload);
      (parsed.None? <==> r.Err?) &&
      (parsed.Some? && parsed.value.GetOwnerResponse? ==> r == Ok(Some(parsed.value.owner))) &&
      (parsed.Some? && !parsed.value.GetOwnerResponse? ==> r == Ok(None))
  {
    if !packet.payload.Decoded? || packet.payload.data.portnum != AdminApp then Ok(None)
    else match parseAdmin(packet.payload.data.payload)
      case None => Err("admin payload does not parse")
      case Some(GetOwnerResponse(owner)) => Ok(Some(owner))
      case Some(_) => Ok(None)
  }

  class MyNodeInfoComponent {
    /** `myNodeInfoStateFlow`'s value. */
    var myInfo: MyNodeInfo
    /** `myUserInfoStateFlow`'s value. */
    var owner: User
    /** How many times `myInfo` has been published; every publication is a change. */
    var myInfoEmissions: nat

    constructor()
      ensures myInfo == DefaultMyNodeInfo && owner == DefaultUser && myInfoEmissions == 0
    {
      myInfo := DefaultMyNodeInfo;
      owner := DefaultUser;
      myInfoEmissions := 0;
    }

    /**
     * `consume`: a MY_INFO message leaves the cell holding it, republished only
     * when it differs from the value held; an owner report sets the owner
     * cell. An admin payload that does not parse fails, leaving both cells.
     */
    method Consume(message: FromRadio, parseAdmin: Bytes -> Option<AdminMessage>) returns (failed: bool)
      modifies this
      ensures message.MyInfo? ==>
        myInfo == message.myInfo && owner == old(owner) && !failed &&
        myInfoEmissions == old(myInfoEmissions) + (if old(myInfo) == message.myInfo then 0 else 1)
      ensures message.FromPacket? ==>
        var r := ReportedOwner(message.packet, parseAdmin);
        myInfo == old(myInfo) && myInfoEmissions == old(myInfoEmissions) && failed == r.Err? &&
        owner == (if r.Ok? && r.value.Some? then r.value.value else old(owner))
      ensures !message.MyInfo? && !message.FromPacket? ==>
        !failed && myInfo == old(myInfo) && owner == old(owner) && myInfoEmissions == old(myInfoEmissions)
    {
      failed := false;
      if message.MyInfo? {
        if myInfo != message.myInfo {
          myInfo := message.myInfo;
          myInfoEmissions := myInfoEmissions + 1;
        }
      }
      if message.FromPacket? {
        var packet := message.packet;
        if !packet.payload.Decoded? || packet.payload.data.portnum != AdminApp {
          return;
        }
        var admin := parseAdmin(packet.payload.data.payload);
        if admin.None? {
          return true;
        }
        if !admin.value.GetOwnerResponse? {
          return;
        }
        owner := admin.value.owner;
      }
    }
  }
}
