/**
 * The node database: node number to the last `NodeInfo` heard for it. A
 * NODE_INFO message from the radio replaces a node's whole entry; a
 * NODEINFO_APP packet from the mesh carries only a `User`, which replaces
 * that field of the sender's entry and keeps the rest. The whole map is
 * published after each change.
 */
module NodeDb {
  import opened Wrappers
  import opened Mesh

  /** `processNodeInfo`: the entry under the info's own number becomes the info. */
  function ReplaceNode(nodes: map<UInt32, NodeInfo>, info: NodeInfo): (r: map<UInt32, NodeInfo>)
    ensures r.Keys == nodes.Keys + {info.num}
    ensures r[info.num] == info
    ensures forall k :: k in nodes && k != info.num ==> r[k] == nodes[k]
  {
    nodes[info.num := info]
  }

  /** `processUserInfo`: the sender's entry, or the default entry if there is none, gets the new user. */
  function MergeUser(nodes: map<UInt32, NodeInfo>, from: UInt32, user: User): (r: map<UInt32, NodeInfo>)
    ensures r.Keys == nodes.Keys + {from}
    ensures r[from].user == user
    ensures from in nodes ==> r[from] == nodes[from].(user := user)
    ensures from !in nodes ==> r[from] == DefaultNodeInfo.(user := user)
    ensures forall k :: k in nodes && k != from ==> r[k] == nodes[k]
  {
    var base := if from in nodes then nodes[from] else DefaultNodeInfo;
    nodes[from := base.(user := user)]
  }

  /** The user a packet announces: a decoded NODEINFO_APP payload that parses as a `User`. */
  function AnnouncedUser(packet: MeshPacket, parseUser: Bytes -> Option<User>): (r: Option<User>)
    ensures r.Some? ==> packet.payload.Decoded? && packet.payload.data.portnum == NodeinfoApp
    ensures packet.payload.Decoded? && packet.payload.data.portnum == NodeinfoApp ==>
      r == parseUser(packet.payload.data.payload)
  {
    if packet.payload.Decoded? && packet.payload.data.portnum == NodeinfoApp
    then parseUser(packet.payload.data.payload)
    else None
  }

  /**
   * A user update after a full entry changes only the user: the number, last
   * heard time, channel, MQTT flag and hop count of the full entry survive.
   */
  lemma MergeAfterReplace(nodes: map<UInt32, NodeInfo>, info: NodeInfo, user: User)
    ensures MergeUser(ReplaceNode(nodes, info), info.num, user)[info.num] == info.(user := user)
  {
  }

  /** A full entry after a user update hides the update completely. */
  lemma ReplaceAfterMerge(nodes: map<UInt32, NodeInfo>, from: UInt32, user: User, info: NodeInfo)
    requires info.num == from
    ensures ReplaceNode(MergeUser(nodes, from, user), info) == ReplaceNode(nodes, info)
  {
    var a := ReplaceNode(MergeUser(nodes, from, user), info);
    var b := ReplaceNode(nodes, info);
    assert a.Keys == b.Keys;
    assert forall k :: k in a ==> a[k] == b[k];
  }

  /**
   * Merging into a node not yet known creates an entry whose `num` is the
   * default 0, not the key it is stored under.
   */
  lemma MergeIntoUnknownNode(nodes: map<UInt32, NodeInfo>, from: UInt32, user: User)
    requires from !in nodes
    ensures MergeUser(nodes, from, user)[from].num == 0
  {
  }

  class NodeInfoComponent {
    /** `nodes`. */
    var nodes: map<UInt32, NodeInfo>
    /** The last value published on `nodesFlow`. */
    var snapshot: map<UInt32, NodeInfo>

    ghost predicate Valid()
      reads this
    {
      snapshot == nodes
    }

    constructor()
      ensures Valid() && nodes == map[]
    {
      nodes := map[];
      snapshot := map[];
    }

    /**
     * `consume`: a NODE_INFO message replaces its node's entry; a packet
     * announcing a user merges it into the sender's entry; a user payload that
     * does not parse, and every other message, changes nothing.
     */
    method Consume(message: FromRadio, parseUser: Bytes -> Option<User>)
      requires Valid()
      modifies this
      ensures Valid()
      ensures message.FromNodeInfo? ==> nodes == ReplaceNode(old(nodes), message.nodeInfo)
      ensures message.FromPacket? && AnnouncedUser(message.packet, parseUser).Some? ==>
        nodes == MergeUser(old(nodes), message.packet.from, AnnouncedUser(message.packet, parseUser).value)
      ensures message.FromPacket? && AnnouncedUser(message.packet, parseUser).None? ==> nodes == old(nodes)
      ensures !message.FromNodeInfo? && !message.FromPacket? ==> nodes == old(nodes)
    {
      if message.FromNodeInfo? {
        nodes := ReplaceNode(nodes, message.nodeInfo);
        snapshot := nodes;
      } else if message.FromPacket? {
        var packet := message.packet;
        if packet.payload.Decoded? && packet.payload.data.portnum == NodeinfoApp {
          var user := parseUser(packet.payload.data.payload);
          if user.Some? {
            nodes := MergeUser(nodes, packet.from, user.value);
            snapshot := nodes;
          }
        }
      }
    }
  }
}
