/** Predicates on mesh packets used to route and filter traffic. */
module MeshPacketUtils {
  import opened Mesh
  import CommonUtils

  /** `isTextMessage`: a decoded payload on the text-message port. */
  predicate IsTextMessage(p: MeshPacket) {
    p.payload.Decoded? && p.payload.data.portnum == TextMessageApp
  }

  /** `isEmojiReaction`: a decoded payload carrying a nonzero emoji flag. */
  predicate IsEmojiReaction(p: MeshPacket) {
    p.payload.Decoded? && p.payload.data.emoji != 0
  }

  predicate IsNotEmojiReaction(p: MeshPacket) {
    !IsEmojiReaction(p)
  }

  /** `isBroadcast`: the destination is the broadcast id. */
  predicate IsBroadcast(p: MeshPacket) {
    CommonUtils.IsBroadcastNum(p.to)
  }

  predicate IsNotBroadcast(p: MeshPacket) {
    !IsBroadcast(p)
  }

  /** Packets that are still encrypted, or carry nothing, are never text and never reactions. */
  lemma UndecodedIsNeither(p: MeshPacket)
    requires !p.payload.Decoded?
    ensures !IsTextMessage(p) && !IsEmojiReaction(p) && IsNotEmojiReaction(p)
  {
  }

  /** Exactly one of `isBroadcast` and `isNotBroadcast` holds, and the first means `to == 0xFFFFFFFF`. */
  lemma BroadcastIff(p: MeshPacket)
    ensures IsBroadcast(p) <==> p.to == BroadcastNum
    ensures IsNotBroadcast(p) <==> p.to != BroadcastNum
  {
    CommonUtils.IsBroadcastNumIff(p.to);
  }
}
