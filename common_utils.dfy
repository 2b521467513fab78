/**
 * Helpers shared by the server and the client: the broadcast node id, hex
 * rendering of byte strings and the typed lookups into the config map.
 */
module CommonUtils {
  import opened Wrappers
  import opened Mesh

  // ---------------------------------------------------------------- node ids

  /** A Kotlin `Int`. */
  type Int32 = x: int | -0x8000_0000 <= x < 0x8000_0000

  /** `UInt.toInt()`: the same 32 bits read as two's complement. */
  function ToSigned(u: UInt32): (r: Int32)
    ensures r % 0x1_0000_0000 == u
  {
    if u < 0x8000_0000 then u else u - 0x1_0000_0000
  }

  /** `Int.toUInt()`: the inverse of `ToSigned`. */
  function ToUnsigned(x: Int32): (r: UInt32)
    ensures ToSigned(r) == x
  {
    if x >= 0 then x else x + 0x1_0000_0000
  }

  lemma SignedRoundTrip(u: UInt32)
    ensures ToUnsigned(ToSigned(u)) == u
  {
  }

  /** `MESH_PACKET_TO_BROADCAST_NODE_ID`: `0xFFFFFFFFu.toInt()`. */
  const BroadcastId: Int32 := ToSigned(BroadcastNum)

  /** `toNodeIdIsBroadcast`: the signed node id equals the broadcast id. */
  predicate ToNodeIdIsBroadcast(id: Int32) {
    id == BroadcastId
  }

  /** The broadcast id is Kotlin's `-1`, and a node id is broadcast exactly when its unsigned reading is `0xFFFFFFFF`. */
  lemma BroadcastIsAllOnes(id: Int32)
    ensures BroadcastId == -1
    ensures ToNodeIdIsBroadcast(id) <==> ToUnsigned(id) == BroadcastNum
  {
  }

  /** The broadcast test on a packet field, which the model stores unsigned. */
  predicate IsBroadcastNum(n: UInt32) {
    ToNodeIdIsBroadcast(ToSigned(n))
  }

  lemma IsBroadcastNumIff(n: UInt32)
    ensures IsBroadcastNum(n) <==> n == BroadcastNum
  {
    SignedRoundTrip(n);
  }

  // ---------------------------------------------------------------- hex

  function HexDigit(d: nat): (c: char)
    requires d < 16
    ensures IsLowerHex(c)
  {
    if d < 10 then ('0' as int + d) as char else ('a' as int + d - 10) as char
  }

  predicate IsLowerHex(c: char) {
    ('0' <= c <= '9') || ('a' <= c <= 'f')
  }

  function HexValue(c: char): (d: nat)
    requires IsLowerHex(c)
    ensures d < 16 && HexDigit(d) == c
  {
    if c <= '9' then c as int - '0' as int else c as int - 'a' as int + 10
  }

  lemma HexDigitValue(d: nat)
    requires d < 16
    ensures HexValue(HexDigit(d)) == d
  {
  }

  /** `"%02x".format(b)`: two lowercase hex digits, high nibble first. */
  function ByteHex(b: Byte): string {
    [HexDigit(b / 16), HexDigit(b % 16)]
  }

  /** `toHex`: every byte rendered as `%02x`, joined with no separator. */
  function ToHex(bytes: Bytes): (s: string)
    ensures |s| == 2 * |bytes|
    ensures forall i :: 0 <= i < |s| ==> IsLowerHex(s[i])
  {
    if |bytes| == 0 then "" else ByteHex(bytes[0]) + ToHex(bytes[1..])
  }

  /** Reads a `toHex` rendering back: pairs of lowercase hex digits, or nothing. */
  function FromHex(s: string): Option<Bytes>
    decreases |s|
  {
    if |s| == 0 then Some([])
    else if |s| == 1 || !IsLowerHex(s[0]) || !IsLowerHex(s[1]) then None
    else
      match FromHex(s[2..])
      case None => None
      case Some(rest) => Some([HexValue(s[0]) * 16 + HexValue(s[1])] + rest)
  }

  /** `toHex` is injective: its rendering reads back to the same bytes. */
  lemma {:induction false} HexRoundTrip(bytes: Bytes)
    ensures FromHex(ToHex(bytes)) == Some(bytes)
  {
    if |bytes| > 0 {
      var s := ToHex(bytes);
      var b := bytes[0];
      assert s[2..] == ToHex(bytes[1..]);
      HexDigitValue(b / 16);
      HexDigitValue(b % 16);
      assert s[0] == HexDigit(b / 16) && s[1] == HexDigit(b % 16);
      assert HexValue(s[0]) * 16 + HexValue(s[1]) == b;
      HexRoundTrip(bytes[1..]);
      assert FromHex(s) == Some([b] + bytes[1..]);
      assert [b] + bytes[1..] == bytes;
    }
  }

  /** Rendering distributes over concatenation. */
  lemma {:induction false} HexAppend(a: Bytes, b: Bytes)
    ensures ToHex(a + b) == ToHex(a) + ToHex(b)
  {
    if |a| > 0 {
      assert (a + b)[1..] == a[1..] + b;
      HexAppend(a[1..], b);
    } else {
      assert a + b == b;
    }
  }

  // ---------------------------------------------------------------- config lookups

  /** `getLoraConfig`: the LoRa section stored under its variant number, if any. */
  function GetLoraConfig(configs: map<int, Config>): (r: Option<LoraConfig>)
    ensures r.Some? <==> LoraCase in configs
    ensures LoraCase in configs && configs[LoraCase].LoraSection? ==> r == Some(configs[LoraCase].lora)
  {
    if LoraCase !in configs then None
    else
      match configs[LoraCase]
      case LoraSection(l) => Some(l)
      case _ => Some(LoraConfig(0, 0))
  }

  /** `getSecurityConfig`: the security section stored under its variant number, if any. */
  function GetSecurityConfig(configs: map<int, Config>): (r: Option<SecurityConfig>)
    ensures r.Some? <==> SecurityCase in configs
    ensures SecurityCase in configs && configs[SecurityCase].SecuritySection? ==> r == Some(configs[SecurityCase].security)
  {
    if SecurityCase !in configs then None
    else
      match configs[SecurityCase]
      case SecuritySection(s) => Some(s)
      case _ => Some(SecurityConfig([], []))
  }
}
