/** The framing constants of the serial client API. */
module FrameConstants {
  import opened Mesh

  /** Largest frame body accepted from the radio. */
  const FromRadioMaxLength: nat := 512

  /** Largest serialised message the host may send. */
  const ToRadioMaxLength: nat := 512

  /** First magic byte of a frame header. */
  const Start1: Byte := 0x94

  /** Second magic byte of a frame header. */
  const Start2: Byte := 0xC3

  /** Sent before every frame to wake a sleeping radio: 32 copies of `Start1`. */
  const WakeUpSequence: Bytes := Repeat(Start1, 32)

  /** `n` copies of one byte. */
  function Repeat(b: Byte, n: nat): (r: Bytes)
    ensures |r| == n
    ensures forall i :: 0 <= i < n ==> r[i] == b
  {
    if n == 0 then [] else [b] + Repeat(b, n - 1)
  }

  /** The magic bytes differ, the preamble is 32 copies of the first, and the second never occurs in it. */
  lemma WakeUpShape()
    ensures Start1 != Start2
    ensures |WakeUpSequence| == 32
    ensures forall i :: 0 <= i < |WakeUpSequence| ==> WakeUpSequence[i] == Start1
    ensures Start2 !in WakeUpSequence
  {
  }

  /** Both length limits fit in the 16-bit big-endian length field of a header. */
  lemma LimitsFitLengthField()
    ensures 0 < FromRadioMaxLength < 0x1_0000
    ensures 0 < ToRadioMaxLength < 0x1_0000
  {
  }
}
