/**
 * The channel table of the radio: eight slots, all default channels at
 * first, each overwritten by the CHANNEL message that names its index. Every
 * change is published as a snapshot of the whole table.
 */
module ChannelTable {
  import opened Wrappers
  import opened Mesh

  /** The radio has eight channel slots. */
  const SlotCount: nat := 8

  /**
   * The table after a CHANNEL message: `None` when the index is not a slot,
   * which is the array store's out-of-bounds failure; the consumer loop
   * catches it and the table stays as it was.
   */
  function Store(table: seq<Channel>, channel: Channel): (r: Option<seq<Channel>>)
    requires |table| == SlotCount
    ensures r.Some? <==> 0 <= channel.index < SlotCount
    ensures r.Some? ==> |r.value| == SlotCount && r.value[channel.index] == channel
    ensures r.Some? ==> forall i :: 0 <= i < SlotCount && i != channel.index ==> r.value[i] == table[i]
  {
    if 0 <= channel.index < SlotCount then Some(table[channel.index := channel]) else None
  }

  /** Storing is last-writer-wins per slot: a second message for the same slot hides the first. */
  lemma StoreOverwrites(table: seq<Channel>, first: Channel, second: Channel)
    requires |table| == SlotCount && first.index == second.index && 0 <= first.index < SlotCount
    ensures Store(Store(table, first).value, second) == Store(table, second)
  {
    var once := table[second.index := second];
    var twice := table[first.index := first][second.index := second];
    assert forall i :: 0 <= i < SlotCount ==> twice[i] == once[i];
    assert twice == once;
  }

  /** Messages for different slots commute. */
  lemma StoreCommutes(table: seq<Channel>, a: Channel, b: Channel)
    requires |table| == SlotCount && a.index != b.index
    requires 0 <= a.index < SlotCount && 0 <= b.index < SlotCount
    ensures Store(Store(table, a).value, b) == Store(Store(table, b).value, a)
  {
    var ab := table[a.index := a][b.index := b];
    var ba := table[b.index := b][a.index := a];
    assert forall i :: 0 <= i < SlotCount ==> ab[i] == ba[i];
    assert ab == ba;
  }

  class ChannelComponent {
    /** `channels`, updated in place. */
    const slots: array<Channel>
    /** The last value published on `channelFlow`. */
    var snapshot: seq<Channel>

    ghost predicate Valid()
      reads this, slots
    {
      slots.Length == SlotCount && snapshot == slots[..]
    }

    constructor()
      ensures Valid() && fresh(slots)
      ensures forall i :: 0 <= i < SlotCount ==> snapshot[i] == DefaultChannel
    {
      slots := new Channel[SlotCount](_ => DefaultChannel);
      new;
      snapshot := slots[..];
    }

    /**
     * `consume`: a CHANNEL message overwrites its slot and publishes the
     * table; an index outside the table fails with nothing changed; any other
     * message is ignored.
     */
    method Consume(message: FromRadio) returns (failed: bool)
      requires Valid()
      modifies this, slots
      ensures Valid()
      ensures !message.FromChannel? ==> !failed && slots[..] == old(slots[..])
      ensures message.FromChannel? ==>
        var r := Store(old(slots[..]), message.channel);
        failed == r.None? && (r.Some? ==> slots[..] == r.value) && (r.None? ==> slots[..] == old(slots[..]))
    {
      if !message.FromChannel? {
        return false;
      }
      var channel := message.channel;
      if !(0 <= channel.index < slots.Length) {
        return true;
      }
      slots[channel.index] := channel;
      snapshot := slots[..];
      failed := false;
    }
  }
}
