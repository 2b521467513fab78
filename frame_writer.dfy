/**
 * The host side of the serial client API, outbound. A message is serialised,
 * refused when larger than 512 bytes, and otherwise written as the wake-up
 * preamble, the two magic bytes, a big-endian 16-bit length and the body.
 * Messages wait in one of two FIFO lanes: text-message packets in a lane
 * paced to one write every 2.1 s, everything else in a default lane.
 *
 * The output stream is the `wire` field. An I/O failure is modelled by the
 * stream's capacity: once `failAfter` bytes have been written, the write in
 * progress stores what still fits and fails.
 */
module FrameWriter {
  import opened Wrappers
  import opened Mesh
  import opened FrameConstants
  import FrameReader
  import MeshPacketUtils

  // ---------------------------------------------------------------- framing

  /** Everything `writeMessage` puts on the stream for a body, in order. */
  function FrameBytes(body: Bytes): (r: Bytes)
    requires |body| <= ToRadioMaxLength
    ensures |r| == 32 + 4 + |body|
    ensures r[..32] == WakeUpSequence
    ensures r[32] == Start1 && r[33] == Start2
    ensures (r[34] as int) * 0x100 + r[35] as int == |body|
    ensures r[36..] == body
  {
    WakeUpSequence + FrameReader.Header(|body|) + body
  }

  /** The frame cut at the boundaries of the six stream writes. */
  lemma FramePieces(body: Bytes)
    requires |body| <= ToRadioMaxLength
    ensures var frame := FrameBytes(body);
      frame[0..32] == WakeUpSequence && frame[32..33] == [Start1] && frame[33..34] == [Start2] &&
      frame[34..35] == [|body| / 0x100] && frame[35..36] == [|body| % 0x100] && frame[36..36 + |body|] == body &&
      frame[..|frame|] == frame
  {
  }

  /** Round trip: an idle reader fed a written frame emits exactly the body, and is idle again. */
  lemma WrittenFrameDecodes(body: Bytes)
    requires 1 <= |body| <= ToRadioMaxLength
    ensures FrameReader.Feed(FrameReader.WaitingForStart1, FrameBytes(body)) ==
      FrameReader.Progress(FrameReader.WaitingForStart1, [body])
  {
    var header := FrameReader.Header(|body|);
    assert FrameBytes(body) == WakeUpSequence + (header + body);
    FrameReader.FeedAppend(FrameReader.WaitingForStart1, WakeUpSequence, header + body);
    FrameReader.WakeUpIsNeutral();
    FrameReader.FrameRoundTrip(body);
  }

  /** Frames written back to back are read back as the same bodies, in order. */
  lemma {:induction false} WrittenFramesDecode(bodies: seq<Bytes>)
    requires forall i :: 0 <= i < |bodies| ==> 1 <= |bodies[i]| <= ToRadioMaxLength
    ensures FrameReader.Feed(FrameReader.WaitingForStart1, Concat(bodies)) ==
      FrameReader.Progress(FrameReader.WaitingForStart1, bodies)
    decreases |bodies|
  {
    if |bodies| > 0 {
      var init, last := bodies[..|bodies| - 1], bodies[|bodies| - 1];
      assert forall i :: 0 <= i < |init| ==> init[i] == bodies[i];
      assert Concat(bodies) == Concat(init) + FrameBytes(last);
      WrittenFramesDecode(init);
      FrameReader.FeedAppend(FrameReader.WaitingForStart1, Concat(init), FrameBytes(last));
      WrittenFrameDecodes(last);
      assert init + [last] == bodies;
    }
  }

  /** The frames of several bodies written one after another. */
  function Concat(bodies: seq<Bytes>): Bytes
    requires forall i :: 0 <= i < |bodies| ==> |bodies[i]| <= ToRadioMaxLength
  {
    if |bodies| == 0 then [] else Concat(bodies[..|bodies| - 1]) + FrameBytes(bodies[|bodies| - 1])
  }

  // ---------------------------------------------------------------- the stream

  /** The stream's contents after writing `bytes` onto `wire`, cut at the capacity if there is one. */
  function Cap(bytes: Bytes, failAfter: Option<nat>): (r: Bytes)
    ensures r == bytes || (failAfter.Some? && |bytes| > failAfter.value && r == bytes[..failAfter.value])
  {
    if failAfter.Some? && |bytes| > failAfter.value then bytes[..failAfter.value] else bytes
  }

  predicate Fits(bytes: Bytes, failAfter: Option<nat>) {
    failAfter.None? || |bytes| <= failAfter.value
  }

  /** Once the capacity is exceeded, more bytes after the overflow change nothing. */
  lemma CapOverflow(bytes: Bytes, more: Bytes, failAfter: Option<nat>)
    requires !Fits(bytes, failAfter)
    ensures Cap(bytes + more, failAfter) == Cap(bytes, failAfter)
  {
    assert (bytes + more)[..failAfter.value] == bytes[..failAfter.value];
  }

  datatype WriteError = TooLarge(size: nat) | IoFailure

  /** What `writeMessage` reports for a serialised body on a stream holding `wire`. */
  function WriteOutcome(wire: Bytes, failAfter: Option<nat>, body: Bytes): Result<(), WriteError> {
    if |body| > ToRadioMaxLength then Err(TooLarge(|body|))
    else if Fits(wire + FrameBytes(body), failAfter) then Ok(())
    else Err(IoFailure)
  }

  /** What the stream holds after `writeMessage`; a refused body writes nothing. */
  function WireAfter(wire: Bytes, failAfter: Option<nat>, body: Bytes): Bytes {
    if |body| > ToRadioMaxLength then wire else Cap(wire + FrameBytes(body), failAfter)
  }

  /** A successful write appends exactly the frame; a failed one at most a proper prefix of it. */
  lemma WriteEffect(wire: Bytes, failAfter: Option<nat>, body: Bytes)
    requires Fits(wire, failAfter)
    ensures WriteOutcome(wire, failAfter, body).Ok? ==>
      WireAfter(wire, failAfter, body) == wire + FrameBytes(body)
    ensures WriteOutcome(wire, failAfter, body) == Err(IoFailure) ==>
      exists n :: 0 <= n < |FrameBytes(body)| && WireAfter(wire, failAfter, body) == wire + FrameBytes(body)[..n]
    ensures WriteOutcome(wire, failAfter, body).Err? && WriteOutcome(wire, failAfter, body).error.TooLarge? ==>
      WireAfter(wire, failAfter, body) == wire
  {
    if WriteOutcome(wire, failAfter, body) == Err(IoFailure) {
      var frame := FrameBytes(body);
      var n := failAfter.value - |wire|;
      assert (wire + frame)[..failAfter.value] == wire + frame[..n];
    }
  }

  // ---------------------------------------------------------------- lanes

  /** `isTextMessageApp`: a packet message whose decoded payload is on the text-message port. */
  predicate IsTextMessageApp(message: ToRadio) {
    message.ToPacket? && message.packet.payload.Decoded? && message.packet.payload.data.portnum == TextMessageApp
  }

  /** The lane test agrees with the packet predicate used elsewhere. */
  lemma TextMessageAppIff(message: ToRadio)
    ensures IsTextMessageApp(message) <==> message.ToPacket? && MeshPacketUtils.IsTextMessage(message.packet)
  {
  }

  /**
   * The pause after a successful text write that started at `start`: the
   * clock is read once (`t1`) to decide and once more (`t2`) to compute the
   * delay; a negative delay does not wait.
   */
  function TextDelay(start: int, t1: int, t2: int): (wait: nat)
    ensures t1 - start >= 2050 ==> wait == 0
  {
    if t1 - start < 2050 then (if 2100 - t2 + start > 0 then 2100 - t2 + start else 0) else 0
  }

  /**
   * Pacing: with a clock that does not run backwards, the next text write
   * starts no earlier than 2050 ms after the previous one started, and
   * exactly 2100 ms after it when the write was quick.
   */
  lemma TextPacing(start: int, t1: int, t2: int)
    requires start <= t1 <= t2
    ensures t2 + TextDelay(start, t1, t2) >= start + 2050
    ensures t1 - start < 2050 && t2 - start <= 2100 ==> t2 + TextDelay(start, t1, t2) == start + 2100
    ensures t1 - start < 2050 && t2 - start > 2100 ==> TextDelay(start, t1, t2) == 0
  {
  }

  /** A message waiting in a lane, with the handle of its deferred result. */
  datatype Queued = Queued(message: ToRadio, handle: nat)

  /** A `CompletableDeferred<Unit>`. */
  datatype Outcome = Pending | Completed | Failed(error: WriteError)

  datatype EnqueueError = ChannelClosed

  /** Every queued handle names a deferred that is still pending. */
  predicate Tracked(queue: seq<Queued>, outcomes: seq<Outcome>) {
    forall i :: 0 <= i < |queue| ==> queue[i].handle < |outcomes| && outcomes[queue[i].handle].Pending?
  }

  /** Handles grow along a lane, since each is fresh when it is enqueued. */
  predicate Increasing(queue: seq<Queued>) {
    forall i, j :: 0 <= i < j < |queue| ==> queue[i].handle < queue[j].handle
  }

  predicate Disjoint(a: seq<Queued>, b: seq<Queued>) {
    forall i, j :: 0 <= i < |a| && 0 <= j < |b| ==> a[i].handle != b[j].handle
  }

  /** A fresh handle, one past every handle handed out, keeps a lane tracked and increasing. */
  lemma PushFresh(queue: seq<Queued>, outcomes: seq<Outcome>, message: ToRadio)
    requires Tracked(queue, outcomes) && Increasing(queue)
    ensures Tracked(queue, outcomes + [Pending])
    ensures var pushed := queue + [Queued(message, |outcomes|)];
      Tracked(pushed, outcomes + [Pending]) && Increasing(pushed)
  {
  }

  /** A fresh handle is in no lane yet. */
  lemma DisjointFresh(a: seq<Queued>, b: seq<Queued>, outcomes: seq<Outcome>, message: ToRadio)
    requires Tracked(a, outcomes) && Tracked(b, outcomes) && Disjoint(a, b)
    ensures Disjoint(a + [Queued(message, |outcomes|)], b)
    ensures Disjoint(a, b + [Queued(message, |outcomes|)])
  {
  }

  lemma DisjointSym(a: seq<Queued>, b: seq<Queued>)
    requires Disjoint(a, b)
    ensures Disjoint(b, a)
  {
  }

  /** Resolving the head of a lane leaves every other queued result pending. */
  lemma PopResolve(queue: seq<Queued>, other: seq<Queued>, outcomes: seq<Outcome>, resolved: Outcome)
    requires |queue| > 0
    requires Tracked(queue, outcomes) && Tracked(other, outcomes) && Increasing(queue) && Disjoint(queue, other)
    ensures var after := outcomes[queue[0].handle := resolved];
      Tracked(queue[1..], after) && Tracked(other, after) && Increasing(queue[1..]) && Disjoint(queue[1..], other)
  {
    var after := outcomes[queue[0].handle := resolved];
    forall i | 0 <= i < |queue[1..]|
      ensures queue[1..][i].handle < |after| && after[queue[1..][i].handle].Pending?
    {
      assert queue[1..][i] == queue[i + 1];
    }
  }

  /** Dropping the head of a lane keeps it tracked, increasing and disjoint from the other. */
  lemma Pop(queue: seq<Queued>, other: seq<Queued>, outcomes: seq<Outcome>)
    requires |queue| > 0
    requires Tracked(queue, outcomes) && Increasing(queue) && Disjoint(queue, other)
    ensures Tracked(queue[1..], outcomes) && Increasing(queue[1..]) && Disjoint(queue[1..], other)
  {
  }

  class ApiWriter {
    /** Every byte written to the output stream. */
    var wire: Bytes
    /** The stream's capacity before it fails with an I/O error; `None` never fails. */
    const failAfter: Option<nat>
    const serialize: ToRadio -> Bytes
    var textQueue: seq<Queued>
    var defaultQueue: seq<Queued>
    /** The deferred results handed out, indexed by handle. */
    var outcomes: seq<Outcome>
    var closed: bool
    /** The text lane's job ends for good on a failure other than an I/O error. */
    var textLaneAlive: bool

    predicate Valid()
      reads this
    {
      Fits(wire, failAfter) &&
      Tracked(textQueue, outcomes) && Tracked(defaultQueue, outcomes) &&
      Increasing(textQueue) && Increasing(defaultQueue) && Disjoint(textQueue, defaultQueue) &&
      (closed ==> !textLaneAlive)
    }

    constructor(serialize: ToRadio -> Bytes, failAfter: Option<nat>)
      ensures Valid() && wire == [] && textQueue == [] && defaultQueue == [] && outcomes == []
      ensures !closed && textLaneAlive
      ensures this.serialize == serialize && this.failAfter == failAfter
    {
      this.serialize := serialize;
      this.failAfter := failAfter;
      wire := [];
      textQueue := [];
      defaultQueue := [];
      outcomes := [];
      closed := false;
      textLaneAlive := true;
    }

    /**
     * One `outputStream.write` of the next `piece` of `frame`, of which the
     * first `k` bytes are already on the stream after `w0`: the bytes that
     * fit are stored, and `ok` says whether all did. After a failure the
     * stream holds what writing the whole frame at once would leave.
     */
    method Put(piece: Bytes, ghost w0: Bytes, ghost frame: Bytes, ghost k: nat) returns (ok: bool)
      requires k + |piece| <= |frame| && frame[k..k + |piece|] == piece
      requires wire == w0 + frame[..k] && Fits(wire, failAfter)
      modifies this`wire
      ensures ok <==> Fits(w0 + frame[..k + |piece|], failAfter)
      ensures ok ==> wire == w0 + frame[..k + |piece|]
      ensures !ok ==> wire == Cap(w0 + frame, failAfter)
      ensures Fits(wire, failAfter)
    {
      var next := k + |piece|;
      assert frame[..k] + piece == frame[..next];
      ok := Fits(wire + piece, failAfter);
      if !ok {
        CapOverflow(w0 + frame[..next], frame[next..], failAfter);
        assert w0 + frame[..next] + frame[next..] == w0 + frame;
      }
      wire := Cap(wire + piece, failAfter);
    }

    /**
     * `writeMessage`: a body over the limit is refused before anything is
     * written; otherwise the preamble, the header bytes and the body are
     * written in turn, and the first write that does not fit fails.
     */
    method WriteMessage(message: ToRadio) returns (r: Result<(), WriteError>)
      requires Fits(wire, failAfter)
      modifies this`wire
      ensures r == WriteOutcome(old(wire), failAfter, serialize(message))
      ensures wire == WireAfter(old(wire), failAfter, serialize(message))
      ensures Fits(wire, failAfter)
    {
      var bytes := serialize(message);
      var size := |bytes|;
      if size > ToRadioMaxLength {
        return Err(TooLarge(size));
      }
      ghost var w0 := wire;
      ghost var frame := FrameBytes(bytes);
      assert wire == w0 + frame[..0];
      FramePieces(bytes);
      var ok := Put(WakeUpSequence, w0, frame, 0);
      if ok { ok := Put([Start1], w0, frame, 32); }
      if ok { ok := Put([Start2], w0, frame, 33); }
      if ok { ok := Put([size / 0x100], w0, frame, 34); }
      if ok { ok := Put([size % 0x100], w0, frame, 35); }
      if ok { ok := Put(bytes, w0, frame, 36); }
      r := if ok then Ok(()) else Err(IoFailure);
    }

    /** `close`: both lanes stop and no further message is accepted. */
    method Close()
      requires Valid()
      modifies this
      ensures Valid() && closed && !textLaneAlive
      ensures wire == old(wire) && outcomes == old(outcomes)
      ensures textQueue == old(textQueue) && defaultQueue == old(defaultQueue)
    {
      closed := true;
      textLaneAlive := false;
    }

    /** `enqueueMessageToSend`: a fresh pending result, queued in exactly one lane. */
    method Enqueue(message: ToRadio) returns (r: Result<nat, EnqueueError>)
      requires Valid()
      modifies this
      ensures Valid()
      ensures wire == old(wire) && closed == old(closed) && textLaneAlive == old(textLaneAlive)
      ensures old(closed) ==>
        r == Err(ChannelClosed) && outcomes == old(outcomes) && textQueue == old(textQueue) && defaultQueue == old(defaultQueue)
      ensures !old(closed) ==> r == Ok(|old(outcomes)|) && outcomes == old(outcomes) + [Pending]
      ensures !old(closed) && IsTextMessageApp(message) ==>
        textQueue == old(textQueue) + [Queued(message, |old(outcomes)|)] && defaultQueue == old(defaultQueue)
      ensures !old(closed) && !IsTextMessageApp(message) ==>
        defaultQueue == old(defaultQueue) + [Queued(message, |old(outcomes)|)] && textQueue == old(textQueue)
    {
      if closed {
        return Err(ChannelClosed);
      }
      PushFresh(textQueue, outcomes, message);
      PushFresh(defaultQueue, outcomes, message);
      DisjointFresh(textQueue, defaultQueue, outcomes, message);
      var handle := |outcomes|;
      outcomes := outcomes + [Pending];
      if IsTextMessageApp(message) {
        textQueue := textQueue + [Queued(message, handle)];
      } else {
        defaultQueue := defaultQueue + [Queued(message, handle)];
      }
      r := Ok(handle);
    }

    /**
     * One turn of the default lane: the oldest message is written; success
     * completes its result, and any failure fails it and closes the writer.
     */
    method SendNextDefault()
      requires Valid() && !closed && |defaultQueue| > 0
      modifies this
      ensures Valid()
      ensures defaultQueue == old(defaultQueue[1..]) && textQueue == old(textQueue)
      ensures var head := old(defaultQueue[0]);
        var result := WriteOutcome(old(wire), failAfter, serialize(head.message));
        wire == WireAfter(old(wire), failAfter, serialize(head.message)) &&
        (result.Ok? ==> outcomes == old(outcomes)[head.handle := Completed] && !closed && textLaneAlive == old(textLaneAlive)) &&
        (result.Err? ==> outcomes == old(outcomes)[head.handle := Failed(result.error)] && closed)
    {
      var head := defaultQueue[0];
      DisjointSym(textQueue, defaultQueue);
      var result := WriteMessage(head.message);
      if result.Ok? {
        PopResolve(defaultQueue, textQueue, outcomes, Completed);
        outcomes := outcomes[head.handle := Completed];
      } else {
        PopResolve(defaultQueue, textQueue, outcomes, Failed(result.error));
        outcomes := outcomes[head.handle := Failed(result.error)];
      }
      DisjointSym(defaultQueue[1..], textQueue);
      defaultQueue := defaultQueue[1..];
      if result.Err? {
        Close();
      }
    }

    /**
     * One turn of the text lane, with the clock read at the start (`start`)
     * and twice after the write (`t1`, `t2`). Success completes the result
     * and returns the pause before the next text write. Only an I/O error is
     * caught: it fails the result and closes the writer. Any other failure
     * ends the lane's job and leaves the result pending.
     */
    method SendNextText(start: int, t1: int, t2: int) returns (wait: nat)
      requires Valid() && textLaneAlive && |textQueue| > 0
      modifies this
      ensures Valid()
      ensures textQueue == old(textQueue[1..]) && defaultQueue == old(defaultQueue)
      ensures var head := old(textQueue[0]);
        var result := WriteOutcome(old(wire), failAfter, serialize(head.message));
        wire == WireAfter(old(wire), failAfter, serialize(head.message)) &&
        (result.Ok? ==>
          outcomes == old(outcomes)[head.handle := Completed] && textLaneAlive && !closed && wait == TextDelay(start, t1, t2)) &&
        (result == Err(IoFailure) ==> outcomes == old(outcomes)[head.handle := Failed(IoFailure)] && closed && wait == 0) &&
        (result.Err? && result.error.TooLarge? ==> outcomes == old(outcomes) && !textLaneAlive && !closed && wait == 0)
    {
      var head := textQueue[0];
      var result := WriteMessage(head.message);
      wait := 0;
      if result.Ok? {
        PopResolve(textQueue, defaultQueue, outcomes, Completed);
        outcomes := outcomes[head.handle := Completed];
        wait := TextDelay(start, t1, t2);
      } else if result.error == IoFailure {
        PopResolve(textQueue, defaultQueue, outcomes, Failed(IoFailure));
        outcomes := outcomes[head.handle := Failed(IoFailure)];
      } else {
        Pop(textQueue, defaultQueue, outcomes);
        textLaneAlive := false;
      }
      textQueue := textQueue[1..];
      if result == Err(IoFailure) {
        Close();
      }
    }
  }
}
