/**
 * The host side of the serial client API, inbound: a byte-at-a-time state
 * machine that finds `0x94 0xC3`, reads a big-endian 16-bit length and then
 * collects that many body bytes, handing each complete body to the protobuf
 * parser. The transition function is pure; the read loop that drives it over
 * the chunks returned by the port, and the once-only close, live in the
 * `ApiReader` class.
 */
module FrameReader {
  import opened Wrappers
  import opened Mesh
  import opened FrameConstants

  datatype State =
    | WaitingForStart1
    | WaitingForStart2
    | WaitingForLengthMsb
    | WaitingForLengthLsb(msb: Byte)
    | ReadingBody(buffer: Bytes, pos: nat)

  /** A body being read has a legal length and a position inside the buffer. */
  predicate WellFormed(s: State) {
    s.ReadingBody? ==> 1 <= |s.buffer| <= FromRadioMaxLength && s.pos < |s.buffer|
  }

  /** The states the reader can be in. */
  type ReaderState = s: State | WellFormed(s) witness WaitingForStart1

  /** The next state and, when a body has just been completed, that body. */
  datatype Step = Step(next: ReaderState, frame: Option<Bytes>)

  function OnWaitingForStart1(b: Byte): State {
    if b == Start1 then WaitingForStart2 else WaitingForStart1
  }

  function OnWaitingForStart2(b: Byte): State {
    if b == Start2 then WaitingForLengthMsb else WaitingForStart1
  }

  function OnWaitingForLengthMsb(b: Byte): State {
    WaitingForLengthLsb(b)
  }

  /** The length is `msb * 256 + lsb`; zero or more than the limit drops the header. */
  function OnWaitingForLengthLsb(msb: Byte, lsb: Byte): State {
    var length := msb * 0x100 + lsb;
    if length > FromRadioMaxLength then WaitingForStart1
    else if length == 0 then WaitingForStart1
    else ReadingBody(Zeros(length), 0)
  }

  /** A fresh `ByteArray(length)`: all zeros. */
  function Zeros(length: nat): (r: Bytes)
    ensures |r| == length
    ensures forall i :: 0 <= i < length ==> r[i] == 0
  {
    if length == 0 then [] else Zeros(length - 1) + [0]
  }

  predicate IsLastByte(buffer: Bytes, pos: nat) {
    pos == |buffer| - 1
  }

  function NextState(buffer: Bytes, pos: nat): State {
    if IsLastByte(buffer, pos) then WaitingForStart1 else ReadingBody(buffer, pos + 1)
  }

  /** Stores the byte at `pos`; at the last position the filled buffer is emitted. */
  function OnReadingBody(buffer: Bytes, pos: nat, b: Byte): Step
    requires |buffer| <= FromRadioMaxLength && pos < |buffer|
  {
    var filled := buffer[pos := b];
    Step(NextState(filled, pos), if IsLastByte(filled, pos) then Some(filled) else None)
  }

  /** `processByte`: dispatch on the current state. */
  function ProcessByte(s: ReaderState, b: Byte): (r: Step)
    ensures r.frame.Some? ==> 1 <= |r.frame.value| <= FromRadioMaxLength
  {
    match s
    case WaitingForStart1 => Step(OnWaitingForStart1(b), None)
    case WaitingForStart2 => Step(OnWaitingForStart2(b), None)
    case WaitingForLengthMsb => Step(OnWaitingForLengthMsb(b), None)
    case WaitingForLengthLsb(msb) => Step(OnWaitingForLengthLsb(msb, b), None)
    case ReadingBody(buffer, pos) => OnReadingBody(buffer, pos, b)
  }

  /**
   * The transition table read from the outside: which state and byte lead to
   * each kind of next state, and exactly when a body is emitted.
   */
  lemma TransitionTable(s: ReaderState, b: Byte)
    ensures ProcessByte(s, b).next == WaitingForStart2 <==> s == WaitingForStart1 && b == Start1
    ensures ProcessByte(s, b).next == WaitingForLengthMsb <==> s == WaitingForStart2 && b == Start2
    ensures ProcessByte(s, b).next == WaitingForLengthLsb(b) <==> s == WaitingForLengthMsb
    ensures ProcessByte(s, b).next.WaitingForLengthLsb? ==> s == WaitingForLengthMsb
    ensures (ProcessByte(s, b).next.ReadingBody? && ProcessByte(s, b).next.pos == 0) <==>
      (s.WaitingForLengthLsb? && 1 <= s.msb * 0x100 + b <= FromRadioMaxLength)
    ensures s.WaitingForLengthLsb? && 1 <= s.msb * 0x100 + b <= FromRadioMaxLength ==>
      |ProcessByte(s, b).next.buffer| == s.msb * 0x100 + b
    ensures ProcessByte(s, b).frame.Some? <==> s.ReadingBody? && s.pos == |s.buffer| - 1
    ensures ProcessByte(s, b).frame.Some? ==> ProcessByte(s, b).frame.value == s.buffer[s.pos := b]
    ensures s.ReadingBody? && s.pos < |s.buffer| - 1 ==>
      ProcessByte(s, b).next == ReadingBody(s.buffer[s.pos := b], s.pos + 1)
  {
  }

  // ---------------------------------------------------------------- feeding a stream

  /** Where the machine stands after a run of bytes, and the bodies it emitted on the way. */
  datatype Progress = Progress(state: ReaderState, frames: seq<Bytes>)

  function Emitted(step: Step): seq<Bytes> {
    if step.frame.Some? then [step.frame.value] else []
  }

  /** `processByte` applied to every byte in order. */
  function Feed(s: ReaderState, bytes: Bytes): (r: Progress)
    ensures |r.frames| <= |bytes|
    decreases |bytes|
  {
    if |bytes| == 0 then Progress(s, [])
    else
      var step := ProcessByte(s, bytes[0]);
      var rest := Feed(step.next, bytes[1..]);
      Progress(rest.state, Emitted(step) + rest.frames)
  }

  /** Continuing from a reached point with more bytes. */
  function Continue(p: Progress, bytes: Bytes): Progress
  {
    var q := Feed(p.state, bytes);
    Progress(q.state, p.frames + q.frames)
  }

  /** Feeding is compositional: the stream may be cut anywhere, as the read buffer cuts it. */
  lemma {:induction false} FeedAppend(s: ReaderState, a: Bytes, b: Bytes)
    ensures Feed(s, a + b) == Continue(Feed(s, a), b)
    decreases |a|
  {
    if |a| == 0 {
      assert a + b == b;
    } else {
      assert (a + b)[0] == a[0];
      assert (a + b)[1..] == a[1..] + b;
      FeedAppend(ProcessByte(s, a[0]).next, a[1..], b);
    }
  }

  /** One more byte: a single `processByte` step after the bytes so far. */
  lemma FeedSnoc(s: ReaderState, a: Bytes, b: Byte)
    ensures Feed(s, a + [b]).state == ProcessByte(Feed(s, a).state, b).next
    ensures Feed(s, a + [b]).frames == Feed(s, a).frames + Emitted(ProcessByte(Feed(s, a).state, b))
  {
    FeedAppend(s, a, [b]);
    var p := Feed(s, a);
    var step := ProcessByte(p.state, b);
    assert [b][1..] == [];
    assert Feed(step.next, []) == Progress(step.next, []);
    assert Feed(p.state, [b]) == Progress(step.next, Emitted(step) + []);
    assert Emitted(step) + [] == Emitted(step);
  }

  /** Writing the next byte after a filled prefix extends the prefix by that byte. */
  lemma FilledPrefix(buffer: Bytes, pos: nat, bytes: Bytes)
    requires 1 <= |bytes| && pos + |bytes| <= |buffer|
    ensures buffer[pos := bytes[0]][..pos + 1] + bytes[1..] == buffer[..pos] + bytes
  {
    var b' := buffer[pos := bytes[0]];
    assert b'[..pos + 1] == buffer[..pos] + [bytes[0]];
    assert bytes == [bytes[0]] + bytes[1..];
  }

  /**
   * The rest of a body, fed into a buffer whose first `pos` bytes are filled,
   * completes the buffer and emits it; the reader is idle again.
   */
  lemma {:induction false} FeedRest(buffer: Bytes, pos: nat, bytes: Bytes)
    requires WellFormed(ReadingBody(buffer, pos))
    requires pos + |bytes| == |buffer|
    ensures Feed(ReadingBody(buffer, pos), bytes) == Progress(WaitingForStart1, [buffer[..pos] + bytes])
    decreases |bytes|
  {
    var b' := buffer[pos := bytes[0]];
    FilledPrefix(buffer, pos, bytes);
    if |bytes| == 1 {
      assert b'[..pos + 1] + bytes[1..] == b';
      assert Feed(WaitingForStart1, bytes[1..]) == Progress(WaitingForStart1, []);
      assert [b'] + [] == [b'];
    } else {
      assert ProcessByte(ReadingBody(buffer, pos), bytes[0]).next == ReadingBody(b', pos + 1);
      FeedRest(b', pos + 1, bytes[1..]);
    }
  }

  /** The header the writer puts in front of a body. */
  function Header(size: nat): Bytes
    requires size < 0x1_0000
  {
    [Start1, Start2, size / 0x100, size % 0x100]
  }

  lemma FeedHeader(size: nat)
    requires 1 <= size <= FromRadioMaxLength
    ensures Feed(WaitingForStart1, Header(size)) == Progress(ReadingBody(Zeros(size), 0), [])
  {
    var h := Header(size);
    var msb, lsb := size / 0x100, size % 0x100;
    assert [lsb][1..] == [];
    assert Feed(WaitingForLengthLsb(msb), [lsb]) == Progress(ReadingBody(Zeros(size), 0), []);
    assert [msb, lsb][1..] == [lsb];
    assert Feed(WaitingForLengthMsb, [msb, lsb]) == Progress(ReadingBody(Zeros(size), 0), []);
    assert h[1..] == [Start2, msb, lsb];
    assert [Start2, msb, lsb][1..] == [msb, lsb];
    assert Feed(WaitingForStart2, [Start2, msb, lsb]) == Progress(ReadingBody(Zeros(size), 0), []);
  }

  /** A whole body fed into a fresh buffer fills it and emits it, and the reader is idle again. */
  lemma FeedWholeBody(body: Bytes)
    requires 1 <= |body| <= FromRadioMaxLength
    ensures Feed(ReadingBody(Zeros(|body|), 0), body) == Progress(WaitingForStart1, [body])
  {
    FeedRest(Zeros(|body|), 0, body);
    assert Zeros(|body|)[..0] + body == body;
  }

  /** Round trip: a header followed by its body, read from the idle state, emits exactly that body. */
  lemma FrameRoundTrip(body: Bytes)
    requires 1 <= |body| <= FromRadioMaxLength
    ensures Feed(WaitingForStart1, Header(|body|) + body) == Progress(WaitingForStart1, [body])
  {
    FeedHeader(|body|);
    FeedAppend(WaitingForStart1, Header(|body|), body);
    FeedWholeBody(body);
  }

  /** A run of `Start1` bytes only toggles between the first two states. */
  lemma {:induction false} Start1Run(s: ReaderState, n: nat)
    requires s == WaitingForStart1 || s == WaitingForStart2
    decreases n
    ensures Feed(s, Repeat(Start1, n)) ==
      Progress(if n % 2 == 0 then s else if s == WaitingForStart1 then WaitingForStart2 else WaitingForStart1, [])
  {
    if n > 0 {
      var next := if s == WaitingForStart1 then WaitingForStart2 else WaitingForStart1;
      assert ProcessByte(s, Start1).next == next;
      Start1Run(next, n - 1);
    }
  }

  /** The wake-up preamble leaves an idle reader idle and emits nothing. */
  lemma WakeUpIsNeutral()
    ensures Feed(WaitingForStart1, WakeUpSequence) == Progress(WaitingForStart1, [])
  {
    Start1Run(WaitingForStart1, 32);
  }

  /** A header announcing length 0 or more than 512 is dropped, and the reader is idle again. */
  lemma BadLengthResyncs(msb: Byte, lsb: Byte)
    requires msb * 0x100 + lsb == 0 || msb * 0x100 + lsb > FromRadioMaxLength
    ensures Feed(WaitingForStart1, [Start1, Start2, msb, lsb]) == Progress(WaitingForStart1, [])
  {
    assert [lsb][1..] == [];
    assert Feed(WaitingForLengthLsb(msb), [lsb]) == Progress(WaitingForStart1, []);
    assert [msb, lsb][1..] == [lsb];
    assert Feed(WaitingForLengthMsb, [msb, lsb]) == Progress(WaitingForStart1, []);
    assert [Start2, msb, lsb][1..] == [msb, lsb];
    assert Feed(WaitingForStart2, [Start2, msb, lsb]) == Progress(WaitingForStart1, []);
    assert [Start1, Start2, msb, lsb][1..] == [Start2, msb, lsb];
  }

  /**
   * A second `Start1` where `Start2` is expected returns to the idle state
   * rather than staying armed, so `0x94 0x94 0xC3` does not start a frame.
   */
  lemma DoubledStart1LosesHeader()
    ensures Feed(WaitingForStart1, [Start1, Start1, Start2]) == Progress(WaitingForStart1, [])
  {
    assert [Start2][1..] == [];
    assert Feed(WaitingForStart1, [Start2]) == Progress(WaitingForStart1, []);
    assert [Start1, Start2][1..] == [Start2];
    assert Feed(WaitingForStart2, [Start1, Start2]) == Progress(WaitingForStart1, []);
    assert [Start1, Start1, Start2][1..] == [Start1, Start2];
  }

  // ---------------------------------------------------------------- the read loop

  /** Every chunk the port returned, in order. */
  function Flatten(chunks: seq<Bytes>): Bytes {
    if |chunks| == 0 then [] else Flatten(chunks[..|chunks| - 1]) + chunks[|chunks| - 1]
  }

  /** The parsed messages among the emitted bodies; a body that fails to parse is dropped. */
  function ParseAll(frames: seq<Bytes>, parse: Bytes -> Option<FromRadio>): (r: seq<FromRadio>)
    ensures |r| <= |frames|
  {
    if |frames| == 0 then []
    else
      var last := parse(frames[|frames| - 1]);
      ParseAll(frames[..|frames| - 1], parse) + (if last.Some? then [last.value] else [])
  }

  /** When every frame parses, each one yields its message, in order. */
  lemma {:induction false} ParseAllComplete(frames: seq<Bytes>, parse: Bytes -> Option<FromRadio>)
    requires forall j :: 0 <= j < |frames| ==> parse(frames[j]).Some?
    ensures |ParseAll(frames, parse)| == |frames|
    ensures forall j :: 0 <= j < |frames| ==> ParseAll(frames, parse)[j] == parse(frames[j]).value
  {
    if |frames| > 0 {
      var prefix := frames[..|frames| - 1];
      assert forall j :: 0 <= j < |prefix| ==> prefix[j] == frames[j];
      ParseAllComplete(prefix, parse);
    }
  }

  lemma {:induction false} ParseAllAppend(a: seq<Bytes>, b: seq<Bytes>, parse: Bytes -> Option<FromRadio>)
    ensures ParseAll(a + b, parse) == ParseAll(a, parse) + ParseAll(b, parse)
    decreases |b|
  {
    if |b| == 0 {
      assert a + b == a;
    } else {
      assert (a + b)[..|a + b| - 1] == a + b[..|b| - 1];
      ParseAllAppend(a, b[..|b| - 1], parse);
    }
  }

  /** What one more byte adds to the parsed messages of a prefix of a read. */
  lemma ParsedStep(start: ReaderState, chunk: Bytes, i: nat, parse: Bytes -> Option<FromRadio>)
    requires i < |chunk|
    ensures var step := ProcessByte(Feed(start, chunk[..i]).state, chunk[i]);
      Feed(start, chunk[..i + 1]).state == step.next &&
      ParseAll(Feed(start, chunk[..i + 1]).frames, parse) ==
        ParseAll(Feed(start, chunk[..i]).frames, parse) +
        (if step.frame.Some? && parse(step.frame.value).Some? then [parse(step.frame.value).value] else [])
  {
    var step := ProcessByte(Feed(start, chunk[..i]).state, chunk[i]);
    assert chunk[..i + 1] == chunk[..i] + [chunk[i]];
    FeedSnoc(start, chunk[..i], chunk[i]);
    ParseAllAppend(Feed(start, chunk[..i]).frames, Emitted(step), parse);
    if step.frame.Some? {
      assert Emitted(step)[..0] == [];
    }
  }

  /** The reader's progress after each read in turn, continuing from where the previous read stopped. */
  function ReadAll(chunks: seq<Bytes>): (r: Progress)
    ensures r == Feed(WaitingForStart1, Flatten(chunks))
  {
    if |chunks| == 0 then Progress(WaitingForStart1, [])
    else
      var init := chunks[..|chunks| - 1];
      FeedAppend(WaitingForStart1, Flatten(init), chunks[|chunks| - 1]);
      Continue(ReadAll(init), chunks[|chunks| - 1])
  }

  /** What one more read adds to the state and the parsed messages. */
  lemma ParsedChunk(chunks: seq<Bytes>, k: nat, parse: Bytes -> Option<FromRadio>)
    requires k < |chunks|
    ensures var p := ReadAll(chunks[..k]);
      ReadAll(chunks[..k + 1]).state == Feed(p.state, chunks[k]).state &&
      ParseAll(ReadAll(chunks[..k + 1]).frames, parse) ==
        ParseAll(p.frames, parse) + ParseAll(Feed(p.state, chunks[k]).frames, parse)
  {
    assert chunks[..k + 1][..k] == chunks[..k];
    var p := ReadAll(chunks[..k]);
    ParseAllAppend(p.frames, Feed(p.state, chunks[k]).frames, parse);
  }

  lemma AppendAssoc<T>(a: seq<T>, b: seq<T>, c: seq<T>)
    ensures a + b + c == a + (b + c)
  {
  }

  /** Why the reader was closed. */
  datatype CloseCause = EndOfStream | ReadFailure | ClosedByOwner

  class ApiReader {
    /** Messages handed to the message channel, in order. */
    var messages: seq<FromRadio>
    var closed: bool
    /** How many times the teardown (cancel, close the stream and the channel) has run. */
    var teardowns: nat
    /** The cause the message channel was closed with. */
    var closeCause: Option<CloseCause>
    const parse: Bytes -> Option<FromRadio>

    /** The compare-and-set flag makes the teardown run once, and exactly when closed. */
    predicate Valid()
      reads this
    {
      teardowns == (if closed then 1 else 0) && (closeCause.Some? <==> closed)
    }

    constructor(parse: Bytes -> Option<FromRadio>)
      ensures Valid() && !closed && messages == [] && this.parse == parse
    {
      this.parse := parse;
      messages := [];
      closed := false;
      teardowns := 0;
      closeCause := None;
    }

    /** `close(cause)`: only the first call tears down; later calls change nothing. */
    method Close(cause: CloseCause)
      requires Valid()
      modifies this
      ensures Valid() && closed && teardowns == 1
      ensures closeCause == if old(closed) then old(closeCause) else Some(cause)
      ensures messages == old(messages)
    {
      if !closed {
        closed := true;
        teardowns := teardowns + 1;
        closeCause := Some(cause);
      }
    }

    /**
     * `readLoop`, launched when the reader is made: every chunk is fed byte by
     * byte through `processByte` from the idle state, each body that parses
     * is handed on, and the end of the stream closes the reader.
     */
    method ReadLoop(chunks: seq<Bytes>)
      requires Valid() && !closed
      modifies this
      ensures Valid() && closed && teardowns == 1 && closeCause == Some(EndOfStream)
      ensures messages == old(messages) + ParseAll(Feed(WaitingForStart1, Flatten(chunks)).frames, parse)
    {
      var state: ReaderState := WaitingForStart1;
      var k := 0;
      while k < |chunks|
        invariant 0 <= k <= |chunks|
        invariant Valid() && closed == old(closed)
        invariant state == ReadAll(chunks[..k]).state
        invariant messages == old(messages) + ParseAll(ReadAll(chunks[..k]).frames, parse)
      {
        ghost var p := ReadAll(chunks[..k]);
        ParsedChunk(chunks, k, parse);
        state := ProcessChunk(state, chunks[k]);
        AppendAssoc(old(messages), ParseAll(p.frames, parse), ParseAll(Feed(p.state, chunks[k]).frames, parse));
        k := k + 1;
      }
      assert chunks[..k] == chunks;
      Close(EndOfStream);
    }

    /** The inner `for` over one read: feeds each byte and hands on each body that parses. */
    method ProcessChunk(start: ReaderState, chunk: Bytes) returns (state: ReaderState)
      modifies this`messages
      ensures state == Feed(start, chunk).state
      ensures messages == old(messages) + ParseAll(Feed(start, chunk).frames, parse)
    {
      state := start;
      var i := 0;
      while i < |chunk|
        invariant 0 <= i <= |chunk|
        invariant state == Feed(start, chunk[..i]).state
        invariant messages == old(messages) + ParseAll(Feed(start, chunk[..i]).frames, parse)
      {
        ParsedStep(start, chunk, i, parse);
        var step := ProcessByte(state, chunk[i]);
        if step.frame.Some? {
          var message := parse(step.frame.value);
          if message.Some? {
            AppendAssoc(old(messages), ParseAll(Feed(start, chunk[..i]).frames, parse), [message.value]);
            messages := messages + [message.value];
          }
        }
        state := step.next;
        i := i + 1;
      }
      assert chunk[..i] == chunk;
    }
  }
}
