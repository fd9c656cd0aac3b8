/**
 Streams of numbered frames, over any frame format that obeys `Lawful`: the parse of a log,
 its exactness, and what a torn tail does to it.
 */
module FrameStream {
  import opened Prelude

  const HEADER_BYTES := 17
  const CHECKSUM_BYTES := 32
  const MAX_PAYLOAD_BYTES := 1024 * 1024

  datatype LogError = Corrupt | UnsupportedVersion(version: nat) | LimitExceeded | Io | MutationUnknown | ReloadRequired

  /** The frame a parser has just accepted, if any. */
  datatype Previous = Start | After(sequence: nat)

  datatype Head = Torn | Bad(error: LogError) | Whole(sequence: nat, payload: seq<byte>)

  datatype Logged = Logged(sequence: nat, payload: seq<byte>)

  datatype Parsed = Parsed(events: seq<Logged>, validBytes: nat, frameCount: nat, last: Previous)

  predicate FitsFrame(payload: seq<byte>) {
    |payload| <= MAX_PAYLOAD_BYTES
  }

  function FrameLength(payload: nat): nat {
    HEADER_BYTES + payload + CHECKSUM_BYTES
  }

  /** Whether a frame numbered `sequence` may come next, numbers staying below `limit`. */
  predicate Follows(limit: nat, previous: Previous, snapshot: nat, sequence: nat) {
    match previous
    case After(p) => sequence == p + 1
    case Start => sequence == 1 || sequence == if snapshot + 1 < limit then snapshot + 1 else limit - 1
  }

  // ---------------------------------------------------------------------------
  // Frame formats
  // ---------------------------------------------------------------------------

  /** `read(rest, previous, snapshot)` is what stands at the front of `rest`; frames are numbered below `limit`. */
  datatype Format = Format(
    limit: nat,
    encode: (nat, seq<byte>) -> seq<byte>,
    read: (seq<byte>, Previous, nat) -> Head)

  predicate Encodable(f: Format, sequence: nat, payload: seq<byte>) {
    sequence < f.limit && FitsFrame(payload)
  }

  /** A whole frame is read back whatever follows it, and refused only for its number. */
  ghost predicate ReadsBack(
    f: Format, sequence: nat, payload: seq<byte>, after: seq<byte>, previous: Previous, snapshot: nat)
  {
    Encodable(f, sequence, payload) ==>
      f.read(f.encode(sequence, payload) + after, previous, snapshot)
      == if Follows(f.limit, previous, snapshot, sequence) then Whole(sequence, payload) else Bad(Corrupt)
  }

  ghost predicate FixedLength(f: Format, sequence: nat, payload: seq<byte>) {
    Encodable(f, sequence, payload) ==> |f.encode(sequence, payload)| == FrameLength(|payload|)
  }

  /** A strict prefix of a frame is torn. */
  ghost predicate TearsCleanly(
    f: Format, sequence: nat, payload: seq<byte>, n: nat, previous: Previous, snapshot: nat)
  {
    Encodable(f, sequence, payload) && n < |f.encode(sequence, payload)| ==>
      f.read(f.encode(sequence, payload)[..n], previous, snapshot) == Torn
  }

  /** Whatever reads as whole is, byte for byte, the encoding of what was read. */
  ghost predicate WholeIsEncoding(f: Format, rest: seq<byte>, previous: Previous, snapshot: nat) {
    var h := f.read(rest, previous, snapshot);
    h.Whole? ==>
      && Encodable(f, h.sequence, h.payload) && Follows(f.limit, previous, snapshot, h.sequence)
      && FrameLength(|h.payload|) <= |rest|
      && rest[..FrameLength(|h.payload|)] == f.encode(h.sequence, h.payload)
  }

  ghost predicate Exact(f: Format) {
    forall rest, previous, snapshot :: WholeIsEncoding(f, rest, previous, snapshot)
  }

  ghost predicate Lawful(f: Format) {
    && 1 < f.limit
    && (forall sequence, payload, after, previous, snapshot ::
          ReadsBack(f, sequence, payload, after, previous, snapshot))
    && (forall sequence, payload :: FixedLength(f, sequence, payload))
    && (forall sequence, payload, n: nat, previous, snapshot ::
          TearsCleanly(f, sequence, payload, n, previous, snapshot))
    && Exact(f)
  }

  // ---------------------------------------------------------------------------
  // Parsing
  // ---------------------------------------------------------------------------

  /** The frames of `payloads`, numbered consecutively from `first`. */
  function EncodeFrames(f: Format, first: nat, payloads: seq<seq<byte>>): seq<byte>
    decreases |payloads|
  {
    if payloads == [] then [] else f.encode(first, payloads[0]) + EncodeFrames(f, first + 1, payloads[1..])
  }

  /** The reference parser: the front frame, then the rest. `readable` is whether a payload decodes. */
  function Parse(f: Format, readable: seq<byte> -> bool, rest: seq<byte>, previous: Previous, snapshot: nat)
    : Result<Parsed, LogError>
    decreases |rest|
  {
    var h := f.read(rest, previous, snapshot);
    if h.Torn? then Ok(Parsed([], 0, 0, previous))
    else if h.Bad? then Err(h.error)
    else if FrameLength(|h.payload|) > |rest| then Err(Corrupt)
    else
      PrependFrame(readable, h.sequence, h.payload, snapshot,
                   Parse(f, readable, rest[FrameLength(|h.payload|)..], After(h.sequence), snapshot))
  }

  /** The parse of one more frame in front of `p`. */
  function PrependFrame(
    readable: seq<byte> -> bool, sequence: nat, payload: seq<byte>, snapshot: nat, p: Result<Parsed, LogError>)
    : Result<Parsed, LogError>
  {
    if sequence > snapshot && !readable(payload) then Err(Corrupt)
    else if p.Err? then p
    else
      Ok(Parsed(if sequence > snapshot then [Logged(sequence, payload)] + p.value.events else p.value.events,
                FrameLength(|payload|) + p.value.validBytes, 1 + p.value.frameCount, p.value.last))
  }

  /** The parse of the frames already consumed, continued by that of the rest. */
  function Continue(done: Parsed, rest: Result<Parsed, LogError>): Result<Parsed, LogError> {
    if rest.Err? then rest
    else Ok(Parsed(done.events + rest.value.events, done.validBytes + rest.value.validBytes,
                   done.frameCount + rest.value.frameCount, rest.value.last))
  }

  /** Consuming one more frame leaves the overall parse unchanged. */
  lemma ContinueStep(
    readable: seq<byte> -> bool, done: Parsed, sequence: nat, payload: seq<byte>, snapshot: nat,
    rest: Result<Parsed, LogError>)
    requires sequence > snapshot ==> readable(payload)
    ensures Continue(done, PrependFrame(readable, sequence, payload, snapshot, rest))
            == Continue(Consume(done, sequence, payload, snapshot), rest)
  {
    if sequence > snapshot && rest.Ok? {
      var e := [Logged(sequence, payload)];
      assert done.events + (e + rest.value.events) == (done.events + e) + rest.value.events;
    }
  }

  lemma ContinueNothing(last: Previous, p: Result<Parsed, LogError>)
    ensures Continue(Parsed([], 0, 0, last), p) == p
  {
    if p.Ok? { assert [] + p.value.events == p.value.events; }
  }

  /** One more frame consumed. */
  function Consume(done: Parsed, sequence: nat, payload: seq<byte>, snapshot: nat): Parsed {
    Parsed(if sequence > snapshot then done.events + [Logged(sequence, payload)] else done.events,
           done.validBytes + FrameLength(|payload|), done.frameCount + 1, After(sequence))
  }

  /** The loop as a tail recursion on what is already consumed. */
  function ParseFrom(f: Format, readable: seq<byte> -> bool, bytes: seq<byte>, done: Parsed, snapshot: nat)
    : Result<Parsed, LogError>
    requires done.validBytes <= |bytes|
    decreases |bytes| - done.validBytes
  {
    var rest := bytes[done.validBytes..];
    var h := f.read(rest, done.last, snapshot);
    if h.Torn? then Ok(done)
    else if h.Bad? then Err(h.error)
    else if FrameLength(|h.payload|) > |rest| then Err(Corrupt)
    else if h.sequence > snapshot && !readable(h.payload) then Err(Corrupt)
    else ParseFrom(f, readable, bytes, Consume(done, h.sequence, h.payload, snapshot), snapshot)
  }

  lemma {:induction false} ParseFromContinues(
    f: Format, readable: seq<byte> -> bool, bytes: seq<byte>, done: Parsed, snapshot: nat)
    requires done.validBytes <= |bytes|
    ensures ParseFrom(f, readable, bytes, done, snapshot)
            == Continue(done, Parse(f, readable, bytes[done.validBytes..], done.last, snapshot))
    decreases |bytes| - done.validBytes
  {
    var rest := bytes[done.validBytes..];
    var h := f.read(rest, done.last, snapshot);
    if h.Torn? {
      assert done.events + [] == done.events;
    } else if h.Whole? && FrameLength(|h.payload|) <= |rest| && (h.sequence > snapshot ==> readable(h.payload)) {
      var done' := Consume(done, h.sequence, h.payload, snapshot);
      assert rest[FrameLength(|h.payload|)..] == bytes[done'.validBytes..];
      ParseFromContinues(f, readable, bytes, done', snapshot);
      ContinueStep(readable, done, h.sequence, h.payload, snapshot,
                   Parse(f, readable, bytes[done'.validBytes..], After(h.sequence), snapshot));
    }
  }

  lemma ParseFromStart(f: Format, readable: seq<byte> -> bool, bytes: seq<byte>, snapshot: nat)
    ensures ParseFrom(f, readable, bytes, Parsed([], 0, 0, Start), snapshot)
            == Parse(f, readable, bytes, Start, snapshot)
  {
    ParseFromContinues(f, readable, bytes, Parsed([], 0, 0, Start), snapshot);
    assert bytes[0..] == bytes;
    ContinueNothing(Start, Parse(f, readable, bytes, Start, snapshot));
  }

  /** `parse_frames`, the loop over `offset`. */
  method ParseFrames(f: Format, readable: seq<byte> -> bool, bytes: seq<byte>, snapshot: nat)
    returns (r: Result<Parsed, LogError>)
    requires Exact(f)
    ensures r == Parse(f, readable, bytes, Start, snapshot)
  {
    var done := Parsed([], 0, 0, Start);
    ParseFromStart(f, readable, bytes, snapshot);
    ghost var all := ParseFrom(f, readable, bytes, done, snapshot);
    while true
      invariant done.validBytes <= |bytes|
      invariant all == ParseFrom(f, readable, bytes, done, snapshot)
      decreases |bytes| - done.validBytes
    {
      var head := f.read(bytes[done.validBytes..], done.last, snapshot);
      assert WholeIsEncoding(f, bytes[done.validBytes..], done.last, snapshot);
      match head
      case Torn => break;
      case Bad(e) => return Err(e);
      case Whole(sequence, payload) =>
        if sequence > snapshot && !readable(payload) { return Err(Corrupt); }
        done := Consume(done, sequence, payload, snapshot);
    }
    r := Ok(done);
  }

  // ---------------------------------------------------------------------------
  // Exactness
  // ---------------------------------------------------------------------------

  /** The events a reader past `snapshot` must see among frames numbered from `first`. */
  function EventsPast(readable: seq<byte> -> bool, first: nat, payloads: seq<seq<byte>>, snapshot: nat)
    : Option<seq<Logged>>
    decreases |payloads|
  {
    if payloads == [] then Some([])
    else
      var later := EventsPast(readable, first + 1, payloads[1..], snapshot);
      if later.None? || first <= snapshot then later
      else if !readable(payloads[0]) then None
      else Some([Logged(first, payloads[0])] + later.value)
  }

  ghost predicate Framable(f: Format, payloads: seq<seq<byte>>, first: nat) {
    first + |payloads| <= f.limit && forall i :: 0 <= i < |payloads| ==> FitsFrame(payloads[i])
  }

  function LastOf(previous: Previous, first: nat, count: nat): Previous {
    if count == 0 then previous else After(first + count - 1)
  }

  ghost predicate TornTail(f: Format, tail: seq<byte>) {
    forall previous, snapshot :: f.read(tail, previous, snapshot) == Torn
  }

  /** What a whole frame does to the parse of everything behind it. */
  lemma ParseOneFrame(
    f: Format, readable: seq<byte> -> bool, sequence: nat, payload: seq<byte>, after: seq<byte>,
    previous: Previous, snapshot: nat)
    requires Lawful(f) && Encodable(f, sequence, payload)
    ensures Parse(f, readable, f.encode(sequence, payload) + after, previous, snapshot)
            == if !Follows(f.limit, previous, snapshot, sequence) then Err(Corrupt)
               else PrependFrame(readable, sequence, payload, snapshot,
                                 Parse(f, readable, after, After(sequence), snapshot))
  {
    var front := f.encode(sequence, payload);
    assert ReadsBack(f, sequence, payload, after, previous, snapshot) && FixedLength(f, sequence, payload);
    assert (front + after)[|front|..] == after;
  }

  /** What parsing `payloads`, numbered from `first` and `size` bytes long, must return. */
  function Expected(
    readable: seq<byte> -> bool, first: nat, payloads: seq<seq<byte>>, size: nat, previous: Previous, snapshot: nat)
    : Result<Parsed, LogError>
  {
    var events := EventsPast(readable, first, payloads, snapshot);
    if events.None? then Err(Corrupt)
    else Ok(Parsed(events.value, size, |payloads|, LastOf(previous, first, |payloads|)))
  }

  lemma ExpectedUnfolds(
    readable: seq<byte> -> bool, first: nat, payloads: seq<seq<byte>>, size: nat, previous: Previous, snapshot: nat)
    requires payloads != []
    ensures PrependFrame(readable, first, payloads[0], snapshot,
                         Expected(readable, first + 1, payloads[1..], size, After(first), snapshot))
            == Expected(readable, first, payloads, FrameLength(|payloads[0]|) + size, previous, snapshot)
  {
  }

  lemma FramesUnfold(f: Format, first: nat, payloads: seq<seq<byte>>, tail: seq<byte>)
    requires payloads != []
    ensures EncodeFrames(f, first, payloads) + tail
            == f.encode(first, payloads[0]) + (EncodeFrames(f, first + 1, payloads[1..]) + tail)
    ensures |EncodeFrames(f, first, payloads)|
            == |f.encode(first, payloads[0])| + |EncodeFrames(f, first + 1, payloads[1..])|
  {
  }

  /**
   Completeness, torn tails included: consecutive frames that may start here, followed by any
   torn tail, parse to exactly the events past the snapshot, and the tail is not counted.
   */
  lemma {:induction false} ParseFramesAndTail(
    f: Format, readable: seq<byte> -> bool, first: nat, payloads: seq<seq<byte>>, tail: seq<byte>,
    previous: Previous, snapshot: nat)
    requires Lawful(f) && Framable(f, payloads, first) && TornTail(f, tail)
    requires payloads != [] ==> Follows(f.limit, previous, snapshot, first)
    ensures Parse(f, readable, EncodeFrames(f, first, payloads) + tail, previous, snapshot)
            == Expected(readable, first, payloads, |EncodeFrames(f, first, payloads)|, previous, snapshot)
    decreases |payloads|
  {
    if payloads == [] {
      assert EncodeFrames(f, first, payloads) + tail == tail;
    } else {
      var size := |EncodeFrames(f, first + 1, payloads[1..])|;
      assert FitsFrame(payloads[0]) && FixedLength(f, first, payloads[0]);
      FramesUnfold(f, first, payloads, tail);
      ParseOneFrame(f, readable, first, payloads[0],
                    EncodeFrames(f, first + 1, payloads[1..]) + tail, previous, snapshot);
      ParseFramesAndTail(f, readable, first + 1, payloads[1..], tail, After(first), snapshot);
      ExpectedUnfolds(readable, first, payloads, size, previous, snapshot);
    }
  }

  /** A log whose first frame may not start here is refused, whatever follows. */
  lemma WrongStartIsCorrupt(
    f: Format, readable: seq<byte> -> bool, first: nat, payloads: seq<seq<byte>>, tail: seq<byte>, snapshot: nat)
    requires Lawful(f) && Framable(f, payloads, first) && payloads != [] && !Follows(f.limit, Start, snapshot, first)
    ensures Parse(f, readable, EncodeFrames(f, first, payloads) + tail, Start, snapshot) == Err(Corrupt)
  {
    assert FitsFrame(payloads[0]);
    FramesUnfold(f, first, payloads, tail);
    ParseOneFrame(f, readable, first, payloads[0], EncodeFrames(f, first + 1, payloads[1..]) + tail, Start, snapshot);
  }

  /** `bytes` splits into the frames of `payloads` and something that reads as torn. */
  ghost predicate SplitsInto(
    f: Format, bytes: seq<byte>, first: nat, payloads: seq<seq<byte>>, size: nat, previous: Previous, snapshot: nat)
  {
    && Framable(f, payloads, first)
    && (payloads != [] ==> Follows(f.limit, previous, snapshot, first))
    && size <= |bytes| && bytes[..size] == EncodeFrames(f, first, payloads)
    && f.read(bytes[size..], LastOf(previous, first, |payloads|), snapshot) == Torn
  }

  lemma SplitGrows(
    f: Format, bytes: seq<byte>, sequence: nat, payload: seq<byte>, first: nat, payloads: seq<seq<byte>>, size: nat,
    previous: Previous, snapshot: nat)
    requires Encodable(f, sequence, payload) && Follows(f.limit, previous, snapshot, sequence)
    requires |bytes| >= FrameLength(|payload|) && bytes[..FrameLength(|payload|)] == f.encode(sequence, payload)
    requires SplitsInto(f, bytes[FrameLength(|payload|)..], first, payloads, size, After(sequence), snapshot)
    ensures SplitsInto(f, bytes, sequence, [payload] + payloads, FrameLength(|payload|) + size, previous, snapshot)
  {
    var length := FrameLength(|payload|);
    assert ([payload] + payloads)[1..] == payloads;
    assert bytes[..length + size] == bytes[..length] + bytes[length..][..size];
    assert bytes[length + size..] == bytes[length..][size..];
    if payloads == [] {
      assert EncodeFrames(f, sequence + 1, payloads) == EncodeFrames(f, first, payloads);
    }
  }

  /**
   Soundness: whatever bytes parse are consecutive frames followed by something torn, and the
   result says exactly which.
   */
  lemma {:induction false} ParsedAreFrames(
    f: Format, readable: seq<byte> -> bool, bytes: seq<byte>, previous: Previous, snapshot: nat)
    returns (first: nat, payloads: seq<seq<byte>>)
    requires Exact(f) && Parse(f, readable, bytes, previous, snapshot).Ok?
    ensures var p := Parse(f, readable, bytes, previous, snapshot);
            && SplitsInto(f, bytes, first, payloads, p.value.validBytes, previous, snapshot)
            && p == Expected(readable, first, payloads, p.value.validBytes, previous, snapshot)
    decreases |bytes|
  {
    var h := f.read(bytes, previous, snapshot);
    assert WholeIsEncoding(f, bytes, previous, snapshot);
    if h.Torn? {
      first, payloads := 0, [];
      assert bytes[0..] == bytes;
    } else {
      var rest := bytes[FrameLength(|h.payload|)..];
      var next, later := ParsedAreFrames(f, readable, rest, After(h.sequence), snapshot);
      first, payloads := h.sequence, [h.payload] + later;
      var q := Parse(f, readable, rest, After(h.sequence), snapshot);
      SplitGrows(f, bytes, h.sequence, h.payload, next, later, q.value.validBytes, previous, snapshot);
      assert payloads[1..] == later;
      if later == [] {
        assert EventsPast(readable, first + 1, later, snapshot) == EventsPast(readable, next, later, snapshot);
      }
      ExpectedUnfolds(readable, first, payloads, q.value.validBytes, previous, snapshot);
    }
  }
}
