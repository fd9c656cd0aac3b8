/**
 The event log with its snapshot: appends, compaction in two atomic writes, crashes and
 reloads, as a transition system over the bytes on disk.
 */
module EventLog {
  import opened Prelude
  import opened Bytes
  import opened FrameStream

  const MAX_LOG_BYTES := 32 * 1024 * 1024
  const SNAPSHOT_VERSION := 1

  /** What the log is used for: its frame format, the digest, the codecs of its client and the client's fold. */
  datatype Machine<!S> = Machine(
    format: Format,
    parse: (seq<byte>, nat) -> Result<Parsed, LogError>,
    sha256: seq<byte> -> seq<byte>,
    readable: seq<byte> -> bool,
    encodeState: S -> seq<byte>,
    decodeState: seq<byte> -> Option<S>,
    initial: S,
    apply: (S, seq<byte>) -> S)

  ghost predicate ParsesFrames<S>(m: Machine<S>, log: seq<byte>, snapshot: nat) {
    m.parse(log, snapshot) == Parse(m.format, m.readable, log, Start, snapshot)
  }

  /** The format is lawful, the parser is the parser of that format, and states survive encoding. */
  ghost predicate Sound<S(!new)>(m: Machine<S>) {
    && Lawful(m.format)
    && (forall log, snapshot :: ParsesFrames(m, log, snapshot))
    && (forall s :: m.decodeState(m.encodeState(s)) == Some(s))
  }

  // ---------------------------------------------------------------------------
  // Snapshots
  // ---------------------------------------------------------------------------

  datatype Envelope = Envelope(version: nat, finalSequence: nat, payload: seq<byte>, checksum: seq<byte>)

  datatype Snapshot<S> = Snapshot(finalSequence: nat, payload: S)

  function SnapshotChecksum<S>(m: Machine<S>, finalSequence: nat, payload: seq<byte>): seq<byte> {
    m.sha256(BigEndian(SNAPSHOT_VERSION, 4) + BigEndian(finalSequence, 8) + BigEndian(|payload|, 8) + payload)
  }

  function WriteSnapshot<S>(m: Machine<S>, finalSequence: nat, payload: S): Envelope {
    var encoded := m.encodeState(payload);
    Envelope(SNAPSHOT_VERSION, finalSequence, encoded, SnapshotChecksum(m, finalSequence, encoded))
  }

  function LoadSnapshot<S>(m: Machine<S>, file: Envelope): Result<Snapshot<S>, LogError> {
    if file.version != SNAPSHOT_VERSION then Err(UnsupportedVersion(file.version))
    else if file.checksum != SnapshotChecksum(m, file.finalSequence, file.payload) then Err(Corrupt)
    else
      var payload := m.decodeState(file.payload);
      if payload.None? then Err(Corrupt) else Ok(Snapshot(file.finalSequence, payload.value))
  }

  // ---------------------------------------------------------------------------
  // Reloading
  // ---------------------------------------------------------------------------

  datatype Handle = Handle(nextSequence: nat, eventCount: nat, byteLen: nat, reloadRequired: bool)

  datatype LogDisk = LogDisk(log: seq<byte>, snapshot: Option<Envelope>)

  /** What a reload hands its client, and the log after torn-tail repair. */
  datatype Reloaded<S> = Reloaded(base: Snapshot<S>, events: seq<Logged>, log: seq<byte>, handle: Handle)

  function BaseOf<S>(m: Machine<S>, d: LogDisk): Result<Snapshot<S>, LogError> {
    if d.snapshot.None? then Ok(Snapshot(0, m.initial)) else LoadSnapshot(m, d.snapshot.value)
  }

  function Newest(last: Previous, snapshot: nat): nat {
    if last.After? && last.sequence > snapshot then last.sequence else snapshot
  }

  /** `load_snapshot` followed by `EventLog::open`. */
  function Reload<S>(m: Machine<S>, d: LogDisk): Result<Reloaded<S>, LogError> {
    var base := BaseOf(m, d);
    if base.Err? then Err(base.error)
    else if |d.log| > MAX_LOG_BYTES then Err(LimitExceeded)
    else
      var replay := m.parse(d.log, base.value.finalSequence);
      if replay.Err? then Err(replay.error)
      else
        var next := Newest(replay.value.last, base.value.finalSequence) + 1;
        if next >= m.format.limit || replay.value.validBytes > |d.log| then Err(Corrupt)
        else
          Ok(Reloaded(base.value, replay.value.events, d.log[..replay.value.validBytes],
                      Handle(next, replay.value.frameCount, replay.value.validBytes, false)))
  }

  function Fold<S>(m: Machine<S>, from: S, events: seq<seq<byte>>): S
    decreases |events|
  {
    if events == [] then from else Fold(m, m.apply(from, events[0]), events[1..])
  }

  function Payloads(events: seq<Logged>): seq<seq<byte>> {
    seq(|events|, i requires 0 <= i < |events| => events[i].payload)
  }

  /** The client state a reload rebuilds: the snapshot, then every replayed event. */
  function Rebuilt<S>(m: Machine<S>, r: Reloaded<S>): S {
    Fold(m, r.base.payload, Payloads(r.events))
  }

  // ---------------------------------------------------------------------------
  // Steps
  // ---------------------------------------------------------------------------

  /** A frame of which only the first `length` bytes reached the log. */
  datatype Tear = Tear(payload: seq<byte>, length: nat)

  /**
   `events` are the appends that reached the log whole; the client was told so of the first
   `acked` of them. `first`, `saved` and `torn` record how the bytes came about.
   */
  datatype LogState = LogState(
    disk: LogDisk,
    handle: Option<Handle>,
    events: seq<seq<byte>>,
    acked: nat,
    first: nat,
    saved: nat,
    torn: Option<Tear>)

  datatype LogStep =
    | Append(payload: seq<byte>)
    | AppendUnknown(payload: seq<byte>, written: nat)  // write or sync failed, or the process died meanwhile
    | SaveSnapshot(latched: bool)                      // first half of a compaction; latched if not known durable
    | TruncateLog(latched: bool)                       // second half, under the snapshot just saved
    | Crash
    | Repair                                           // a reopening that cut the torn tail and then failed
    | Reopen

  const LogInit := LogState(LogDisk([], None), None, [], 0, 1, 0, None)

  predicate Ready(s: LogState) {
    s.handle.Some? && !s.handle.value.reloadRequired
  }

  predicate Accepts<S>(m: Machine<S>, s: LogState, payload: seq<byte>) {
    && Ready(s) && m.readable(payload) && FitsFrame(payload)
    && s.handle.value.byteLen + FrameLength(|payload|) <= MAX_LOG_BYTES
    && s.handle.value.nextSequence + 1 < m.format.limit
  }

  predicate LogEnabled<S>(m: Machine<S>, s: LogState, step: LogStep) {
    match step
    case Append(payload) => Accepts(m, s, payload)
    case AppendUnknown(payload, written) =>
      Accepts(m, s, payload) && written <= |m.format.encode(s.handle.value.nextSequence, payload)|
    case SaveSnapshot(_) => Ready(s)
    case TruncateLog(_) => Ready(s) && s.saved == |s.events|
    case Crash => true
    case Repair => Reload(m, s.disk).Ok?
    case Reopen => Reload(m, s.disk).Ok?
  }

  function SaturatingPredecessor(n: nat): nat {
    if n == 0 then 0 else n - 1
  }

  function Latch(h: Handle): Handle {
    h.(reloadRequired := true)
  }

  /** The snapshot a compaction writes: its client hands in the fold of all events so far. */
  function Compacted<S>(m: Machine<S>, s: LogState): Envelope
    requires Ready(s)
  {
    WriteSnapshot(m, SaturatingPredecessor(s.handle.value.nextSequence), Fold(m, m.initial, s.events))
  }

  function LogApply<S>(m: Machine<S>, s: LogState, step: LogStep): LogState
    requires LogEnabled(m, s, step)
  {
    match step
    case Append(payload) =>
      var h := s.handle.value;
      var frame := m.format.encode(h.nextSequence, payload);
      s.(disk := s.disk.(log := s.disk.log + frame),
         handle := Some(Handle(h.nextSequence + 1, h.eventCount + 1, h.byteLen + |frame|, false)),
         events := s.events + [payload], acked := s.acked + 1)
    case AppendUnknown(payload, written) =>
      var frame := m.format.encode(s.handle.value.nextSequence, payload);
      s.(disk := s.disk.(log := s.disk.log + frame[..written]),
         handle := Some(Latch(s.handle.value)),
         events := if written == |frame| then s.events + [payload] else s.events,
         torn := if written == |frame| then None else Some(Tear(payload, written)))
    case SaveSnapshot(latched) =>
      s.(disk := s.disk.(snapshot := Some(Compacted(m, s))),
         handle := Some(if latched then Latch(s.handle.value) else s.handle.value),
         saved := |s.events|)
    case TruncateLog(latched) =>
      var h := s.handle.value;
      s.(disk := s.disk.(log := []),
         handle := Some(if latched then Latch(h) else h.(eventCount := 0, byteLen := 0)),
         first := |s.events| + 1)
    case Crash => s.(handle := None)
    case Repair => s.(disk := s.disk.(log := Reload(m, s.disk).value.log), torn := None)
    case Reopen =>
      var r := Reload(m, s.disk).value;
      s.(disk := s.disk.(log := r.log), handle := Some(r.handle),
         acked := |s.events|, torn := None)
  }

  ghost predicate LogStepped<S>(m: Machine<S>, states: seq<LogState>, steps: seq<LogStep>, i: nat)
    requires |states| == |steps| + 1 && i < |steps|
  {
    LogEnabled(m, states[i], steps[i]) && states[i + 1] == LogApply(m, states[i], steps[i])
  }

  ghost predicate IsLogRun<S>(m: Machine<S>, states: seq<LogState>, steps: seq<LogStep>) {
    && |states| == |steps| + 1
    && states[0] == LogInit
    && forall i {:trigger LogStepped(m, states, steps, i)} :: 0 <= i < |steps| ==> LogStepped(m, states, steps, i)
  }

  // ---------------------------------------------------------------------------
  // The invariant
  // ---------------------------------------------------------------------------

  function TailOf<S>(m: Machine<S>, s: LogState): seq<byte>
    requires s.torn.Some? ==> s.torn.value.length <= |m.format.encode(|s.events| + 1, s.torn.value.payload)|
  {
    if s.torn.None? then [] else m.format.encode(|s.events| + 1, s.torn.value.payload)[..s.torn.value.length]
  }

  ghost predicate Loggable<S>(m: Machine<S>, events: seq<seq<byte>>) {
    forall i :: 0 <= i < |events| ==> FitsFrame(events[i]) && m.readable(events[i])
  }

  ghost predicate Counted<S>(m: Machine<S>, s: LogState) {
    && 1 <= s.first <= s.saved + 1 <= |s.events| + 1 < m.format.limit
    && s.acked <= |s.events| <= s.acked + 1
    && (s.acked < |s.events| || s.torn.Some? ==> !Ready(s))
    && (Ready(s) ==>
          && s.handle.value.nextSequence == |s.events| + 1
          && s.handle.value.eventCount == |s.events| + 1 - s.first
          && s.handle.value.byteLen == |s.disk.log|)
  }

  ghost predicate TornOk<S>(m: Machine<S>, s: LogState) {
    s.torn.Some? ==>
      && FitsFrame(s.torn.value.payload)
      && s.torn.value.length < |m.format.encode(|s.events| + 1, s.torn.value.payload)|
  }

  ghost predicate BytesOk<S>(m: Machine<S>, s: LogState)
    requires Counted(m, s) && TornOk(m, s)
  {
    && |s.disk.log| <= MAX_LOG_BYTES
    && s.disk.log == EncodeFrames(m.format, s.first, s.events[s.first - 1..]) + TailOf(m, s)
  }

  ghost predicate SnapshotOk<S>(m: Machine<S>, s: LogState)
    requires Counted(m, s)
  {
    if s.disk.snapshot.None? then s.saved == 0
    else s.disk.snapshot.value == WriteSnapshot(m, s.saved, Fold(m, m.initial, s.events[..s.saved]))
  }

  ghost predicate LogInv<S>(m: Machine<S>, s: LogState) {
    Loggable(m, s.events) && Counted(m, s) && TornOk(m, s) && BytesOk(m, s) && SnapshotOk(m, s)
  }
}
