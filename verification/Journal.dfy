/**
 The event log as the object it is. `Valid` says that everything done to it so far, faults
 and crashes included, is a run of the log's transition system.
 */
module Journal {
  import opened Prelude
  import opened FrameStream
  import opened Frames
  import opened EventLog
  import opened EventLogRecovery

  /** How an append ends: fully, before writing, after `written` bytes, or at the sync. */
  datatype AppendFault = Written | NotOpened | WriteFailed(written: nat) | SyncFailed

  /** How an atomic file replacement ends: done, not done, or renamed but not known to be durable. */
  datatype AtomicFault = Replaced | NotReplaced | ReplacedUnknown

  /** How the repair of a torn tail ends: done, not done, or cut but not known to be durable. */
  datatype RepairFault = Repaired | NotCut | CutUnknown

  /** The log machine of the concrete event frames. */
  function EventMachine<S>(
    sha: Sha256, readable: seq<byte> -> bool, encodeState: S -> seq<byte>, decodeState: seq<byte> -> Option<S>,
    initial: S, apply: (S, seq<byte>) -> S): Machine<S>
  {
    Machine(EventFormat(sha),
            (log: seq<byte>, snapshot: nat) => Parse(EventFormat(sha), readable, log, Start, snapshot),
            sha, readable, encodeState, decodeState, initial, apply)
  }

  /** Everything proved about sound machines holds of the concrete frames and any client codec that round-trips. */
  lemma EventMachineSound<S(!new)>(
    sha: Sha256, readable: seq<byte> -> bool, encodeState: S -> seq<byte>, decodeState: seq<byte> -> Option<S>,
    initial: S, apply: (S, seq<byte>) -> S)
    requires Digests(sha) && forall s :: decodeState(encodeState(s)) == Some(s)
    ensures Sound(EventMachine(sha, readable, encodeState, decodeState, initial, apply))
  {
    EventFormatLawful(sha);
  }

  class Journal<S(!new)> {
    const machine: Machine<S>
    var log: seq<byte>
    var snapshot: Option<Envelope>
    var isOpen: bool
    var nextSequence: nat
    var eventCount: nat
    var byteLen: nat
    var reloadRequired: bool

    ghost var states: seq<LogState>
    ghost var steps: seq<LogStep>

    ghost function Now(): LogState
      requires states != []
      reads this
    {
      states[|states| - 1]
    }

    function HandleNow(): Option<Handle>
      reads this
    {
      if isOpen then Some(Handle(nextSequence, eventCount, byteLen, reloadRequired)) else None
    }

    ghost predicate Valid()
      reads this
    {
      && Sound(machine) && IsLogRun(machine, states, steps)
      && Now().disk == LogDisk(log, snapshot) && Now().handle == HandleNow()
    }

    constructor (m: Machine<S>)
      requires Sound(m)
      ensures Valid() && machine == m && states == [LogInit]
    {
      machine := m;
      log, snapshot, isOpen := [], None, false;
      nextSequence, eventCount, byteLen, reloadRequired := 0, 0, 0, false;
      states, steps := [LogInit], [];
    }

    ghost method Record(step: LogStep)
      requires Sound(machine) && IsLogRun(machine, states, steps) && LogEnabled(machine, Now(), step)
      requires LogApply(machine, Now(), step).disk == LogDisk(log, snapshot)
      requires LogApply(machine, Now(), step).handle == HandleNow()
      modifies this`states, this`steps
      ensures Valid() && Now() == LogApply(machine, old(Now()), step) && old(states) <= states
    {
      ghost var before, did := states, steps;
      states, steps := states + [LogApply(machine, Now(), step)], steps + [step];
      forall i | 0 <= i < |steps| ensures LogStepped(machine, states, steps, i) {
        if i < |did| { assert LogStepped(machine, before, did, i); }
      }
    }

    /** While no reload is required, the handle agrees with the bytes. */
    lemma InSync()
      requires Valid() && isOpen && !reloadRequired
      ensures nextSequence == |Now().events| + 1 && Now().acked == |Now().events| && byteLen == |log|
    {
      LogInvHolds(machine, states, steps, |states| - 1);
    }

    lemma ReloadOutcome()
      requires Valid()
      ensures var r := Reload(machine, LogDisk(log, snapshot));
              && (r.Err? ==> r == Err(Corrupt))
              && (r.Ok? ==> && Rebuilt(machine, r.value) == Fold(machine, machine.initial, Now().events)
                            && Now().acked <= |Now().events| <= Now().acked + 1)
    {
      var last := |states| - 1;
      ReloadSucceedsExactly(machine, states, steps, last);
      if Reload(machine, LogDisk(log, snapshot)).Ok? { ReloadRebuildsEverything(machine, states, steps, last); }
    }

    /** Reads the snapshot and the log without touching either. */
    method Replay() returns (r: Result<Reloaded<S>, LogError>)
      requires Valid()
      ensures r == Reload(machine, LogDisk(log, snapshot))
    {
      var base := Snapshot(0, machine.initial);
      if snapshot.Some? {
        var loaded := LoadSnapshot(machine, snapshot.value);
        if loaded.Err? { return Err(loaded.error); }
        base := loaded.value;
      }
      if |log| > MAX_LOG_BYTES { return Err(LimitExceeded); }
      var replay := ParseFrames(machine.format, machine.readable, log, base.finalSequence);
      assert ParsesFrames(machine, log, base.finalSequence);
      if replay.Err? { return Err(replay.error); }
      var next := Newest(replay.value.last, base.finalSequence) + 1;
      if next >= machine.format.limit || replay.value.validBytes > |log| { return Err(Corrupt); }
      r := Ok(Reloaded(base, replay.value.events, log[..replay.value.validBytes],
                       Handle(next, replay.value.frameCount, replay.value.validBytes, false)));
    }

    /** The torn tail cut off, with nothing opened. */
    method CutTail(replayed: Reloaded<S>)
      requires Valid() && Reload(machine, LogDisk(log, snapshot)) == Ok(replayed)
      modifies this`log, this`states, this`steps
      ensures Valid() && old(states) <= states && log == replayed.log
      ensures Now().events == old(Now()).events && Now().acked == old(Now()).acked
    {
      log := replayed.log;
      Record(Repair);
    }

    /** The handle over the repaired log. */
    method Resume(replayed: Reloaded<S>)
      requires Valid() && Reload(machine, LogDisk(log, snapshot)) == Ok(replayed)
      modifies this
      ensures Valid() && old(states) <= states && log == replayed.log && snapshot == old(snapshot)
      ensures Now().events == old(Now()).events && Now().acked == |Now().events|
      ensures isOpen && !reloadRequired && nextSequence == |Now().events| + 1 && byteLen == |log|
    {
      log := replayed.log;
      isOpen, reloadRequired := true, false;
      var h := replayed.handle;
      nextSequence, eventCount, byteLen := h.nextSequence, h.eventCount, h.byteLen;
      Record(Reopen);
      InSync();
    }

    /**
     `load_snapshot` and `EventLog::open`. A torn tail is cut first; if that fails, nothing is opened,
     though the tail may be gone already.
     */
    method Open(fault: RepairFault) returns (r: Result<Reloaded<S>, LogError>)
      requires Valid()
      modifies this
      ensures Valid() && old(states) <= states && snapshot == old(snapshot) && Now().events == old(Now()).events
      ensures var reload := old(Reload(machine, LogDisk(log, snapshot)));
              r == if reload.Err? then Err(Corrupt)
                   else if |reload.value.log| < |old(log)| && !fault.Repaired? then Err(MutationUnknown)
                   else reload
      // The client gets back the fold of everything that reached the log, and knows it from now on.
      ensures r.Ok? ==> && Rebuilt(machine, r.value) == Fold(machine, machine.initial, old(Now()).events)
                        && old(Now()).acked <= |old(Now()).events| <= old(Now()).acked + 1
                        && Now().acked == |Now().events|
      ensures r.Ok? ==> isOpen && !reloadRequired && nextSequence == |Now().events| + 1
      ensures r.Ok? ==> log == r.value.log && log <= old(log) && byteLen == |log|
      // A failure acknowledges nothing, keeps the old handle, and takes at most the torn tail off the log.
      ensures r.Err? ==> && Now().acked == old(Now()).acked && HandleNow() == old(HandleNow())
                         && log == if r == Err(MutationUnknown) && fault.CutUnknown?
                                   then old(Reload(machine, LogDisk(log, snapshot))).value.log else old(log)
    {
      ReloadOutcome();
      r := Replay();
      if r.Err? { return; }
      if |r.value.log| < |log| {
        if fault.NotCut? { return Err(MutationUnknown); }
        if fault.CutUnknown? {
          CutTail(r.value);
          return Err(MutationUnknown);
        }
      }
      Resume(r.value);
    }

    method Append(payload: seq<byte>, fault: AppendFault) returns (r: Result<nat, LogError>)
      requires Valid() && isOpen && machine.readable(payload) && nextSequence + 1 < machine.format.limit
      modifies this
      ensures Valid() && old(states) <= states && isOpen && snapshot == old(snapshot)
      ensures old(reloadRequired) ==> r == Err(ReloadRequired) && log == old(log)
      ensures r.Ok? <==> && !old(reloadRequired) && fault.Written? && FitsFrame(payload)
                         && old(byteLen) + FrameLength(|payload|) <= MAX_LOG_BYTES
      // An acknowledged append is the next event; anything else acknowledges nothing.
      ensures r.Ok? ==> && r.value == old(nextSequence) == |Now().events| && !reloadRequired
                        && Now().events == old(Now()).events + [payload] && Now().acked == |Now().events|
      ensures r.Err? ==> && Now().acked == old(Now()).acked
                         && (Now().events == old(Now()).events || Now().events == old(Now()).events + [payload])
      // Once the outcome is unknown, nothing is appended until a reload.
      ensures r == Err(MutationUnknown) ==> reloadRequired
      ensures r.Err? && r != Err(MutationUnknown) ==> log == old(log) && reloadRequired == old(reloadRequired)
    {
      if reloadRequired { return Err(ReloadRequired); }
      if |payload| > MAX_PAYLOAD_BYTES { return Err(LimitExceeded); }
      InSync();
      var frame := machine.format.encode(nextSequence, payload);
      assert FixedLength(machine.format, nextSequence, payload);
      if byteLen + |frame| > MAX_LOG_BYTES { return Err(LimitExceeded); }
      match fault {
        case NotOpened => return Err(Io);
        case WriteFailed(written) =>
          var n := if written < |frame| then written else |frame|;
          log := log + frame[..n];
          reloadRequired := true;
          Record(AppendUnknown(payload, n));
          r := Err(MutationUnknown);
        case SyncFailed =>
          log := log + frame[..|frame|];
          reloadRequired := true;
          Record(AppendUnknown(payload, |frame|));
          r := Err(MutationUnknown);
        case Written =>
          log := log + frame;
          r := Ok(nextSequence);
          nextSequence, eventCount, byteLen := nextSequence + 1, eventCount + 1, byteLen + |frame|;
          Record(LogStep.Append(payload));
      }
    }

    /** First atomic write of a compaction; `unknown` if it may not be durable. */
    method ReplaceSnapshot(payload: S, unknown: bool)
      requires Valid() && isOpen && !reloadRequired
      requires payload == Fold(machine, machine.initial, Now().events)
      modifies this`snapshot, this`reloadRequired, this`states, this`steps
      ensures Valid() && old(states) <= states && reloadRequired == unknown
      ensures Now().events == old(Now()).events && Now().acked == old(Now()).acked && Now().saved == |Now().events|
    {
      InSync();
      snapshot := Some(WriteSnapshot(machine, SaturatingPredecessor(nextSequence), payload));
      reloadRequired := unknown;
      Record(SaveSnapshot(unknown));
    }

    /** Second atomic write of a compaction. */
    method ReplaceLog(unknown: bool)
      requires Valid() && isOpen && !reloadRequired && Now().saved == |Now().events|
      modifies this`log, this`reloadRequired, this`eventCount, this`byteLen, this`states, this`steps
      ensures Valid() && old(states) <= states && reloadRequired == unknown
      ensures log == [] && (!unknown ==> eventCount == 0 && byteLen == 0)
      ensures Now().events == old(Now()).events && Now().acked == old(Now()).acked && Now().saved == old(Now()).saved
    {
      log := [];
      reloadRequired := unknown;
      if !unknown { eventCount, byteLen := 0, 0; }
      Record(TruncateLog(unknown));
    }

    /** `compact`: the snapshot is replaced atomically, then the log; `payload` is the fold so far. */
    method Compact(payload: S, snapshotFault: AtomicFault, logFault: AtomicFault) returns (r: Result<(), LogError>)
      requires Valid() && isOpen
      requires !reloadRequired ==> payload == Fold(machine, machine.initial, Now().events)
      modifies this
      ensures Valid() && old(states) <= states && isOpen
      ensures Now().events == old(Now()).events && Now().acked == old(Now()).acked
      ensures r.Ok? <==> !old(reloadRequired) && snapshotFault.Replaced? && logFault.Replaced?
      ensures r.Ok? ==> log == [] && eventCount == 0 && byteLen == 0 && Now().saved == |Now().events|
      ensures log == [] || log == old(log)
      // A failed truncation does not latch: the journal goes on under the new snapshot.
      ensures reloadRequired <==> || old(reloadRequired) || snapshotFault.ReplacedUnknown?
                                  || (snapshotFault.Replaced? && logFault.ReplacedUnknown?)
    {
      if reloadRequired { return Err(ReloadRequired); }
      if snapshotFault.NotReplaced? { return Err(Io); }
      ReplaceSnapshot(payload, snapshotFault.ReplacedUnknown?);
      if snapshotFault.ReplacedUnknown? { return Err(MutationUnknown); }
      if logFault.NotReplaced? { return Err(Io); }
      ReplaceLog(logFault.ReplacedUnknown?);
      r := if logFault.ReplacedUnknown? then Err(MutationUnknown) else Ok(());
    }

    method Crash()
      requires Valid()
      modifies this
      ensures Valid() && old(states) <= states && !isOpen
      ensures log == old(log) && snapshot == old(snapshot)
      ensures Now().events == old(Now()).events && Now().acked == old(Now()).acked
    {
      isOpen := false;
      Record(LogStep.Crash);
    }
  }
}
