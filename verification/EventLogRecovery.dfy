/** What a reload finds after any run of appends, compactions, faults and crashes. */
module EventLogRecovery {
  import opened Prelude
  import opened FrameStream
  import opened EventLog

  // ---------------------------------------------------------------------------
  // Folding and framing lists of events
  // ---------------------------------------------------------------------------

  lemma {:induction false} FoldSplit<S>(m: Machine<S>, from: S, a: seq<seq<byte>>, b: seq<seq<byte>>)
    ensures Fold(m, from, a + b) == Fold(m, Fold(m, from, a), b)
    decreases |a|
  {
    if a == [] {
      assert a + b == b;
    } else {
      assert (a + b)[1..] == a[1..] + b;
      FoldSplit(m, m.apply(from, a[0]), a[1..], b);
    }
  }

  lemma {:induction false} FramesAppend(f: Format, first: nat, a: seq<seq<byte>>, b: seq<byte>)
    ensures EncodeFrames(f, first, a + [b]) == EncodeFrames(f, first, a) + f.encode(first + |a|, b)
    decreases |a|
  {
    if a == [] {
      assert a + [b] == [b];
      assert EncodeFrames(f, first, [b]) == f.encode(first, b) + [];
    } else {
      assert (a + [b])[1..] == a[1..] + [b];
      FramesAppend(f, first + 1, a[1..], b);
    }
  }

  function Numbered(first: nat, payloads: seq<seq<byte>>): seq<Logged> {
    seq(|payloads|, i requires 0 <= i < |payloads| => Logged(first + i, payloads[i]))
  }

  lemma {:induction false} EventsAllPast(
    readable: seq<byte> -> bool, first: nat, payloads: seq<seq<byte>>, snapshot: nat)
    requires snapshot < first && forall i :: 0 <= i < |payloads| ==> readable(payloads[i])
    ensures EventsPast(readable, first, payloads, snapshot) == Some(Numbered(first, payloads))
    decreases |payloads|
  {
    if payloads != [] {
      EventsAllPast(readable, first + 1, payloads[1..], snapshot);
      assert Numbered(first, payloads) == [Logged(first, payloads[0])] + Numbered(first + 1, payloads[1..]);
    }
  }

  /** The events past the snapshot are the readable frames numbered above it. */
  lemma {:induction false} EventsPastSnapshot(
    readable: seq<byte> -> bool, first: nat, payloads: seq<seq<byte>>, snapshot: nat)
    requires first <= snapshot + 1 <= first + |payloads| && forall i :: 0 <= i < |payloads| ==> readable(payloads[i])
    ensures EventsPast(readable, first, payloads, snapshot)
            == Some(Numbered(snapshot + 1, payloads[snapshot + 1 - first..]))
    decreases |payloads|
  {
    if first == snapshot + 1 {
      EventsAllPast(readable, first, payloads, snapshot);
      assert payloads[0..] == payloads;
    } else {
      EventsPastSnapshot(readable, first + 1, payloads[1..], snapshot);
      assert payloads[1..][snapshot - first..] == payloads[snapshot + 1 - first..];
    }
  }

  // ---------------------------------------------------------------------------
  // A reload, state by state
  // ---------------------------------------------------------------------------

  /** The log starts where the start-of-log guard of the parser allows it to. */
  predicate StartsReadably(s: LogState) {
    s.first == 1 || s.first == s.saved + 1
  }

  /** Whatever an interrupted append leaves behind is torn; so is nothing at all. */
  lemma TailIsTorn<S(!new)>(m: Machine<S>, s: LogState)
    requires Sound(m) && LogInv(m, s)
    ensures TornTail(m.format, TailOf(m, s))
  {
    var f := m.format;
    assert FixedLength(f, 1, []) && f.encode(1, [])[..0] == [];
    forall previous, snapshot ensures f.read(TailOf(m, s), previous, snapshot) == Torn {
      if s.torn.None? {
        assert TearsCleanly(f, 1, [], 0, previous, snapshot);
      } else {
        assert TearsCleanly(f, |s.events| + 1, s.torn.value.payload, s.torn.value.length, previous, snapshot);
      }
    }
  }

  lemma KeptEvents<S>(m: Machine<S>, s: LogState)
    requires Loggable(m, s.events) && Counted(m, s)
    ensures EventsPast(m.readable, s.first, s.events[s.first - 1..], s.saved)
            == Some(Numbered(s.saved + 1, s.events[s.saved..]))
  {
    var kept := s.events[s.first - 1..];
    EventsPastSnapshot(m.readable, s.first, kept, s.saved);
    assert kept[s.saved + 1 - s.first..] == s.events[s.saved..];
  }

  /** The parse of a log that starts readably. */
  lemma LogParses<S(!new)>(m: Machine<S>, s: LogState)
    requires Sound(m) && LogInv(m, s) && StartsReadably(s)
    ensures var kept := s.events[s.first - 1..];
            m.parse(s.disk.log, s.saved)
            == Expected(m.readable, s.first, kept, |EncodeFrames(m.format, s.first, kept)|, Start, s.saved)
  {
    TailIsTorn(m, s);
    assert ParsesFrames(m, s.disk.log, s.saved);
    ParseFramesAndTail(m.format, m.readable, s.first, s.events[s.first - 1..], TailOf(m, s), Start, s.saved);
  }

  /** What a reload returns in a state whose log starts readably. */
  ghost function ReloadedFrom<S>(m: Machine<S>, s: LogState): Reloaded<S>
    requires Counted(m, s)
  {
    var frames := EncodeFrames(m.format, s.first, s.events[s.first - 1..]);
    Reloaded(Snapshot(s.saved, Fold(m, m.initial, s.events[..s.saved])),
             Numbered(s.saved + 1, s.events[s.saved..]), frames,
             Handle(|s.events| + 1, |s.events| + 1 - s.first, |frames|, false))
  }

  lemma ReloadRefused<S(!new)>(m: Machine<S>, s: LogState)
    requires Sound(m) && LogInv(m, s) && !StartsReadably(s)
    ensures Reload(m, s.disk) == Err(Corrupt)
  {
    assert ParsesFrames(m, s.disk.log, s.saved);
    WrongStartIsCorrupt(m.format, m.readable, s.first, s.events[s.first - 1..], TailOf(m, s), s.saved);
  }

  lemma ReloadAccepted<S(!new)>(m: Machine<S>, s: LogState)
    requires Sound(m) && LogInv(m, s) && StartsReadably(s)
    ensures Reload(m, s.disk) == Ok(ReloadedFrom(m, s))
  {
    LogParses(m, s);
    KeptEvents(m, s);
    var frames := EncodeFrames(m.format, s.first, s.events[s.first - 1..]);
    assert s.disk.log[..|frames|] == frames;
  }

  /** Exactly what a reload does in a state that keeps the invariant. */
  lemma ReloadExactly<S(!new)>(m: Machine<S>, s: LogState)
    requires Sound(m) && LogInv(m, s)
    ensures Reload(m, s.disk) == if StartsReadably(s) then Ok(ReloadedFrom(m, s)) else Err(Corrupt)
  {
    if StartsReadably(s) { ReloadAccepted(m, s); } else { ReloadRefused(m, s); }
  }

  // ---------------------------------------------------------------------------
  // Each step keeps the invariant
  // ---------------------------------------------------------------------------

  /** Appending one whole frame to an intact log frames one more event. */
  lemma GrownLog<S(!new)>(m: Machine<S>, s: LogState, payload: seq<byte>)
    requires Counted(m, s) && TornOk(m, s) && BytesOk(m, s) && s.torn.None?
    ensures s.disk.log + m.format.encode(|s.events| + 1, payload)
            == EncodeFrames(m.format, s.first, (s.events + [payload])[s.first - 1..])
  {
    var kept := s.events[s.first - 1..];
    assert (s.events + [payload])[s.first - 1..] == kept + [payload];
    FramesAppend(m.format, s.first, kept, payload);
  }

  /** A state with one more whole frame on disk keeps the invariant once its counters do. */
  lemma GrownKept<S(!new)>(m: Machine<S>, s: LogState, s': LogState, payload: seq<byte>)
    requires LogInv(m, s) && s.torn.None? && m.readable(payload) && FitsFrame(payload)
    requires s'.events == s.events + [payload] && s'.first == s.first && s'.saved == s.saved && s'.torn.None?
    requires s'.disk == s.disk.(log := s.disk.log + m.format.encode(|s.events| + 1, payload))
    requires |s'.disk.log| <= MAX_LOG_BYTES && Counted(m, s')
    ensures LogInv(m, s')
  {
    GrownLog(m, s, payload);
    assert s'.events[..s.saved] == s.events[..s.saved];
    assert s'.disk.log + [] == s'.disk.log;
  }

  lemma AppendKept<S(!new)>(m: Machine<S>, s: LogState, payload: seq<byte>)
    requires Sound(m) && LogInv(m, s) && LogEnabled(m, s, Append(payload))
    ensures LogInv(m, LogApply(m, s, Append(payload)))
  {
    assert FixedLength(m.format, |s.events| + 1, payload);
    GrownKept(m, s, LogApply(m, s, Append(payload)), payload);
  }

  lemma WholeFrameLands<S(!new)>(m: Machine<S>, s: LogState, payload: seq<byte>, frame: seq<byte>)
    requires LogEnabled(m, s, AppendUnknown(payload, |frame|))
    requires frame == m.format.encode(s.handle.value.nextSequence, payload)
    ensures LogApply(m, s, AppendUnknown(payload, |frame|))
            == s.(disk := s.disk.(log := s.disk.log + frame), handle := Some(Latch(s.handle.value)),
                  events := s.events + [payload], torn := None)
  {
    assert frame[..|frame|] == frame;
  }

  lemma AppendInLimboKept<S(!new)>(m: Machine<S>, s: LogState, payload: seq<byte>, frame: seq<byte>)
    requires Sound(m) && LogInv(m, s) && LogEnabled(m, s, AppendUnknown(payload, |frame|))
    requires frame == m.format.encode(s.handle.value.nextSequence, payload)
    ensures LogInv(m, LogApply(m, s, AppendUnknown(payload, |frame|)))
  {
    assert FixedLength(m.format, |s.events| + 1, payload);
    WholeFrameLands(m, s, payload, frame);
    GrownKept(m, s, LogApply(m, s, AppendUnknown(payload, |frame|)), payload);
  }

  lemma AppendTornKept<S(!new)>(m: Machine<S>, s: LogState, payload: seq<byte>, written: nat)
    requires Sound(m) && LogInv(m, s) && LogEnabled(m, s, AppendUnknown(payload, written))
    requires written < |m.format.encode(s.handle.value.nextSequence, payload)|
    ensures LogInv(m, LogApply(m, s, AppendUnknown(payload, written)))
  {
    var kept := s.events[s.first - 1..];
    assert FixedLength(m.format, |s.events| + 1, payload);
    assert EncodeFrames(m.format, s.first, kept) + [] == EncodeFrames(m.format, s.first, kept);
  }

  lemma SaveSnapshotKept<S(!new)>(m: Machine<S>, s: LogState, latched: bool)
    requires Sound(m) && LogInv(m, s) && LogEnabled(m, s, SaveSnapshot(latched))
    ensures LogInv(m, LogApply(m, s, SaveSnapshot(latched)))
  {
    assert s.events[..|s.events|] == s.events;
  }

  lemma TruncateKept<S(!new)>(m: Machine<S>, s: LogState, latched: bool)
    requires Sound(m) && LogInv(m, s) && LogEnabled(m, s, TruncateLog(latched))
    ensures LogInv(m, LogApply(m, s, TruncateLog(latched)))
  {
  }

  lemma ReopenKept<S(!new)>(m: Machine<S>, s: LogState)
    requires Sound(m) && LogInv(m, s) && LogEnabled(m, s, Reopen)
    ensures LogInv(m, LogApply(m, s, Reopen))
  {
    ReloadExactly(m, s);
    var frames := EncodeFrames(m.format, s.first, s.events[s.first - 1..]);
    assert frames + [] == frames;
  }

  lemma RepairKept<S(!new)>(m: Machine<S>, s: LogState)
    requires Sound(m) && LogInv(m, s) && LogEnabled(m, s, Repair)
    ensures LogInv(m, LogApply(m, s, Repair))
  {
    ReloadExactly(m, s);
    var frames := EncodeFrames(m.format, s.first, s.events[s.first - 1..]);
    assert frames + [] == frames;
  }

  lemma LogInvKept<S(!new)>(m: Machine<S>, s: LogState, step: LogStep)
    requires Sound(m) && LogInv(m, s) && LogEnabled(m, s, step)
    ensures LogInv(m, LogApply(m, s, step))
  {
    match step
    case Append(payload) => AppendKept(m, s, payload);
    case AppendUnknown(payload, written) =>
      var frame := m.format.encode(s.handle.value.nextSequence, payload);
      if written == |frame| {
        AppendInLimboKept(m, s, payload, frame);
      } else {
        AppendTornKept(m, s, payload, written);
      }
    case Crash =>
    case Reopen => ReopenKept(m, s);
    case Repair => RepairKept(m, s);
    case SaveSnapshot(latched) => SaveSnapshotKept(m, s, latched);
    case TruncateLog(latched) => TruncateKept(m, s, latched);
  }

  lemma {:induction false} LogInvHolds<S(!new)>(m: Machine<S>, states: seq<LogState>, steps: seq<LogStep>, i: nat)
    requires Sound(m) && IsLogRun(m, states, steps) && i < |states|
    ensures LogInv(m, states[i])
  {
    if i == 0 {
      assert EncodeFrames(m.format, 1, []) == [];
    } else {
      LogInvHolds(m, states, steps, i - 1);
      assert LogStepped(m, states, steps, i - 1);
      LogInvKept(m, states[i - 1], steps[i - 1]);
    }
  }

  // ---------------------------------------------------------------------------
  // Whole runs
  // ---------------------------------------------------------------------------

  /**
   Exactly once: whenever a reload succeeds, the snapshot and the replayed events fold to the
   acknowledged events in order, followed at most by the one append whose outcome was unknown.
   */
  lemma ReloadRebuildsEverything<S(!new)>(m: Machine<S>, states: seq<LogState>, steps: seq<LogStep>, i: nat)
    requires Sound(m) && IsLogRun(m, states, steps) && i < |states| && Reload(m, states[i].disk).Ok?
    ensures var s, r := states[i], Reload(m, states[i].disk).value;
            && Rebuilt(m, r) == Fold(m, m.initial, s.events)
            && s.acked <= |s.events| <= s.acked + 1
            && (forall k :: 0 <= k < |r.events| ==> r.events[k].sequence == r.base.finalSequence + 1 + k)
            && r.base.finalSequence + |r.events| + 1 == r.handle.nextSequence
  {
    var s := states[i];
    LogInvHolds(m, states, steps, i);
    ReloadExactly(m, s);
    var r := Reload(m, s.disk).value;
    assert Payloads(r.events) == s.events[s.saved..];
    assert s.events[..s.saved] + s.events[s.saved..] == s.events;
    FoldSplit(m, m.initial, s.events[..s.saved], s.events[s.saved..]);
  }

  /** A reload fails only as Corrupt, and exactly when the log starts neither at 1 nor right after the snapshot. */
  lemma ReloadSucceedsExactly<S(!new)>(m: Machine<S>, states: seq<LogState>, steps: seq<LogStep>, i: nat)
    requires Sound(m) && IsLogRun(m, states, steps) && i < |states|
    ensures Reload(m, states[i].disk).Ok? <==> StartsReadably(states[i])
    ensures Reload(m, states[i].disk).Err? ==> Reload(m, states[i].disk) == Err(Corrupt)
    ensures var s := states[i];
            && 1 <= s.first <= |s.events| + 1
            && EncodeFrames(m.format, s.first, s.events[s.first - 1..]) <= s.disk.log
            && (s.first == |s.events| + 1 ==> StartsReadably(s))
  {
    LogInvHolds(m, states, steps, i);
    ReloadExactly(m, states[i]);
  }

  /**
   The window in which a reload is refused opens only at a compaction's snapshot over a log that
   holds newer frames and starts past 1, and it closes only when the log is truncated.
   */
  lemma WindowOpensAndCloses<S(!new)>(m: Machine<S>, states: seq<LogState>, steps: seq<LogStep>, i: nat)
    requires Sound(m) && IsLogRun(m, states, steps) && i < |steps|
    ensures StartsReadably(states[i]) ==>
              (!StartsReadably(states[i + 1])
               <==> steps[i].SaveSnapshot? && 1 < states[i].first && states[i].saved < |states[i].events|)
    ensures !StartsReadably(states[i]) ==> (StartsReadably(states[i + 1]) <==> steps[i].TruncateLog?)
  {
    LogInvHolds(m, states, steps, i);
    assert LogStepped(m, states, steps, i);
  }

  lemma {:induction false} WindowHasACause<S(!new)>(
    m: Machine<S>, states: seq<LogState>, steps: seq<LogStep>, i: nat)
    returns (cause: nat)
    requires Sound(m) && IsLogRun(m, states, steps) && i < |states| && !StartsReadably(states[i])
    ensures cause < i && steps[cause].SaveSnapshot?
    ensures 1 < states[cause].first && states[cause].saved < |states[cause].events|
    ensures forall k :: cause <= k < i ==> !steps[k].TruncateLog?
  {
    WindowOpensAndCloses(m, states, steps, i - 1);
    if StartsReadably(states[i - 1]) {
      cause := i - 1;
    } else {
      cause := WindowHasACause(m, states, steps, i - 1);
    }
  }

  /** Every refused reload goes back to such a compaction, with no truncation since. */
  lemma RefusalHasACause<S(!new)>(m: Machine<S>, states: seq<LogState>, steps: seq<LogStep>, i: nat)
    returns (cause: nat)
    requires Sound(m) && IsLogRun(m, states, steps) && i < |states| && Reload(m, states[i].disk).Err?
    ensures cause < i && steps[cause].SaveSnapshot?
    ensures 1 < states[cause].first && states[cause].saved < |states[cause].events|
    ensures forall k :: cause <= k < i ==> !steps[k].TruncateLog?
  {
    ReloadSucceedsExactly(m, states, steps, i);
    cause := WindowHasACause(m, states, steps, i);
  }

  // ---------------------------------------------------------------------------
  // A run that ends in the window
  // ---------------------------------------------------------------------------

  lemma Extend<S(!new)>(m: Machine<S>, states: seq<LogState>, steps: seq<LogStep>, step: LogStep)
    returns (states': seq<LogState>, steps': seq<LogStep>)
    requires Sound(m) && IsLogRun(m, states, steps) && LogEnabled(m, states[|states| - 1], step)
    ensures IsLogRun(m, states', steps') && states' != []
    ensures states'[|states'| - 1] == LogApply(m, states[|states| - 1], step)
    ensures LogInv(m, states'[|states'| - 1])
  {
    states', steps' := states + [LogApply(m, states[|states| - 1], step)], steps + [step];
    forall i | 0 <= i < |steps'| ensures LogStepped(m, states', steps', i) {
      if i < |steps| { assert LogStepped(m, states, steps, i); }
    }
    LogInvHolds(m, states', steps', |states'| - 1);
  }

  /** One append and a whole compaction: the log is empty and will start at 2. */
  lemma CompactedOnce<S(!new)>(m: Machine<S>, payload: seq<byte>)
    returns (states: seq<LogState>, steps: seq<LogStep>)
    requires Sound(m) && m.format.limit > 3 && m.readable(payload) && FitsFrame(payload)
    ensures IsLogRun(m, states, steps) && states != []
    ensures var s := states[|states| - 1];
            LogInv(m, s) && Ready(s) && s.events == [payload] && s.first == 2 && s.saved == 1 && s.disk.log == []
  {
    states, steps := [LogInit], [];
    LogInvHolds(m, states, steps, 0);
    ReloadExactly(m, LogInit);
    states, steps := Extend(m, states, steps, Reopen);
    states, steps := Extend(m, states, steps, Append(payload));
    states, steps := Extend(m, states, steps, SaveSnapshot(false));
    states, steps := Extend(m, states, steps, TruncateLog(false));
  }

  /**
   The window is real: for every sound machine and any two payloads, compact once, append, and die
   between the two writes of the second compaction. Everything is on disk, and the reload is refused.
   */
  lemma SecondCompactionRefused<S(!new)>(m: Machine<S>, payload: seq<byte>, next: seq<byte>)
    returns (states: seq<LogState>, steps: seq<LogStep>)
    requires Sound(m) && m.format.limit > 3
    requires m.readable(payload) && FitsFrame(payload) && m.readable(next) && FitsFrame(next)
    ensures IsLogRun(m, states, steps) && states != []
    ensures var s := states[|states| - 1];
            && s.events == [payload, next] && s.acked == 2 && s.torn.None?
            && Reload(m, s.disk) == Err(Corrupt)
  {
    states, steps := CompactedOnce(m, payload);
    states, steps := Extend(m, states, steps, Append(next));
    states, steps := Extend(m, states, steps, SaveSnapshot(false));
    states, steps := Extend(m, states, steps, Crash);
    ReloadRefused(m, states[|states| - 1]);
  }
}
