/** Readers take no lock: each of their reads happens at some instant of a run of the protocol. */
module CommitReaders {
  import opened Prelude
  import opened CommitProtocol
  import opened CommitSafety

  datatype ReadOutcome = NotFound | Found(metadata: Metadata, content: seq<byte>) | Corrupt

  /** How often the pointer of `o` changed between the instants `a` and `b`. */
  ghost function PointerMoves(states: seq<State>, o: ObjectId, a: nat, b: nat): nat
    requires a <= b < |states|
  {
    if a == b then 0
    else
      PointerMoves(states, o, a, b - 1)
      + if Lookup(states[b - 1].disk.pointers, o) == Lookup(states[b].disk.pointers, o) then 0 else 1
  }

  lemma {:induction false} MovesAdd(states: seq<State>, o: ObjectId, a: nat, b: nat, c: nat)
    requires a <= b <= c < |states|
    ensures PointerMoves(states, o, a, c) == PointerMoves(states, o, a, b) + PointerMoves(states, o, b, c)
  {
    if b < c { MovesAdd(states, o, a, b, c - 1); }
  }

  lemma {:induction false} DifferenceIsAMove(states: seq<State>, o: ObjectId, a: nat, b: nat)
    requires a <= b < |states|
    requires Lookup(states[a].disk.pointers, o) != Lookup(states[b].disk.pointers, o)
    ensures PointerMoves(states, o, a, b) >= 1
  {
    if Lookup(states[a].disk.pointers, o) != Lookup(states[b - 1].disk.pointers, o) {
      DifferenceIsAMove(states, o, a, b - 1);
    }
  }

  /** A freshly named data file never changes its recorded content. */
  lemma {:induction false} BirthsNeverChange(
    w: World, states: seq<State>, steps: seq<Step>, a: nat, b: nat, p: DataPath)
    requires IsRun(w, states, steps) && a <= b < |states| && p in states[a].births
    ensures p in states[b].births && states[b].births[p] == states[a].births[p]
  {
    if a < b {
      BirthsNeverChange(w, states, steps, a, b - 1, p);
      assert Stepped(w, states, steps, b - 1);
    }
  }

  /**
   A file opened at instant `b` under metadata loaded at instant `a` is the version that was
   current at `a`: same length, same recorded digest, and for a plain put the same bytes.
   */
  lemma OpenedIsLoadedVersion(
    w: World, states: seq<State>, steps: seq<Step>, o: ObjectId, a: nat, b: nat)
    requires WellFormed(w) && IsRun(w, states, steps) && a <= b < |states|
    requires o in states[a].disk.pointers
    requires PathOf(o, states[a].disk.pointers[o]) in states[b].disk.data
    ensures var m := states[a].disk.pointers[o];
            var content := states[b].disk.data[PathOf(o, m)];
            IsVersion(w, states[a].disk, o, m, content)
  {
    InvHolds(w, states, steps, a);
    InvHolds(w, states, steps, b);
    var m := states[a].disk.pointers[o];
    assert FileOk(w, states[a], PathOf(o, m)) && FileOk(w, states[b], PathOf(o, m));
    if m.generation.None? { BirthsNeverChange(w, states, steps, a, b, PathOf(o, m)); }
  }

  /** `(m, content)` is the version of `o` that `d` publishes, up to digest equality of the bytes. */
  ghost predicate IsVersion(w: World, d: Disk, o: ObjectId, m: Metadata, content: seq<byte>) {
    && o in d.pointers && d.pointers[o] == m
    && PathOf(o, m) in d.data
    && |content| == m.size
    && (m.sha256.Some? ==> w.sha256(content) == m.sha256.value == w.sha256(d.data[PathOf(o, m)]))
    && (m.sha256.None? ==> content == d.data[PathOf(o, m)])
  }

  /** A missing file means the pointer has left the version it was loaded from. */
  lemma MissingMeansMoved(w: World, states: seq<State>, steps: seq<Step>, o: ObjectId, m: Metadata, t: nat)
    requires WellFormed(w) && IsRun(w, states, steps) && t < |states|
    requires PathOf(o, m) !in states[t].disk.data
    ensures o in states[t].disk.pointers ==> states[t].disk.pointers[o].dataFile != m.dataFile
  {
    InvHolds(w, states, steps, t);
  }

  /**
   `open` followed by the retry loop of `open_metadata`, its reads falling on the instants
   `at[0] <= ... <= at[4]` of an arbitrary run.
   */
  method Open(w: World, states: seq<State>, ghost steps: seq<Step>, o: ObjectId, at: seq<nat>)
    returns (r: ReadOutcome, ghost seen: nat)
    requires WellFormed(w) && IsRun(w, states, steps)
    requires |at| == 5 && at[0] <= at[1] <= at[2] <= at[3] <= at[4] < |states|
    ensures at[0] <= seen <= at[4]
    ensures r.NotFound? ==> o !in states[seen].disk.pointers
    ensures r.Found? ==> IsVersion(w, states[seen].disk, o, r.metadata, r.content)
    ensures r.Corrupt? ==> PointerMoves(states, o, at[0], at[4]) >= 2
  {
    seen := at[0];
    if o !in states[at[0]].disk.pointers { return NotFound, seen; }
    var metadata := states[at[0]].disk.pointers[o];
    for attempt := 0 to 2
      invariant seen == at[if attempt == 0 then 0 else 2]
      invariant attempt < 2
      invariant o in states[seen].disk.pointers && states[seen].disk.pointers[o] == metadata
      invariant attempt == 1 ==> PointerMoves(states, o, at[0], at[2]) >= 1
    {
      var tried, refreshed := at[2 * attempt + 1], at[2 * attempt + 2];
      var path := PathOf(o, metadata);
      if path in states[tried].disk.data {
        var content := states[tried].disk.data[path];
        OpenedIsLoadedVersion(w, states, steps, o, seen, tried);
        return if |content| == metadata.size then Found(metadata, content) else Corrupt, seen;
      }
      MissingMeansMoved(w, states, steps, o, metadata, tried);
      DifferenceIsAMove(states, o, seen, tried);
      MovesAdd(states, o, seen, tried, refreshed);
      if o !in states[refreshed].disk.pointers { return NotFound, refreshed; }
      if attempt == 0 && states[refreshed].disk.pointers[o].dataFile != metadata.dataFile {
        metadata := states[refreshed].disk.pointers[o];
        seen := refreshed;
      } else {
        if attempt == 0 {
          DifferenceIsAMove(states, o, tried, refreshed);
          MovesAdd(states, o, at[0], refreshed, at[4]);
        } else {
          MovesAdd(states, o, at[0], at[2], at[4]);
        }
        return Corrupt, seen;
      }
    }
  }
}
