/** A probe never reports a publication that did not happen. */
module CommitProbes {
  import opened Prelude
  import opened CommitProtocol
  import opened CommitSafety

  /** Before the instant `i`, some step made generation `g` visible. */
  ghost predicate EverVisible(states: seq<State>, steps: seq<Step>, i: nat, g: Uuid)
    requires |states| == |steps| + 1 && i <= |steps|
  {
    exists k :: 0 <= k < i && Publishes(states[k], steps[k]) == Some(g)
  }

  /** Everything the state says was published, was. */
  ghost predicate Earned(states: seq<State>, steps: seq<Step>, i: nat)
    requires |states| == |steps| + 1 && i <= |steps|
  {
    var s := states[i];
    && (forall o :: o in s.disk.pointers && s.disk.pointers[o].generation.Some? ==>
          EverVisible(states, steps, i, s.disk.pointers[o].generation.value))
    && (forall op :: op in s.disk.receipts && s.disk.receipts[op].Committed? ==>
          EverVisible(states, steps, i, s.disk.receipts[op].proof.prepared.generation))
    && (s.job.Working? && s.job.kind.Publish? && (s.job.phase.Pointed? || s.job.phase.Receipted?) ==>
          EverVisible(states, steps, i, s.job.kind.context.generation))
  }

  /** What a step newly claims as published, it publishes itself or was claimed before. */
  lemma PointerEarned(w: World, states: seq<State>, steps: seq<Step>, i: nat, o: ObjectId)
    requires IsRun(w, states, steps) && i < |steps| && Earned(states, steps, i)
    requires o in states[i + 1].disk.pointers && states[i + 1].disk.pointers[o].generation.Some?
    ensures EverVisible(states, steps, i + 1, states[i + 1].disk.pointers[o].generation.value)
  {
    assert Stepped(w, states, steps, i);
    var s, g := states[i], states[i + 1].disk.pointers[o].generation.value;
    if o in s.disk.pointers && s.disk.pointers[o].generation == Some(g) {
    } else {
      assert Publishes(s, steps[i]) == Some(g);
    }
  }

  lemma ReceiptEarned(w: World, states: seq<State>, steps: seq<Step>, i: nat, op: Uuid)
    requires WellFormed(w) && IsRun(w, states, steps) && i < |steps| && Earned(states, steps, i)
    requires op in states[i + 1].disk.receipts && states[i + 1].disk.receipts[op].Committed?
    ensures EverVisible(states, steps, i + 1, states[i + 1].disk.receipts[op].proof.prepared.generation)
  {
    assert Stepped(w, states, steps, i);
    InvHolds(w, states, steps, i);
    var s := states[i];
    var r := states[i + 1].disk.receipts[op];
    if Lookup(s.disk.receipts, op) != Some(r) {
      match steps[i]
      case BackfillObject(o) => BackfillExact(w, s, o, s.disk.pointers[o]);
      case WriteAhead => BackfillExact(w, s, ObjectOf(s.job.kind), s.job.previous.value);
      case _ =>
    }
  }

  lemma {:induction false} EarnedHolds(w: World, states: seq<State>, steps: seq<Step>, i: nat)
    requires WellFormed(w) && IsRun(w, states, steps) && i < |states|
    ensures Earned(states, steps, i)
  {
    if i > 0 {
      EarnedHolds(w, states, steps, i - 1);
      assert Stepped(w, states, steps, i - 1);
      var s := states[i];
      forall o | o in s.disk.pointers && s.disk.pointers[o].generation.Some?
        ensures EverVisible(states, steps, i, s.disk.pointers[o].generation.value)
      {
        PointerEarned(w, states, steps, i - 1, o);
      }
      forall op | op in s.disk.receipts && s.disk.receipts[op].Committed?
        ensures EverVisible(states, steps, i, s.disk.receipts[op].proof.prepared.generation)
      {
        ReceiptEarned(w, states, steps, i - 1, op);
      }
      JobEarned(w, states, steps, i - 1);
    }
  }

  lemma JobEarned(w: World, states: seq<State>, steps: seq<Step>, i: nat)
    requires IsRun(w, states, steps) && i < |steps| && Earned(states, steps, i)
    ensures var job := states[i + 1].job;
            job.Working? && job.kind.Publish? && (job.phase.Pointed? || job.phase.Receipted?) ==>
              EverVisible(states, steps, i + 1, job.kind.context.generation)
  {
    assert Stepped(w, states, steps, i);
    var job := states[i + 1].job;
    if job.Working? && job.kind.Publish? && (job.phase.Pointed? || job.phase.Receipted?) {
      var g := job.kind.context.generation;
      if steps[i].Point? {
        assert Publishes(states[i], steps[i]) == Some(g);
      } else {
      }
    }
  }

  /**
   In every run, a probe that answers Published or Committed for a generation speaks of a
   publication that was visible before, and of its registered context.
   */
  lemma ProbeNeverInvents(w: World, states: seq<State>, steps: seq<Step>, i: nat, operation: Uuid, g: Uuid)
    requires WellFormed(w) && IsRun(w, states, steps) && i < |states|
    requires var p := ProbeCommit(states[i].disk, operation, g);
             p.Ok? && (p.value.Published? || p.value.ProbeCommitted?)
    ensures EverVisible(states, steps, i, g)
    ensures g in w.contexts && w.contexts[g].operation == operation
    ensures var proof := ProbeCommit(states[i].disk, operation, g).value.proof;
            proof.prepared == w.contexts[g] && proof.dataFile == g
  {
    EarnedHolds(w, states, steps, i);
    InvHolds(w, states, steps, i);
  }

  /** A probe never fails, answers Absent exactly without a receipt, and Prepared only of what is not visible. */
  lemma ProbeAnswers(w: World, states: seq<State>, steps: seq<Step>, i: nat, operation: Uuid, g: Uuid)
    requires WellFormed(w) && IsRun(w, states, steps) && i < |states|
    ensures var p := ProbeCommit(states[i].disk, operation, g);
            && p.Ok?
            && (p.value.Absent? <==> operation !in states[i].disk.receipts)
            && (operation in states[i].disk.receipts && GenerationOf(states[i].disk.receipts[operation]) != g ==>
                  p.value.Mismatch?)
            && (p.value.ProbePrepared? ==>
                  && Lookup(w.contexts, g) == Some(p.value.context) && p.value.context.operation == operation
                  && forall o :: o in states[i].disk.pointers ==> states[i].disk.pointers[o].generation != Some(g))
  {
    InvHolds(w, states, steps, i);
  }
}
