/** A publication takes effect at most once: what replaced it stays until the receipt is retired. */
module CommitOnce {
  import opened Prelude
  import opened CommitProtocol
  import opened CommitSafety

  /** The pointer of the generation's target shows that generation. */
  predicate Shown(d: Disk, ctx: Context) {
    ctx.target in d.pointers && d.pointers[ctx.target].generation == Some(ctx.generation)
  }

  /** Before its pointer move, a publisher has a Prepared receipt, unless its own version is already visible. */
  ghost predicate PublisherOk(s: State) {
    s.job.Working? && s.job.kind.Publish? && (s.job.phase.Loaded? || s.job.phase.Proofed? || s.job.phase.Stored?) ==>
      var ctx := s.job.kind.context;
      Lookup(s.disk.receipts, ctx.operation) == Some(Prepared(ctx)) || Shown(s.disk, ctx)
  }

  lemma PublisherKept(w: World, s: State, step: Step)
    requires WellFormed(w) && Inv(w, s) && Enabled(w, s, step) && PublisherOk(s)
    ensures PublisherOk(Apply(w, s, step))
  {
    if step.WriteAhead? && s.job.previous.Some? { BackfillExact(w, s, ObjectOf(s.job.kind), s.job.previous.value); }
  }

  lemma {:induction false} PublisherHolds(w: World, states: seq<State>, steps: seq<Step>, i: nat)
    requires WellFormed(w) && IsRun(w, states, steps) && i < |states|
    ensures PublisherOk(states[i])
  {
    if i > 0 {
      PublisherHolds(w, states, steps, i - 1);
      InvHolds(w, states, steps, i - 1);
      assert Stepped(w, states, steps, i - 1);
      PublisherKept(w, states[i - 1], steps[i - 1]);
    }
  }

  /** A live generation that is not shown is not shown by the next step either, and is not what that step publishes. */
  lemma StaysHidden(w: World, s: State, step: Step, g: Uuid)
    requires WellFormed(w) && Inv(w, s) && PublisherOk(s) && Enabled(w, s, step)
    requires g in s.live && !Shown(s.disk, w.contexts[g])
    ensures Publishes(s, step) != Some(g) && !Shown(Apply(w, s, step).disk, w.contexts[g])
  {
    var o := w.contexts[g].target;
    assert Witnessed(w, s, g);
    if Lookup(Apply(w, s, step).disk.pointers, o) != Lookup(s.disk.pointers, o) { OnlyPointMoves(w, s, step, o); }
  }

  /**
   Once generation `g` was visible and its target's pointer has stopped showing it, no later step
   publishes it again and the pointer never returns to it, as long as its receipt was not retired.
   */
  lemma {:induction false} NeverPublishedAgain(
    w: World, states: seq<State>, steps: seq<Step>, i: nat, t: nat, k: nat, g: Uuid)
    requires WellFormed(w) && IsRun(w, states, steps) && i < t <= k < |steps|
    requires Publishes(states[i], steps[i]) == Some(g)
    requires g in w.contexts && !Shown(states[t].disk, w.contexts[g])
    requires forall r :: i < r < k && steps[r].Retire? ==> steps[r].generation != g
    ensures Publishes(states[k], steps[k]) != Some(g) && !Shown(states[k + 1].disk, w.contexts[g])
    decreases k
  {
    if t < k { NeverPublishedAgain(w, states, steps, i, t, k - 1, g); }
    StaysLive(w, states, steps, i, k, g);
    InvHolds(w, states, steps, k);
    PublisherHolds(w, states, steps, k);
    assert Stepped(w, states, steps, k);
    StaysHidden(w, states[k], steps[k], g);
  }
}
