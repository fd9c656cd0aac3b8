/** When the write-ahead backfill lets a visible version be replaced, and when only retiring its receipt will. */
module CommitRetry {
  import opened Prelude
  import opened CommitProtocol
  import opened CommitSafety

  /** Whether the version `o` publishes may be overwritten, deleted or republished. */
  predicate Blocked(d: Disk, o: ObjectId) {
    o in d.pointers && Backfill(o.bucket, d.pointers[o], d.receipts).Err?
  }

  /**
   In every reachable state a visible version is blocked exactly when its operation's receipt
   was made for another context, or was committed under another etag.
   */
  lemma BlockedExactly(w: World, states: seq<State>, steps: seq<Step>, i: nat, o: ObjectId)
    requires WellFormed(w) && IsRun(w, states, steps) && i < |states| && o in states[i].disk.pointers
    ensures Blocked(states[i].disk, o) <==> Disputed(states[i].disk, states[i].disk.pointers[o])
  {
    InvHolds(w, states, steps, i);
  }

  /** The receipt of the operation that published `m` is of another generation, or of another etag. */
  predicate Disputed(d: Disk, m: Metadata) {
    && m.operation.Some? && m.operation.value in d.receipts
    && var r := d.receipts[m.operation.value];
       Some(ContextOf(r).generation) != m.generation || (r.Committed? && r.proof.etag != m.etag)
  }

  /** A retry that finds its receipt still Prepared is never blocked by its own lost publication. */
  lemma LostReceiptNeverBlocksRetry(w: World, states: seq<State>, steps: seq<Step>, i: nat, ctx: Context)
    requires WellFormed(w) && IsRun(w, states, steps) && i < |states| && Registered(w, ctx)
    requires Lookup(states[i].disk.receipts, ctx.operation) == Some(Prepared(ctx))
    requires Blocked(states[i].disk, ctx.target)
    ensures states[i].disk.pointers[ctx.target].generation != Some(ctx.generation)
  {
    InvHolds(w, states, steps, i);
  }

  // ---------------------------------------------------------------------------
  // A discipline under which nothing is ever blocked
  // ---------------------------------------------------------------------------

  /** Operation ids are not shared between generations. */
  ghost predicate OperationsDistinct(w: World) {
    forall g, g' :: g in w.contexts && g' in w.contexts && w.contexts[g].operation == w.contexts[g'].operation ==>
      g == g'
  }

  /** Every attempt to publish a generation names the same etag. */
  ghost predicate EtagsAgree(etags: Uuid -> string, steps: seq<Step>) {
    forall i :: 0 <= i < |steps| ==> StepEtagAgrees(etags, steps[i])
  }

  predicate StepEtagAgrees(etags: Uuid -> string, step: Step) {
    step.Begin? && step.kind.Publish? ==> step.kind.etag == etags(step.kind.context.generation)
  }

  ghost predicate PointersAgree(etags: Uuid -> string, d: Disk) {
    forall o :: o in d.pointers && d.pointers[o].generation.Some? ==>
      d.pointers[o].etag == etags(d.pointers[o].generation.value)
  }

  ghost predicate ReceiptsAgree(etags: Uuid -> string, receipts: map<Uuid, Receipt>) {
    forall op :: op in receipts && receipts[op].Committed? ==>
      receipts[op].proof.etag == etags(receipts[op].proof.prepared.generation)
  }

  ghost predicate JobAgrees(etags: Uuid -> string, job: Job) {
    job.Working? && job.kind.Publish? ==> job.kind.etag == etags(job.kind.context.generation)
  }

  ghost predicate Agreed(etags: Uuid -> string, s: State) {
    PointersAgree(etags, s.disk) && ReceiptsAgree(etags, s.disk.receipts) && JobAgrees(etags, s.job)
  }

  lemma BackfillAgrees(w: World, etags: Uuid -> string, s: State, o: ObjectId)
    requires Inv(w, s) && Agreed(etags, s) && o in s.disk.pointers
    requires Backfill(o.bucket, s.disk.pointers[o], s.disk.receipts).Ok?
    ensures ReceiptsAgree(etags, StoreReceipt(s.disk.receipts,
                                              Backfill(o.bucket, s.disk.pointers[o], s.disk.receipts).value))
  {
    BackfillExact(w, s, o, s.disk.pointers[o]);
  }

  lemma AgreementKept(w: World, etags: Uuid -> string, s: State, step: Step)
    requires WellFormed(w) && Inv(w, s) && Agreed(etags, s) && Enabled(w, s, step) && StepEtagAgrees(etags, step)
    ensures Agreed(etags, Apply(w, s, step))
  {
    match step
    case BackfillObject(o) => BackfillAgrees(w, etags, s, o);
    case WriteAhead => if s.job.previous.Some? { BackfillAgrees(w, etags, s, ObjectOf(s.job.kind)); }
    case _ =>
  }

  lemma {:induction false} AgreementHolds(
    w: World, etags: Uuid -> string, states: seq<State>, steps: seq<Step>, i: nat)
    requires WellFormed(w) && IsRun(w, states, steps) && EtagsAgree(etags, steps) && i < |states|
    ensures Agreed(etags, states[i])
  {
    if i > 0 {
      AgreementHolds(w, etags, states, steps, i - 1);
      InvHolds(w, states, steps, i - 1);
      assert Stepped(w, states, steps, i - 1) && StepEtagAgrees(etags, steps[i - 1]);
      AgreementKept(w, etags, states[i - 1], steps[i - 1]);
    }
  }

  /** With one etag per generation and one generation per operation, no version is ever blocked. */
  lemma NeverBlockedWithOneEtag(
    w: World, etags: Uuid -> string, states: seq<State>, steps: seq<Step>, i: nat, o: ObjectId)
    requires WellFormed(w) && OperationsDistinct(w)
    requires IsRun(w, states, steps) && EtagsAgree(etags, steps) && i < |states|
    ensures !Blocked(states[i].disk, o)
  {
    AgreementHolds(w, etags, states, steps, i);
    if o in states[i].disk.pointers {
      InvHolds(w, states, steps, i);
      BlockedExactly(w, states, steps, i, o);
    }
  }

  // ---------------------------------------------------------------------------
  // Two etags for one generation can block it
  // ---------------------------------------------------------------------------

  lemma Extend(w: World, states: seq<State>, steps: seq<Step>, step: Step)
    returns (states': seq<State>, steps': seq<Step>)
    requires IsRun(w, states, steps) && Enabled(w, states[|states| - 1], step)
    ensures IsRun(w, states', steps')
    ensures states' != [] && states'[|states'| - 1] == Apply(w, states[|states| - 1], step)
  {
    states', steps' := states + [Apply(w, states[|states| - 1], step)], steps + [step];
    forall i | 0 <= i < |steps'| ensures Stepped(w, states', steps', i) {
      if i < |steps| { assert Stepped(w, states, steps, i); }
    }
  }

  /** A publication of `ctx` that dies right after moving the pointer. */
  lemma PublishUntilPointer(
    w: World, states: seq<State>, steps: seq<Step>, ctx: Context, content: seq<byte>, etag: string)
    returns (states': seq<State>, steps': seq<Step>)
    requires IsRun(w, states, steps) && Registered(w, ctx)
    requires |content| == ctx.size && w.sha256(content) == ctx.sha256
    requires var s := states[|states| - 1];
             && s.job.Idle? && s.disk.temps == map[]
             && Lookup(s.disk.receipts, ctx.operation) == Some(Prepared(ctx)) && !Blocked(s.disk, ctx.target)
    ensures IsRun(w, states', steps')
    ensures states' != []
    ensures var s, s' := states[|states| - 1], states'[|states'| - 1];
            && s'.job.Idle? && s'.disk.temps == map[]
            && s'.disk.pointers == s.disk.pointers[ctx.target := PublishedMetadata(ctx, etag, 0)]
            && s'.disk.receipts == if ctx.target !in s.disk.pointers then s.disk.receipts
                                   else StoreReceipt(
                                     s.disk.receipts,
                                     Backfill(ctx.target.bucket, s.disk.pointers[ctx.target], s.disk.receipts).value)
  {
    states', steps' := Extend(w, states, steps, WriteTemp(0, content));
    states', steps' := Extend(w, states', steps', Begin(Publish(ctx, 0, etag, 0)));
    states', steps' := Extend(w, states', steps', WriteAhead);
    states', steps' := Extend(w, states', steps', Store(ctx.generation));
    states', steps' := Extend(w, states', steps', Point);
    states', steps' := Extend(w, states', steps', Stop);
  }

  /**
   For every context and every two etags: publish under the first, die before the receipt,
   retry under the second, die again. The version is then visible and blocked.
   */
  lemma OtherEtagBlocks(w: World, ctx: Context, content: seq<byte>, etag: string, etag': string)
    returns (states: seq<State>, steps: seq<Step>)
    requires WellFormed(w) && Registered(w, ctx) && |content| == ctx.size && w.sha256(content) == ctx.sha256
    requires etag != etag'
    ensures IsRun(w, states, steps) && Blocked(states[|states| - 1].disk, ctx.target)
  {
    states, steps := Extend(w, [Init], [], Step.Prepare(ctx));
    states, steps := PublishUntilPointer(w, states, steps, ctx, content, etag);
    states, steps := PublishUntilPointer(w, states, steps, ctx, content, etag');
  }

  // ---------------------------------------------------------------------------
  // Blocked until retired
  // ---------------------------------------------------------------------------

  /** `o` still shows the disputed version `m`, and whoever works on it has come no further than loading it. */
  ghost predicate Stuck(s: State, o: ObjectId, m: Metadata) {
    && Lookup(s.disk.pointers, o) == Some(m) && Disputed(s.disk, m)
    && (s.job.Working? && ObjectOf(s.job.kind) == o ==> s.job.phase.Loaded?)
  }

  lemma StuckKeptByAcknowledge(w: World, s: State, o: ObjectId, m: Metadata)
    requires WellFormed(w) && Inv(w, s) && Enabled(w, s, Acknowledge) && Stuck(s, o, m)
    ensures Stuck(Apply(w, s, Acknowledge), o, m)
  {
    assert Identified(w, s, o, m);
  }

  /** No other step touches a receipt that is there, but its retirement. */
  lemma ReceiptKept(w: World, s: State, step: Step, op: Uuid)
    requires Enabled(w, s, step) && op in s.disk.receipts
    requires !step.BackfillObject? && !step.WriteAhead? && !step.Acknowledge?
    requires step.Retire? ==> step.operation != op
    ensures Lookup(Apply(w, s, step).disk.receipts, op) == Some(s.disk.receipts[op])
  {
  }

  /** A backfill that succeeds leaves a disputed receipt as it is. */
  lemma DisputeKeptByBackfill(d: Disk, bucket: string, other: Metadata, m: Metadata)
    requires Disputed(d, m) && Backfill(bucket, other, d.receipts).Ok?
    requires other.operation == m.operation && other.generation == m.generation ==> other == m
    ensures Disputed(d.(receipts := StoreReceipt(d.receipts, Backfill(bucket, other, d.receipts).value)), m)
  {
  }

  lemma StuckKeptByBackfill(w: World, s: State, step: Step, o: ObjectId, m: Metadata)
    requires WellFormed(w) && Inv(w, s) && Enabled(w, s, step) && Stuck(s, o, m)
    requires step.BackfillObject? || step.WriteAhead?
    ensures Stuck(Apply(w, s, step), o, m)
  {
    assert Identified(w, s, o, m);
    var target := if step.BackfillObject? then step.pointer else ObjectOf(s.job.kind);
    if target in s.disk.pointers {
      assert Identified(w, s, target, s.disk.pointers[target]);
      DisputeKeptByBackfill(s.disk, target.bucket, s.disk.pointers[target], m);
    }
  }

  lemma StuckKept(w: World, s: State, step: Step, o: ObjectId, m: Metadata)
    requires WellFormed(w) && Inv(w, s) && Enabled(w, s, step) && Stuck(s, o, m)
    requires step.Retire? ==> Some(step.operation) != m.operation
    ensures Stuck(Apply(w, s, step), o, m)
  {
    if step.BackfillObject? || step.WriteAhead? {
      StuckKeptByBackfill(w, s, step, o, m);
    } else if step.Acknowledge? {
      StuckKeptByAcknowledge(w, s, o, m);
    } else {
      ReceiptKept(w, s, step, m.operation.value);
      if Lookup(Apply(w, s, step).disk.pointers, o) != Some(m) { OnlyPointMoves(w, s, step, o); }
    }
  }

  /** Once nobody is at work, a blocked version stays visible and blocked until its operation's receipt is retired. */
  lemma {:induction false} BlockedUntilRetired(
    w: World, states: seq<State>, steps: seq<Step>, i: nat, j: nat, o: ObjectId)
    requires WellFormed(w) && IsRun(w, states, steps) && i <= j < |states|
    requires states[i].job.Idle? && Blocked(states[i].disk, o)
    requires forall k :: i <= k < j && steps[k].Retire? ==>
               Some(steps[k].operation) != states[i].disk.pointers[o].operation
    ensures Blocked(states[j].disk, o) && states[j].disk.pointers[o] == states[i].disk.pointers[o]
  {
    StaysStuck(w, states, steps, i, j, o);
    InvHolds(w, states, steps, j);
  }

  lemma {:induction false} StaysStuck(w: World, states: seq<State>, steps: seq<Step>, i: nat, j: nat, o: ObjectId)
    requires WellFormed(w) && IsRun(w, states, steps) && i <= j < |states|
    requires states[i].job.Idle? && Blocked(states[i].disk, o)
    requires forall k :: i <= k < j && steps[k].Retire? ==>
               Some(steps[k].operation) != states[i].disk.pointers[o].operation
    ensures Stuck(states[j], o, states[i].disk.pointers[o])
    decreases j
  {
    if i == j {
      InvHolds(w, states, steps, i);
    } else {
      StaysStuck(w, states, steps, i, j - 1, o);
      InvHolds(w, states, steps, j - 1);
      assert Stepped(w, states, steps, j - 1);
      StuckKept(w, states[j - 1], steps[j - 1], o, states[i].disk.pointers[o]);
    }
  }

  /** Retiring that receipt lifts the block. */
  lemma RetiringUnblocks(w: World, states: seq<State>, steps: seq<Step>, i: nat, o: ObjectId)
    requires WellFormed(w) && IsRun(w, states, steps) && i < |steps| && o in states[i].disk.pointers
    requires steps[i].Retire? && Some(steps[i].operation) == states[i].disk.pointers[o].operation
    ensures !Blocked(states[i + 1].disk, o)
  {
    assert Stepped(w, states, steps, i);
    BlockedExactly(w, states, steps, i + 1, o);
  }
}
