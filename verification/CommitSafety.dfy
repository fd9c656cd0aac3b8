/** What every step of the commit protocol keeps, and what follows for whole runs. */
module CommitSafety {
  import opened Prelude
  import opened CommitProtocol

  // ---------------------------------------------------------------------------
  // The invariant
  // ---------------------------------------------------------------------------

  function ContextOf(r: Receipt): Context {
    match r
    case Prepared(ctx) => ctx
    case Committed(proof) => proof.prepared
  }

  function PathOf(o: ObjectId, m: Metadata): DataPath {
    DataPath(o.bucket, m.dataFile)
  }

  /** A stored file under a generation name has that context's size and digest; any other is as first written. */
  ghost predicate FileOk(w: World, s: State, p: DataPath)
    requires p in s.disk.data
  {
    var content := s.disk.data[p];
    if p.file in w.contexts then
      var ctx := w.contexts[p.file];
      p.bucket == ctx.target.bucket && |content| == ctx.size && w.sha256(content) == ctx.sha256
    else
      p in s.births && s.births[p].content == content
  }

  ghost predicate DataOk(w: World, s: State) {
    forall p :: p in s.disk.data ==> FileOk(w, s, p)
  }

  ghost predicate PublishedBy(w: World, o: ObjectId, m: Metadata, g: Uuid) {
    && g in w.contexts && w.contexts[g].target == o
    && m == PublishedMetadata(w.contexts[g], m.etag, m.modified)
  }

  ghost predicate PlainlyPut(w: World, s: State, o: ObjectId, m: Metadata) {
    && m.operation.None? && m.fence.None? && m.sha256.None?
    && m.dataFile !in w.contexts
    && PathOf(o, m) in s.births
    && s.births[PathOf(o, m)].owner == o
    && |s.births[PathOf(o, m)].content| == m.size
  }

  ghost predicate Identified(w: World, s: State, o: ObjectId, m: Metadata) {
    && m.key == o.key
    && if m.generation.Some? then PublishedBy(w, o, m, m.generation.value) else PlainlyPut(w, s, o, m)
  }

  ghost predicate PointersOk(w: World, s: State) {
    forall o :: o in s.disk.pointers ==>
      Identified(w, s, o, s.disk.pointers[o]) && PathOf(o, s.disk.pointers[o]) in s.disk.data
  }

  ghost predicate ReceiptsOk(w: World, s: State) {
    forall op :: op in s.disk.receipts ==>
      var ctx := ContextOf(s.disk.receipts[op]);
      && ctx.operation == op && Registered(w, ctx)
      && (s.disk.receipts[op].Committed? ==> s.disk.receipts[op].proof.dataFile == ctx.generation)
  }

  /** A live generation is witnessed by its Committed receipt, or by its Prepared receipt and its pointer. */
  ghost predicate Witnessed(w: World, s: State, g: Uuid) {
    && g in w.contexts
    && var ctx := w.contexts[g];
       && ctx.operation in s.disk.receipts
       && var r := s.disk.receipts[ctx.operation];
          && ContextOf(r) == ctx
          && (r.Prepared? ==> ctx.target in s.disk.pointers && s.disk.pointers[ctx.target].generation == Some(g))
  }

  ghost predicate LiveOk(w: World, s: State) {
    forall g :: g in s.live ==> Witnessed(w, s, g)
  }

  /** The exact Committed proof of `m` is on disk, when `m` is transactional. */
  ghost predicate Secured(receipts: map<Uuid, Receipt>, m: Metadata) {
    m.generation.Some? ==>
      && m.operation.Some?
      && m.operation.value in receipts
      && var r := receipts[m.operation.value];
         r.Committed? && CommittedProofOf(m, r.proof.prepared) == Ok(r.proof)
  }

  ghost predicate Unreferenced(d: Disk, p: DataPath) {
    forall o :: o in d.pointers ==> PathOf(o, d.pointers[o]) != p
  }

  ghost predicate StoredOk(w: World, s: State, kind: Kind, file: Uuid, previous: Option<Metadata>) {
    var path := DataPath(ObjectOf(kind).bucket, file);
    && !kind.Delete?
    && path in s.disk.data
    && (kind.Publish? ==> file == kind.context.generation)
    && (kind.Put? ==>
          && file !in w.contexts
          && path in s.births && s.births[path].owner == ObjectOf(kind)
          && |s.births[path].content| == kind.put.size
          && (previous.Some? ==> previous.value.dataFile != file))
  }

  ghost predicate JobOk(w: World, s: State) {
    match s.job
    case Idle => true
    case Sweeping(b) => forall o :: o in s.disk.pointers ==> o.bucket != b
    case Working(kind, phase, previous) =>
      && (kind.Publish? ==>
            && Registered(w, kind.context)
            && kind.context.operation in s.disk.receipts
            && ContextOf(s.disk.receipts[kind.context.operation]) == kind.context)
      && (phase.Loaded? || phase.Proofed? || phase.Stored? ==>
            && previous == Lookup(s.disk.pointers, ObjectOf(kind))
            && (kind.Delete? ==> previous.Some?))
      && ((phase.Proofed? || phase.Stored?) && previous.Some? ==> Secured(s.disk.receipts, previous.value))
      && (phase.Stored? ==> StoredOk(w, s, kind, phase.file, previous))
      && (phase.Pointed? || phase.Receipted? ==> forall p :: p in Garbage(s.job) ==> Unreferenced(s.disk, p))
  }

  ghost predicate Inv(w: World, s: State) {
    DataOk(w, s) && PointersOk(w, s) && ReceiptsOk(w, s) && LiveOk(w, s) && JobOk(w, s)
  }

  // ---------------------------------------------------------------------------
  // Each step keeps it
  // ---------------------------------------------------------------------------

  lemma InstalledOk(w: World, s: State, kind: Kind, file: Uuid, previous: Option<Metadata>)
    requires WellFormed(w) && StoredOk(w, s, kind, file, previous) && (kind.Publish? ==> Registered(w, kind.context))
    ensures var o, m := ObjectOf(kind), NewMetadata(kind, file).value;
            Identified(w, s, o, m) && PathOf(o, m) in s.disk.data
  {
  }

  lemma PointersKeptByPoint(w: World, s: State)
    requires WellFormed(w) && Inv(w, s) && Enabled(w, s, Point)
    ensures PointersOk(w, Apply(w, s, Point))
  {
    var s' := Apply(w, s, Point);
    forall o | o in s'.disk.pointers
      ensures Identified(w, s', o, s'.disk.pointers[o]) && PathOf(o, s'.disk.pointers[o]) in s'.disk.data
    {
      if o == ObjectOf(s.job.kind) { InstalledOk(w, s, s.job.kind, s.job.phase.file, s.job.previous); }
    }
  }

  lemma PointersKept(w: World, s: State, step: Step)
    requires WellFormed(w) && Inv(w, s) && Enabled(w, s, step)
    ensures PointersOk(w, Apply(w, s, step))
  {
    match step
    case Point => PointersKeptByPoint(w, s);
    case _ =>
  }

  /** A successful backfill yields the pointer's own context, and never displaces another context's receipt. */
  lemma BackfillExact(w: World, s: State, o: ObjectId, m: Metadata)
    requires Identified(w, s, o, m) && Backfill(o.bucket, m, s.disk.receipts).Ok?
    ensures var proof := Backfill(o.bucket, m, s.disk.receipts).value;
            if m.generation.None? then proof == None
            else
              && proof == Some(CommittedProof(w.contexts[m.generation.value], m.dataFile, m.etag))
              && var op := m.operation.value;
                 op in s.disk.receipts ==> ContextOf(s.disk.receipts[op]) == proof.value.prepared
    ensures Secured(StoreReceipt(s.disk.receipts, Backfill(o.bucket, m, s.disk.receipts).value), m)
  {
  }

  lemma ReceiptsKeptByBackfill(w: World, s: State, o: ObjectId, m: Metadata)
    requires ReceiptsOk(w, s) && Identified(w, s, o, m) && Backfill(o.bucket, m, s.disk.receipts).Ok?
    ensures ReceiptsOk(w, s.(disk := s.disk.(receipts :=
                               StoreReceipt(s.disk.receipts, Backfill(o.bucket, m, s.disk.receipts).value))))
  {
    BackfillExact(w, s, o, m);
  }

  lemma ReceiptsKept(w: World, s: State, step: Step)
    requires WellFormed(w) && Inv(w, s) && Enabled(w, s, step)
    ensures ReceiptsOk(w, Apply(w, s, step))
  {
    match step
    case BackfillObject(o) => ReceiptsKeptByBackfill(w, s, o, s.disk.pointers[o]);
    case WriteAhead =>
      if s.job.previous.Some? { ReceiptsKeptByBackfill(w, s, ObjectOf(s.job.kind), s.job.previous.value); }
    case _ =>
  }

  lemma DataKept(w: World, s: State, step: Step)
    requires WellFormed(w) && Inv(w, s) && Enabled(w, s, step)
    ensures DataOk(w, Apply(w, s, step))
  {
  }

  lemma WitnessKeptByBackfill(w: World, s: State, g: Uuid, o: ObjectId, m: Metadata)
    requires WellFormed(w) && Witnessed(w, s, g) && Identified(w, s, o, m) && Backfill(o.bucket, m, s.disk.receipts).Ok?
    ensures Witnessed(w, s.(disk := s.disk.(receipts :=
                              StoreReceipt(s.disk.receipts, Backfill(o.bucket, m, s.disk.receipts).value))), g)
  {
    BackfillExact(w, s, o, m);
  }

  lemma WitnessKept(w: World, s: State, step: Step, g: Uuid)
    requires WellFormed(w) && Inv(w, s) && Enabled(w, s, step) && Witnessed(w, s, g) && g in Apply(w, s, step).live
    ensures Witnessed(w, Apply(w, s, step), g)
  {
    match step
    case BackfillObject(o) => WitnessKeptByBackfill(w, s, g, o, s.disk.pointers[o]);
    case WriteAhead =>
      if s.job.previous.Some? { WitnessKeptByBackfill(w, s, g, ObjectOf(s.job.kind), s.job.previous.value); }
    case _ =>
  }

  lemma LiveKept(w: World, s: State, step: Step)
    requires WellFormed(w) && Inv(w, s) && Enabled(w, s, step)
    ensures LiveOk(w, Apply(w, s, step))
  {
    forall g | g in Apply(w, s, step).live ensures Witnessed(w, Apply(w, s, step), g) {
      if g in s.live { WitnessKept(w, s, step, g); }
    }
  }

  /** Two objects never name one data file. */
  lemma PathsDiffer(w: World, s: State, o: ObjectId, o': ObjectId)
    requires WellFormed(w) && PointersOk(w, s) && o in s.disk.pointers && o' in s.disk.pointers && o != o'
    ensures PathOf(o, s.disk.pointers[o]) != PathOf(o', s.disk.pointers[o'])
  {
    assert Identified(w, s, o, s.disk.pointers[o]) && Identified(w, s, o', s.disk.pointers[o']);
  }

  lemma PointKept(w: World, s: State)
    requires WellFormed(w) && Inv(w, s) && Enabled(w, s, Point)
    ensures JobOk(w, Apply(w, s, Point))
  {
    var s', target := Apply(w, s, Point), ObjectOf(s.job.kind);
    forall p | p in Garbage(s'.job) ensures Unreferenced(s'.disk, p) {
      forall o | o in s'.disk.pointers ensures PathOf(o, s'.disk.pointers[o]) != p {
        if o != target { PathsDiffer(w, s, o, target); }
      }
    }
  }

  lemma WriteAheadKept(w: World, s: State)
    requires WellFormed(w) && Inv(w, s) && Enabled(w, s, WriteAhead)
    ensures JobOk(w, Apply(w, s, WriteAhead))
  {
    if s.job.previous.Some? { BackfillExact(w, s, ObjectOf(s.job.kind), s.job.previous.value); }
  }

  lemma StoreKept(w: World, s: State, file: Uuid)
    requires WellFormed(w) && Inv(w, s) && Enabled(w, s, Store(file))
    ensures JobOk(w, Apply(w, s, Store(file)))
  {
  }

  lemma AcknowledgeKept(w: World, s: State)
    requires WellFormed(w) && Inv(w, s) && Enabled(w, s, Acknowledge)
    ensures JobOk(w, Apply(w, s, Acknowledge))
  {
    assert Garbage(Apply(w, s, Acknowledge).job) == Garbage(s.job);
  }

  lemma JobKept(w: World, s: State, step: Step)
    requires WellFormed(w) && Inv(w, s) && Enabled(w, s, step)
    ensures JobOk(w, Apply(w, s, step))
  {
    match step
    case Point => PointKept(w, s);
    case WriteAhead => WriteAheadKept(w, s);
    case Store(file) => StoreKept(w, s, file);
    case Acknowledge => AcknowledgeKept(w, s);
    case _ =>
  }

  lemma InvKept(w: World, s: State, step: Step)
    requires WellFormed(w) && Inv(w, s) && Enabled(w, s, step)
    ensures Inv(w, Apply(w, s, step))
  {
    DataKept(w, s, step);
    PointersKept(w, s, step);
    ReceiptsKept(w, s, step);
    LiveKept(w, s, step);
    JobKept(w, s, step);
  }

  lemma {:induction false} InvHolds(w: World, states: seq<State>, steps: seq<Step>, i: nat)
    requires WellFormed(w) && IsRun(w, states, steps) && i < |states|
    ensures Inv(w, states[i])
  {
    if i > 0 {
      InvHolds(w, states, steps, i - 1);
      assert Stepped(w, states, steps, i - 1);
      InvKept(w, states[i - 1], steps[i - 1]);
    }
  }

  // ---------------------------------------------------------------------------
  // Safety over whole runs
  // ---------------------------------------------------------------------------

  /** At every instant, a visible pointer names a complete data file of the recorded size and digest. */
  lemma PointersAlwaysComplete(w: World, states: seq<State>, steps: seq<Step>, i: nat, o: ObjectId)
    requires WellFormed(w) && IsRun(w, states, steps) && i < |states| && o in states[i].disk.pointers
    ensures var d := states[i].disk;
            var m := d.pointers[o];
            && m.key == o.key
            && DataPath(o.bucket, m.dataFile) in d.data
            && var content := d.data[DataPath(o.bucket, m.dataFile)];
               && |content| == m.size
               && (m.sha256.Some? <==> m.operation.Some?)
               && (m.sha256.Some? ==> w.sha256(content) == m.sha256.value)
  {
    InvHolds(w, states, steps, i);
    assert FileOk(w, states[i], PathOf(o, states[i].disk.pointers[o]));
  }

  /** Two objects never share a data file. */
  lemma DataFilesNeverShared(w: World, states: seq<State>, steps: seq<Step>, i: nat, o: ObjectId, o': ObjectId)
    requires WellFormed(w) && IsRun(w, states, steps) && i < |states|
    requires o in states[i].disk.pointers && o' in states[i].disk.pointers && o.bucket == o'.bucket && o != o'
    ensures states[i].disk.pointers[o].dataFile != states[i].disk.pointers[o'].dataFile
  {
    InvHolds(w, states, steps, i);
    PathsDiffer(w, states[i], o, o');
  }

  /** Only the pointer move of the lock holder changes a pointer, and only the one it loaded. */
  lemma OnlyPointMoves(w: World, s: State, step: Step, o: ObjectId)
    requires Enabled(w, s, step)
    requires Lookup(Apply(w, s, step).disk.pointers, o) != Lookup(s.disk.pointers, o)
    ensures step.Point? && s.job.Working? && o == ObjectOf(s.job.kind)
  {
  }

  /** A transactional pointer changes only when its exact Committed proof is already on disk. */
  lemma ReceiptWrittenAhead(w: World, states: seq<State>, steps: seq<Step>, i: nat, o: ObjectId)
    requires WellFormed(w) && IsRun(w, states, steps) && i < |steps| && o in states[i].disk.pointers
    requires states[i].disk.pointers[o].operation.Some?
    requires Lookup(states[i + 1].disk.pointers, o) != Some(states[i].disk.pointers[o])
    ensures var m := states[i].disk.pointers[o];
            && m.operation.value in states[i].disk.receipts
            && var r := states[i].disk.receipts[m.operation.value];
               r.Committed? && CommittedProofOf(m, r.proof.prepared) == Ok(r.proof)
  {
    InvHolds(w, states, steps, i);
    assert Stepped(w, states, steps, i);
    OnlyPointMoves(w, states[i], steps[i], o);
    assert Secured(states[i].disk.receipts, states[i].disk.pointers[o]);
  }

  /** The generation of step `i`, if that step makes a publication visible. */
  function Publishes(s: State, step: Step): Option<Uuid> {
    if step.Point? && s.job.Working? && s.job.kind.Publish? then Some(s.job.kind.context.generation) else None
  }

  /**
   A publication that became visible at step `i` and whose receipt no later step retired
   probes as Published or Committed, with its own context, at every later instant `j`.
   */
  lemma VisibleAlwaysProbes(w: World, states: seq<State>, steps: seq<Step>, i: nat, j: nat, g: Uuid)
    requires WellFormed(w) && IsRun(w, states, steps) && i < j < |states|
    requires Publishes(states[i], steps[i]) == Some(g)
    requires forall k :: i < k < j && steps[k].Retire? ==> steps[k].generation != g
    ensures g in w.contexts
    ensures var ctx := w.contexts[g];
            var probe := ProbeCommit(states[j].disk, ctx.operation, g);
            && probe.Ok? && (probe.value.Published? || probe.value.ProbeCommitted?)
            && probe.value.proof.prepared == ctx && probe.value.proof.dataFile == g
  {
    StaysLive(w, states, steps, i, j, g);
    InvHolds(w, states, steps, j);
    assert Witnessed(w, states[j], g);
  }

  lemma {:induction false} StaysLive(w: World, states: seq<State>, steps: seq<Step>, i: nat, j: nat, g: Uuid)
    requires WellFormed(w) && IsRun(w, states, steps) && i < j < |states|
    requires Publishes(states[i], steps[i]) == Some(g)
    requires forall k :: i < k < j && steps[k].Retire? ==> steps[k].generation != g
    ensures g in states[j].live
  {
    if i + 1 < j { StaysLive(w, states, steps, i, j - 1, g); }
    assert Stepped(w, states, steps, j - 1);
  }
}
