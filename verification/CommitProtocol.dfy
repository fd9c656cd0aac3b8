/**
 The local commit protocol as a labelled transition system.

 A metadata pointer per object names a data file; a receipt per operation is first
 Prepared and then Committed. Every rename, write and removal that other processes can
 see is one step, and `Stop` (a crash, or an error return) may follow any of them.
 */
module CommitProtocol {
  import opened Prelude

  type Uuid = nat

  datatype ObjectId = ObjectId(bucket: string, key: string)

  datatype DataPath = DataPath(bucket: string, file: Uuid)

  datatype Checksum = Checksum(algorithm: string, value: string)

  /** The echoed object headers; compared as a whole by `CommittedProofOf`. */
  datatype Attributes = Attributes(
    contentType: string,
    representationHeaders: map<string, string>,
    userMetadata: map<string, string>,
    tags: map<string, string>,
    checksum: Option<Checksum>)

  /** A publication identity; the prepared proof stores exactly these fields. */
  datatype Context = Context(
    operation: Uuid,
    generation: Uuid,
    fence: nat,
    target: ObjectId,
    attributes: Attributes,
    size: nat,
    sha256: string)

  datatype Metadata = Metadata(
    key: string,
    attributes: Attributes,
    etag: string,
    size: nat,
    dataFile: Uuid,
    modified: int,
    sha256: Option<string>,
    operation: Option<Uuid>,
    generation: Option<Uuid>,
    fence: Option<nat>)

  datatype CommittedProof = CommittedProof(prepared: Context, dataFile: Uuid, etag: string)

  datatype Receipt = Prepared(context: Context) | Committed(proof: CommittedProof)

  datatype StoreError = ProofMismatch | CorruptMetadata | Failed

  datatype Disk = Disk(
    pointers: map<ObjectId, Metadata>,
    data: map<DataPath, seq<byte>>,
    receipts: map<Uuid, Receipt>,
    temps: map<Uuid, seq<byte>>)

  // ---------------------------------------------------------------------------
  // Proof construction
  // ---------------------------------------------------------------------------

  /** The metadata a publication of `ctx` writes. */
  function PublishedMetadata(ctx: Context, etag: string, modified: int): Metadata {
    Metadata(ctx.target.key, ctx.attributes, etag, ctx.size, ctx.generation, modified,
             Some(ctx.sha256), Some(ctx.operation), Some(ctx.generation), Some(ctx.fence))
  }

  /** `committed_proof`: every field of the metadata must restate the prepared context. */
  function CommittedProofOf(m: Metadata, ctx: Context): (r: Result<CommittedProof, StoreError>)
    ensures r.Ok? <==> m == PublishedMetadata(ctx, m.etag, m.modified)
    ensures r.Ok? ==> r.value.prepared == ctx && r.value.dataFile == m.dataFile && r.value.etag == m.etag
  {
    if || m.operation != Some(ctx.operation)
       || m.generation != Some(ctx.generation)
       || m.fence != Some(ctx.fence)
       || m.key != ctx.target.key
       || m.attributes != ctx.attributes
       || m.size != ctx.size
       || m.sha256 != Some(ctx.sha256)
       || m.dataFile != ctx.generation
    then Err(ProofMismatch)
    else Ok(CommittedProof(ctx, m.dataFile, m.etag))
  }

  /** The context a metadata file claims to come from; `None` for a plain put. */
  function ClaimedContext(bucket: string, m: Metadata): Result<Option<Context>, StoreError> {
    if m.operation.Some? && m.generation.Some? && m.fence.Some? then
      if m.sha256.None? then Err(CorruptMetadata)
      else Ok(Some(Context(m.operation.value, m.generation.value, m.fence.value,
                           ObjectId(bucket, m.key), m.attributes, m.size, m.sha256.value)))
    else if m.operation.Some? || m.generation.Some? || m.fence.Some? then Err(CorruptMetadata)
    else Ok(None)
  }

  /** `backfill_metadata_proof`: the receipt that must be on disk before `m` may be replaced. */
  function Backfill(bucket: string, m: Metadata, receipts: map<Uuid, Receipt>)
    : (r: Result<Option<CommittedProof>, StoreError>)
  {
    match ClaimedContext(bucket, m)
    case Err(e) => Err(e)
    case Ok(None) => Ok(None)
    case Ok(Some(ctx)) =>
      match CommittedProofOf(m, ctx)
      case Err(e) => Err(e)
      case Ok(proof) =>
        match Lookup<Uuid, Receipt>(receipts, ctx.operation)
        case Some(Committed(existing)) => if existing == proof then Ok(Some(proof)) else Err(ProofMismatch)
        case Some(Prepared(existing)) => if existing == ctx then Ok(Some(proof)) else Err(ProofMismatch)
        case None => Ok(Some(proof))
  }

  function StoreReceipt(receipts: map<Uuid, Receipt>, proof: Option<CommittedProof>): map<Uuid, Receipt> {
    match proof
    case None => receipts
    case Some(p) => receipts[p.prepared.operation := Committed(p)]
  }

  // ---------------------------------------------------------------------------
  // States
  // ---------------------------------------------------------------------------

  datatype PutRequest = PutRequest(
    target: ObjectId, temp: Uuid, contentType: string, size: nat, etag: string, modified: int)

  datatype Kind =
    | Put(put: PutRequest)
    | Publish(context: Context, temp: Uuid, etag: string, modified: int)
    | Delete(victim: ObjectId)

  /** How far the holder of the mutation lock has come. */
  datatype Phase = Loaded | Proofed | Stored(file: Uuid) | Pointed(file: Uuid) | Receipted(file: Uuid)

  datatype Job =
    | Idle
    | Working(kind: Kind, phase: Phase, previous: Option<Metadata>)
    | Sweeping(bucket: string)

  datatype Birth = Birth(owner: ObjectId, content: seq<byte>)

  /**
   `live` and `births` are history: the generations that have been visible and were not
   retired since, and what each freshly named data file held when it appeared.
   */
  datatype State = State(disk: Disk, job: Job, live: set<Uuid>, births: map<DataPath, Birth>)

  /**
   What a run cannot choose: which context each generation id belongs to, and the digest
   function, about which nothing is assumed.
   */
  datatype World = World(contexts: map<Uuid, Context>, sha256: seq<byte> -> string)

  predicate Registered(w: World, ctx: Context) {
    ctx.generation in w.contexts && w.contexts[ctx.generation] == ctx
  }

  ghost predicate WellFormed(w: World) {
    forall g :: g in w.contexts ==> w.contexts[g].generation == g
  }

  function ObjectOf(kind: Kind): ObjectId {
    match kind
    case Put(put) => put.target
    case Publish(ctx, _, _, _) => ctx.target
    case Delete(o) => o
  }

  /** The pointer content the job installs: none when it deletes. */
  function NewMetadata(kind: Kind, file: Uuid): Option<Metadata> {
    match kind
    case Put(put) =>
      Some(Metadata(put.target.key, Attributes(put.contentType, map[], map[], map[], None), put.etag,
                    put.size, file, put.modified, None, None, None, None))
    case Publish(ctx, _, etag, modified) => Some(PublishedMetadata(ctx, etag, modified))
    case Delete(_) => None
  }

  const Init := State(Disk(map[], map[], map[], map[]), Idle, {}, map[])

  // ---------------------------------------------------------------------------
  // Steps
  // ---------------------------------------------------------------------------

  datatype Step =
    | WriteTemp(id: Uuid, content: seq<byte>)
    | DropTemp(id: Uuid)
    | Prepare(context: Context)
    | BackfillObject(pointer: ObjectId)
    | Retire(operation: Uuid, generation: Uuid)
    | Begin(kind: Kind)
    | BeginSweep(bucket: string)
    | WriteAhead                 // backfill of the version about to be replaced
    | Store(file: Uuid)          // temp renamed onto its data path
    | Point                      // metadata renamed into place, or removed
    | Acknowledge                // publication receipt becomes Committed
    | Reclaim                    // previous data file removed
    | SweepFile(file: Uuid)
    | Stop

  function TempOf(kind: Kind): Uuid
    requires !kind.Delete?
  {
    if kind.Put? then kind.put.temp else kind.temp
  }

  predicate Enabled(w: World, s: State, step: Step) {
    var d := s.disk;
    match step
    case WriteTemp(id, _) => id !in d.temps
    case DropTemp(id) => true
    case Prepare(ctx) => s.job.Idle? && Registered(w, ctx) && ctx.operation !in d.receipts
    case BackfillObject(o) => s.job.Idle? && o in d.pointers && Backfill(o.bucket, d.pointers[o], d.receipts).Ok?
    case Retire(op, gen) => s.job.Idle? && op in d.receipts && GenerationOf(d.receipts[op]) == gen
    case Begin(Put(put)) => s.job.Idle? && put.temp in d.temps && |d.temps[put.temp]| == put.size
    case Begin(Publish(ctx, temp, _, _)) =>
      && s.job.Idle? && Registered(w, ctx) && temp in d.temps
      && |d.temps[temp]| == ctx.size && w.sha256(d.temps[temp]) == ctx.sha256
      && Lookup(d.receipts, ctx.operation) == Some(Prepared(ctx))
    case Begin(Delete(o)) => s.job.Idle? && o in d.pointers
    case BeginSweep(b) => s.job.Idle? && forall o :: o in d.pointers ==> o.bucket != b
    case WriteAhead =>
      && s.job.Working? && s.job.phase.Loaded?
      && (s.job.previous.Some? ==> Backfill(ObjectOf(s.job.kind).bucket, s.job.previous.value, d.receipts).Ok?)
    case Store(file) =>
      && s.job.Working? && s.job.phase.Proofed? && !s.job.kind.Delete?
      && TempOf(s.job.kind) in d.temps
      && TempIntact(w, s.job.kind, d.temps[TempOf(s.job.kind)])
      && (s.job.kind.Put? ==> file !in w.contexts && DataPath(ObjectOf(s.job.kind).bucket, file) !in s.births)
      && (s.job.kind.Publish? ==> file == s.job.kind.context.generation)
    case Point =>
      && s.job.Working?
      && if s.job.kind.Delete? then s.job.phase.Proofed? else s.job.phase.Stored?
    case Acknowledge => s.job.Working? && s.job.phase.Pointed? && s.job.kind.Publish?
    case Reclaim =>
      && s.job.Working?
      && if s.job.kind.Publish? then s.job.phase.Receipted? else s.job.phase.Pointed?
    case SweepFile(_) => s.job.Sweeping?
    case Stop => true
  }

  /** Temp files are private: what was measured before taking the lock is what gets renamed. */
  predicate TempIntact(w: World, kind: Kind, content: seq<byte>) {
    match kind
    case Put(put) => |content| == put.size
    case Publish(ctx, _, _, _) => |content| == ctx.size && w.sha256(content) == ctx.sha256
    case Delete(_) => true
  }

  function GenerationOf(r: Receipt): Uuid {
    match r
    case Prepared(ctx) => ctx.generation
    case Committed(proof) => proof.prepared.generation
  }

  function Install(pointers: map<ObjectId, Metadata>, o: ObjectId, m: Option<Metadata>): map<ObjectId, Metadata> {
    match m
    case None => pointers - {o}
    case Some(meta) => pointers[o := meta]
  }

  function Apply(w: World, s: State, step: Step): State
    requires Enabled(w, s, step)
  {
    var d := s.disk;
    match step
    case WriteTemp(id, content) => s.(disk := d.(temps := d.temps[id := content]))
    case DropTemp(id) => s.(disk := d.(temps := d.temps - {id}))
    case Prepare(ctx) => s.(disk := d.(receipts := d.receipts[ctx.operation := Receipt.Prepared(ctx)]))
    case BackfillObject(o) =>
      s.(disk := d.(receipts := StoreReceipt(d.receipts, Backfill(o.bucket, d.pointers[o], d.receipts).value)))
    case Retire(op, gen) => s.(disk := d.(receipts := d.receipts - {op}), live := s.live - {gen})
    case Begin(kind) => s.(job := Working(kind, Loaded, Lookup(d.pointers, ObjectOf(kind))))
    case BeginSweep(b) => s.(job := Sweeping(b))
    case WriteAhead =>
      var job := s.job.(phase := Proofed);
      if s.job.previous.None? then s.(job := job)
      else
        var proof := Backfill(ObjectOf(s.job.kind).bucket, s.job.previous.value, d.receipts).value;
        s.(job := job, disk := d.(receipts := StoreReceipt(d.receipts, proof)))
    case Store(file) =>
      var content := d.temps[TempOf(s.job.kind)];
      var path := DataPath(ObjectOf(s.job.kind).bucket, file);
      s.(job := s.job.(phase := Stored(file)),
         disk := d.(data := d.data[path := content], temps := d.temps - {TempOf(s.job.kind)}),
         births := if s.job.kind.Put? then s.births[path := Birth(ObjectOf(s.job.kind), content)] else s.births)
    case Point =>
      var file := if s.job.kind.Delete? then 0 else s.job.phase.file;
      var o := ObjectOf(s.job.kind);
      s.(job := s.job.(phase := Pointed(file)),
         disk := d.(pointers := Install(d.pointers, o, NewMetadata(s.job.kind, file))),
         live := if s.job.kind.Publish? then s.live + {s.job.kind.context.generation} else s.live)
    case Acknowledge =>
      var ctx := s.job.kind.context;
      s.(job := s.job.(phase := Receipted(s.job.phase.file)),
         disk := d.(receipts := d.receipts[ctx.operation :=
                                             Committed(CommittedProof(ctx, ctx.generation, s.job.kind.etag))]))
    case Reclaim => s.(job := Idle, disk := d.(data := d.data - Garbage(s.job)))
    case SweepFile(file) => s.(disk := d.(data := d.data - {DataPath(s.job.bucket, file)}))
    case Stop => s.(job := Idle)
  }

  /** The data file the last step removes: the replaced version, unless it was republished. */
  function Garbage(job: Job): set<DataPath>
    requires job.Working?
  {
    if job.previous.None? then {}
    else if job.kind.Publish? && job.previous.value.dataFile == job.kind.context.generation then {}
    else {DataPath(ObjectOf(job.kind).bucket, job.previous.value.dataFile)}
  }

  ghost predicate Stepped(w: World, states: seq<State>, steps: seq<Step>, i: nat)
    requires |states| == |steps| + 1 && i < |steps|
  {
    Enabled(w, states[i], steps[i]) && states[i + 1] == Apply(w, states[i], steps[i])
  }

  ghost predicate IsRun(w: World, states: seq<State>, steps: seq<Step>) {
    && |states| == |steps| + 1
    && states[0] == Init
    && forall i {:trigger Stepped(w, states, steps, i)} :: 0 <= i < |steps| ==> Stepped(w, states, steps, i)
  }

  // ---------------------------------------------------------------------------
  // Probing
  // ---------------------------------------------------------------------------

  datatype Probe =
    | Absent
    | ProbePrepared(context: Context)
    | Published(proof: CommittedProof)
    | ProbeCommitted(proof: CommittedProof)
    | Mismatch

  function ProbeCommit(d: Disk, operation: Uuid, generation: Uuid): Result<Probe, StoreError> {
    match Lookup<Uuid, Receipt>(d.receipts, operation)
    case None => Ok(Absent)
    case Some(Committed(proof)) =>
      Ok(if proof.prepared.generation == generation then ProbeCommitted(proof) else Mismatch)
    case Some(Prepared(ctx)) =>
      if ctx.generation != generation then Ok(Mismatch) else
      match Lookup<ObjectId, Metadata>(d.pointers, ctx.target)
      case None => Ok(ProbePrepared(ctx))
      case Some(m) =>
        if m.operation == Some(operation) && m.generation == Some(generation) then
          match CommittedProofOf(m, ctx)
          case Ok(proof) => Ok(Published(proof))
          case Err(e) => Err(e)
        else if m.operation.Some? then Ok(Mismatch)
        else Ok(ProbePrepared(ctx))
  }
}
