/**
 The file store as the object it is: its mutators reassign the four directories one
 file-system call at a time. Each call is recorded, so `Valid` says that everything the
 store has ever done is a run of the commit protocol. `fault` is the number of file-system
 calls that succeed before the process dies or the next call fails.
 */
module FileStore {
  import opened Prelude
  import opened CommitProtocol
  import opened CommitSafety

  /** The checks before a publication starts: an error, the proof already stored, or leave to proceed. */
  function PublishGate(w: World, d: Disk, temp: Uuid, ctx: Context): Result<Option<CommittedProof>, StoreError> {
    if temp !in d.temps then Err(Failed)
    else if |d.temps[temp]| != ctx.size || w.sha256(d.temps[temp]) != ctx.sha256 then Err(ProofMismatch)
    else
      match Lookup<Uuid, Receipt>(d.receipts, ctx.operation)
      case Some(Prepared(existing)) => if existing == ctx then Ok(None) else Err(ProofMismatch)
      case Some(Committed(existing)) => if existing.prepared == ctx then Ok(Some(existing)) else Err(ProofMismatch)
      case None => Err(ProofMismatch)
  }

  predicate Replaceable(d: Disk, o: ObjectId) {
    o in d.pointers ==> Backfill(o.bucket, d.pointers[o], d.receipts).Ok?
  }

  /** The receipts once the version of `o` is secured. */
  function SecuredReceipts(d: Disk, o: ObjectId): map<Uuid, Receipt> {
    if o in d.pointers && Replaceable(d, o)
    then StoreReceipt(d.receipts, Backfill(o.bucket, d.pointers[o], d.receipts).value)
    else d.receipts
  }

  /** How a single durable write ends: known to be durable, without effect, or done but not known to be durable. */
  datatype Call = Durable | Lost | Unconfirmed

  /** How the first of several calls ends when `fault` of them succeed and a second one has to follow. */
  function WriteAfter(fault: nat): Call {
    if fault == 0 then Lost else if fault == 1 then Unconfirmed else Durable
  }

  class LocalStore {
    const world: World
    var pointers: map<ObjectId, Metadata>
    var data: map<DataPath, seq<byte>>
    var receipts: map<Uuid, Receipt>
    var temps: map<Uuid, seq<byte>>

    ghost var states: seq<State>
    ghost var steps: seq<Step>

    function OnDisk(): Disk
      reads this
    {
      Disk(pointers, data, receipts, temps)
    }

    ghost function Now(): State
      requires states != []
      reads this
    {
      states[|states| - 1]
    }

    ghost predicate Tracks()
      reads this
    {
      WellFormed(world) && IsRun(world, states, steps) && Now().disk == OnDisk()
    }

    ghost predicate Valid()
      reads this
    {
      Tracks() && Now().job.Idle?
    }

    constructor (w: World)
      requires WellFormed(w)
      ensures Valid() && world == w && OnDisk() == Init.disk
    {
      world := w;
      pointers, data, receipts, temps := map[], map[], map[], map[];
      states, steps := [Init], [];
    }

    ghost method Record(step: Step)
      requires WellFormed(world) && IsRun(world, states, steps) && Enabled(world, Now(), step)
      requires Apply(world, Now(), step).disk == OnDisk()
      modifies this`states, this`steps
      ensures Tracks() && Now() == Apply(world, old(Now()), step)
      ensures old(states) <= states
    {
      ghost var before, did := states, steps;
      states, steps := states + [Apply(world, Now(), step)], steps + [step];
      forall i | 0 <= i < |steps| ensures Stepped(world, states, steps, i) {
        if i < |did| { assert Stepped(world, before, did, i); }
      }
    }

    method PrepareTransaction(ctx: Context, call: Call) returns (r: Result<Context, StoreError>)
      requires Valid() && Registered(world, ctx)
      modifies this
      ensures Valid() && old(states) <= states
      ensures r.Ok? <==> if old(ctx.operation in receipts) then old(ContextOf(receipts[ctx.operation])) == ctx
                         else call.Durable?
      ensures r.Ok? ==> r.value == ctx && ctx.operation in receipts && ContextOf(receipts[ctx.operation]) == ctx
      ensures pointers == old(pointers) && data == old(data) && temps == old(temps)
      ensures receipts == if old(ctx.operation in receipts) || call.Lost? then old(receipts)
                          else old(receipts)[ctx.operation := Prepared(ctx)]
    {
      if ctx.operation in receipts {
        match receipts[ctx.operation]
        case Prepared(existing) => return if existing == ctx then Ok(existing) else Err(ProofMismatch);
        case Committed(existing) =>
          return if existing.prepared == ctx then Ok(existing.prepared) else Err(ProofMismatch);
      }
      if call.Lost? { return Err(Failed); }
      receipts := receipts[ctx.operation := Prepared(ctx)];
      Record(Step.Prepare(ctx));
      r := if call.Durable? then Ok(ctx) else Err(Failed);
    }

    // -------------------------------------------------------------------------
    // One file-system call each, performed by the holder of the mutation lock
    // -------------------------------------------------------------------------

    ghost predicate Holding(kind: Kind, phase: Phase, previous: Option<Metadata>)
      reads this
    {
      Tracks() && Now().job == Working(kind, phase, previous)
    }

    /** The mutation lock is dropped early: an error return or a crash. */
    ghost method Abandon()
      requires Tracks()
      modifies this`states, this`steps
      ensures Valid() && old(states) <= states
    {
      Record(Stop);
    }

    ghost method Lock(kind: Kind)
      requires Valid() && Enabled(world, Now(), Begin(kind))
      modifies this`states, this`steps
      ensures Holding(kind, Loaded, Lookup(pointers, ObjectOf(kind))) && Now().births == old(Now().births)
      ensures old(states) <= states
    {
      Record(Begin(kind));
    }

    /**
     `backfill_metadata_proof` on the version about to be replaced; `call` is how its receipt gets
     written. The lock is released if it fails.
     */
    method SecurePrevious(kind: Kind, previous: Option<Metadata>, call: Call) returns (r: Result<(), StoreError>)
      requires Holding(kind, Loaded, previous) && previous == Lookup(pointers, ObjectOf(kind))
      modifies this`receipts, this`states, this`steps
      ensures old(states) <= states
      ensures r.Ok? <==> call.Durable? && old(Replaceable(OnDisk(), ObjectOf(kind)))
      ensures r.Err? ==> Valid()
      ensures r.Ok? ==> Holding(kind, Proofed, previous) && Now().births == old(Now().births)
      ensures !call.Lost? && previous.Some? && old(Replaceable(OnDisk(), ObjectOf(kind))) ==>
                Secured(receipts, previous.value)
      ensures receipts == if call.Lost? then old(receipts) else old(SecuredReceipts(OnDisk(), ObjectOf(kind)))
    {
      if previous.Some? {
        var proof := Backfill(ObjectOf(kind).bucket, previous.value, receipts);
        if proof.Err? || call.Lost? {
          Abandon();
          return Err(if proof.Err? then proof.error else Failed);
        }
        BackfillSecures(ObjectOf(kind));
        receipts := StoreReceipt(receipts, proof.value);
      }
      Record(WriteAhead);
      if !call.Durable? {
        Abandon();
        return Err(Failed);
      }
      r := Ok(());
    }

    method RenameTemp(kind: Kind, file: Uuid, ghost previous: Option<Metadata>)
      requires Holding(kind, Proofed, previous) && Enabled(world, Now(), Store(file))
      modifies this`data, this`temps, this`states, this`steps
      ensures Holding(kind, Stored(file), previous)
      ensures data == old(data)[DataPath(ObjectOf(kind).bucket, file) := old(temps[TempOf(kind)])]
      ensures temps == old(temps) - {TempOf(kind)}
      ensures old(states) <= states
    {
      data := data[DataPath(ObjectOf(kind).bucket, file) := temps[TempOf(kind)]];
      temps := temps - {TempOf(kind)};
      Record(Store(file));
    }

    method RenameMetadata(kind: Kind, file: Uuid, ghost previous: Option<Metadata>)
      requires !kind.Delete? && Holding(kind, Stored(file), previous)
      modifies this`pointers, this`states, this`steps
      ensures Holding(kind, Pointed(file), previous)
      ensures pointers == old(pointers)[ObjectOf(kind) := NewMetadata(kind, file).value]
      ensures old(states) <= states
    {
      pointers := pointers[ObjectOf(kind) := NewMetadata(kind, file).value];
      Record(Point);
    }

    method RemoveMetadata(kind: Kind, ghost previous: Option<Metadata>)
      requires kind.Delete? && Holding(kind, Proofed, previous)
      modifies this`pointers, this`states, this`steps
      ensures Holding(kind, Pointed(0), previous)
      ensures pointers == old(pointers) - {ObjectOf(kind)}
      ensures old(states) <= states
    {
      pointers := pointers - {ObjectOf(kind)};
      Record(Point);
    }

    method WriteReceipt(kind: Kind, ghost previous: Option<Metadata>) returns (r: Result<CommittedProof, StoreError>)
      requires kind.Publish? && Holding(kind, Pointed(kind.context.generation), previous)
      modifies this`receipts, this`states, this`steps
      ensures r == Ok(CommittedProof(kind.context, kind.context.generation, kind.etag))
      ensures Holding(kind, Receipted(kind.context.generation), previous)
      ensures receipts == old(receipts)[kind.context.operation := Committed(r.value)]
      ensures old(states) <= states
    {
      r := CommittedProofOf(PublishedMetadata(kind.context, kind.etag, kind.modified), kind.context);
      receipts := receipts[kind.context.operation := Committed(r.value)];
      Record(Acknowledge);
    }

    method RemoveReplaced(kind: Kind, ghost phase: Phase, previous: Metadata)
      requires Holding(kind, phase, Some(previous)) && Enabled(world, Now(), Reclaim)
      requires kind.Publish? ==> previous.dataFile != kind.context.generation
      modifies this`data, this`states, this`steps
      ensures Valid() && data == old(data) - {PathOf(ObjectOf(kind), previous)}
      ensures old(states) <= states
    {
      data := data - {PathOf(ObjectOf(kind), previous)};
      Record(Reclaim);
    }

    /** A fresh file name differs from the one the object's pointer already uses. */
    lemma FreshNameIsNew(o: ObjectId, file: Uuid)
      requires Tracks() && file !in world.contexts && DataPath(o.bucket, file) !in Now().births
      ensures o in pointers ==> pointers[o].dataFile != file
    {
      InvHolds(world, states, steps, |states| - 1);
    }

    lemma BackfillSecures(o: ObjectId)
      requires Tracks() && o in pointers && Backfill(o.bucket, pointers[o], receipts).Ok?
      ensures Secured(StoreReceipt(receipts, Backfill(o.bucket, pointers[o], receipts).value), pointers[o])
    {
      InvHolds(world, states, steps, |states| - 1);
      BackfillExact(world, Now(), o, pointers[o]);
    }

    lemma CommittedNamesGeneration(op: Uuid)
      requires Tracks() && op in receipts && receipts[op].Committed?
      ensures receipts[op].proof.dataFile == receipts[op].proof.prepared.generation
    {
      InvHolds(world, states, steps, |states| - 1);
    }

    /** Everything `put` and `publish` do between loading the old pointer and exposing the new one. */
    method ReplaceVersion(kind: Kind, file: Uuid, previous: Option<Metadata>, fault: nat)
      returns (r: Result<(), StoreError>)
      requires !kind.Delete? && Holding(kind, Loaded, previous) && previous == Lookup(pointers, ObjectOf(kind))
      requires TempOf(kind) in temps && TempIntact(world, kind, temps[TempOf(kind)])
      requires kind.Put? ==> file !in world.contexts && DataPath(ObjectOf(kind).bucket, file) !in Now().births
      requires kind.Publish? ==> file == kind.context.generation
      modifies this
      ensures old(states) <= states
      ensures r.Ok? <==> fault >= 3 && old(Replaceable(OnDisk(), ObjectOf(kind)))
      ensures r.Err? ==> Valid() && pointers == old(pointers)
      ensures r.Ok? ==> && Holding(kind, Pointed(file), previous)
                        && pointers == old(pointers)[ObjectOf(kind) := NewMetadata(kind, file).value]
      ensures r.Ok? && previous.Some? ==> Secured(receipts, previous.value)
      ensures || (r.Err? && data == old(data) && temps == old(temps))
              || (data == old(data)[DataPath(ObjectOf(kind).bucket, file) := old(temps[TempOf(kind)])]
                  && temps == old(temps) - {TempOf(kind)})
      ensures || (r.Err? && receipts == old(receipts))
              || receipts == old(SecuredReceipts(OnDisk(), ObjectOf(kind)))
    {
      r := SecurePrevious(kind, previous, WriteAfter(fault));
      if r.Err? { return; }
      RenameTemp(kind, file, previous);
      if fault == 2 { Abandon(); return Err(Failed); }
      RenameMetadata(kind, file, previous);
    }

    // -------------------------------------------------------------------------
    // The mutators
    // -------------------------------------------------------------------------

    /**
     The part of `publish_transaction` behind its gate: five calls, the last one only tidying up.
     `confirmed` is whether the receipt is known to be durable.
     */
    method PublishStaged(temp: Uuid, ctx: Context, etag: string, modified: int, fault: nat, confirmed: bool)
      returns (r: Result<CommittedProof, StoreError>)
      requires Valid() && Registered(world, ctx) && PublishGate(world, OnDisk(), temp, ctx) == Ok(None)
      modifies this
      ensures Valid() && old(states) <= states
      ensures r.Ok? <==> fault >= 4 && confirmed && old(Replaceable(OnDisk(), ctx.target))
      ensures r.Ok? ==> && r.value == CommittedProof(ctx, ctx.generation, etag)
                        && Lookup(receipts, ctx.operation) == Some(Committed(r.value))
                        && pointers == old(pointers)[ctx.target := PublishedMetadata(ctx, etag, modified)]
      ensures || pointers == old(pointers)
              || pointers == old(pointers)[ctx.target := PublishedMetadata(ctx, etag, modified)]
      ensures var stored := old(data)[DataPath(ctx.target.bucket, ctx.generation) := old(temps[temp])];
              || (r.Err? && data == old(data))
              || data == stored
              || (r.Ok? && ctx.target in old(pointers) && old(pointers)[ctx.target].dataFile != ctx.generation
                  && data == stored - {PathOf(ctx.target, old(pointers)[ctx.target])})
      ensures temps == old(temps) - {temp} || (r.Err? && temps == old(temps))
      ensures var secured := old(SecuredReceipts(OnDisk(), ctx.target));
              || (r.Err? && (receipts == old(receipts) || receipts == secured))
              || receipts == secured[ctx.operation := Committed(CommittedProof(ctx, ctx.generation, etag))]
    {
      var kind := Publish(ctx, temp, etag, modified);
      Lock(kind);
      var previous := Lookup(pointers, ctx.target);
      var replaced := ReplaceVersion(kind, ctx.generation, previous, fault);
      if replaced.Err? { return Err(replaced.error); }
      if fault == 3 { Abandon(); return Err(Failed); }
      r := WriteReceipt(kind, previous);
      if !confirmed { Abandon(); return Err(Failed); }
      if fault >= 5 && previous.Some? && previous.value.dataFile != ctx.generation {
        RemoveReplaced(kind, Receipted(ctx.generation), previous.value);
      } else {
        Abandon();
      }
    }

    /** `publish_transaction`: at most once, and safe to retry. */
    method PublishTransaction(temp: Uuid, ctx: Context, etag: string, modified: int, fault: nat, confirmed: bool)
      returns (r: Result<CommittedProof, StoreError>)
      requires Valid() && Registered(world, ctx)
      modifies this
      ensures Valid() && old(states) <= states
      // Success leaves exactly this operation's Committed receipt.
      ensures r.Ok? ==> && Lookup(receipts, ctx.operation) == Some(Committed(r.value))
                        && r.value.prepared == ctx && r.value.dataFile == ctx.generation
      // A repeat publication returns the stored proof and touches nothing; so does a refused one.
      ensures var gate := old(PublishGate(world, OnDisk(), temp, ctx));
              gate != Ok(None) ==>
                && OnDisk() == old(OnDisk())
                && r == if gate.Ok? then Ok(gate.value.value) else Err(gate.error)
      // A first publication, or a retry whose receipt was lost, goes through, and its own file stays.
      ensures old(PublishGate(world, OnDisk(), temp, ctx)) == Ok(None) && fault >= 4 && confirmed
              && old(Replaceable(OnDisk(), ctx.target)) ==>
                && r == Ok(CommittedProof(ctx, ctx.generation, etag))
                && pointers == old(pointers)[ctx.target := PublishedMetadata(ctx, etag, modified)]
                && Lookup(data, DataPath(ctx.target.bucket, ctx.generation)) == Some(old(temps[temp]))
      // Whatever happens, only this object's pointer, its files, its temp file and its receipts are touched.
      ensures var path := DataPath(ctx.target.bucket, ctx.generation);
              || data == old(data)
              || (temp in old(temps) && data == old(data)[path := old(temps)[temp]])
              || (temp in old(temps) && r.Ok? && ctx.target in old(pointers)
                  && old(pointers)[ctx.target].dataFile != ctx.generation
                  && data == old(data)[path := old(temps)[temp]] - {PathOf(ctx.target, old(pointers)[ctx.target])})
      ensures temps == old(temps) || temps == old(temps) - {temp}
      ensures || pointers == old(pointers)
              || pointers == old(pointers)[ctx.target := PublishedMetadata(ctx, etag, modified)]
      ensures var secured := old(SecuredReceipts(OnDisk(), ctx.target));
              || receipts == old(receipts)
              || receipts == secured
              || receipts == secured[ctx.operation := Committed(CommittedProof(ctx, ctx.generation, etag))]
    {
      var gate := PublishGate(world, OnDisk(), temp, ctx);
      if gate.Err? { return Err(gate.error); }
      if gate.value.Some? {
        CommittedNamesGeneration(ctx.operation);
        return Ok(gate.value.value);
      }
      r := PublishStaged(temp, ctx, etag, modified, fault, confirmed);
    }

    /** `commit_temp`: four calls on a staged temp file. `file` is a fresh name. */
    method CommitTemp(put: PutRequest, file: Uuid, fault: nat) returns (r: Result<(), StoreError>)
      requires Valid() && put.temp in temps && |temps[put.temp]| == put.size
      requires file !in world.contexts && DataPath(put.target.bucket, file) !in Now().births
      modifies this
      ensures Valid() && old(states) <= states
      ensures r.Ok? <==> fault >= 3 && old(Replaceable(OnDisk(), put.target))
      ensures pointers == if r.Ok? then old(pointers)[put.target := NewMetadata(Put(put), file).value]
                          else old(pointers)
      ensures r.Ok? && put.target in old(pointers) ==> Secured(receipts, old(pointers)[put.target])
      ensures var stored := old(data)[DataPath(put.target.bucket, file) := old(temps[put.temp])];
              || (r.Err? && data == old(data))
              || data == stored
              || (r.Ok? && put.target in old(pointers)
                  && data == stored - {PathOf(put.target, old(pointers)[put.target])})
      ensures temps == old(temps) - {put.temp} || (r.Err? && temps == old(temps))
      ensures || (r.Err? && receipts == old(receipts))
              || receipts == old(SecuredReceipts(OnDisk(), put.target))
    {
      var kind := Put(put);
      Lock(kind);
      var previous := Lookup(pointers, put.target);
      r := ReplaceVersion(kind, file, previous, fault);
      if r.Err? { return; }
      if fault >= 4 && previous.Some? {
        RemoveReplaced(kind, Pointed(file), previous.value);
      } else {
        Abandon();
      }
    }

    /** `put`: a private temp file, then `commit_temp` under the lock. */
    method PutObject(put: PutRequest, content: seq<byte>, file: Uuid, fault: nat) returns (r: Result<(), StoreError>)
      requires Valid() && put.temp !in temps && |content| == put.size
      requires file !in world.contexts && DataPath(put.target.bucket, file) !in Now().births
      modifies this
      ensures Valid() && old(states) <= states
      ensures r.Ok? <==> fault >= 4 && old(Replaceable(OnDisk(), put.target))
      ensures pointers == if r.Ok? then old(pointers)[put.target := NewMetadata(Put(put), file).value]
                          else old(pointers)
      ensures r.Ok? ==> Lookup(data, DataPath(put.target.bucket, file)) == Some(content)
      ensures r.Ok? && put.target in old(pointers) ==> Secured(receipts, old(pointers)[put.target])
      ensures var stored := old(data)[DataPath(put.target.bucket, file) := content];
              || (r.Err? && data == old(data))
              || data == stored
              || (r.Ok? && put.target in old(pointers)
                  && data == stored - {PathOf(put.target, old(pointers)[put.target])})
      ensures temps == old(temps) || (r.Err? && temps == old(temps)[put.temp := content])
      ensures || (r.Err? && receipts == old(receipts))
              || receipts == old(SecuredReceipts(OnDisk(), put.target))
    {
      FreshNameIsNew(put.target, file);
      temps := temps[put.temp := content];
      Record(WriteTemp(put.temp, content));
      if fault == 0 { return Err(Failed); }
      r := CommitTemp(put, file, fault - 1);
    }

    method DeleteObject(o: ObjectId, fault: nat) returns (r: Result<bool, StoreError>)
      requires Valid()
      modifies this
      ensures Valid() && old(states) <= states
      ensures r == Ok(false) <==> old(o !in pointers)
      ensures r == Ok(true) <==> old(o in pointers && Replaceable(OnDisk(), o)) && fault >= 2
      ensures r == Ok(true) ==> pointers == old(pointers) - {o} && Secured(receipts, old(pointers)[o])
      ensures r != Ok(true) ==> pointers == old(pointers) && data == old(data)
      ensures data == old(data) || (o in old(pointers) && data == old(data) - {PathOf(o, old(pointers)[o])})
      ensures temps == old(temps)
      ensures || (r != Ok(true) && receipts == old(receipts))
              || receipts == old(SecuredReceipts(OnDisk(), o))
    {
      if o !in pointers { return Ok(false); }
      var previous := pointers[o];
      var kind := Delete(o);
      Lock(kind);
      var secured := SecurePrevious(kind, Some(previous), WriteAfter(fault));
      if secured.Err? { return Err(secured.error); }
      RemoveMetadata(kind, Some(previous));
      if fault >= 3 {
        RemoveReplaced(kind, Pointed(0), previous);
      } else {
        Abandon();
      }
      r := Ok(true);
    }

    method RetireCommitProof(operation: Uuid, generation: Uuid, call: Call) returns (r: Result<bool, StoreError>)
      requires Valid()
      modifies this
      ensures Valid() && old(states) <= states
      ensures r == Ok(false) <==> old(operation !in receipts)
      ensures var named := old(operation in receipts && GenerationOf(receipts[operation]) == generation);
              && (r == Ok(true) <==> named && call.Durable?)
              && receipts == if named && !call.Lost? then old(receipts) - {operation} else old(receipts)
      ensures pointers == old(pointers) && data == old(data) && temps == old(temps)
    {
      if operation !in receipts { return Ok(false); }
      if GenerationOf(receipts[operation]) != generation { return Err(ProofMismatch); }
      if call.Lost? { return Err(Failed); }
      receipts := receipts - {operation};
      Record(Step.Retire(operation, generation));
      r := if call.Durable? then Ok(true) else Err(Failed);
    }
  }
}
