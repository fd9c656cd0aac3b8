# Maskura core, modelled and proved in Dafny

Maskura is a gateway that masks or encrypts selected values of the objects that pass through it. This
project models the parts of it on which the data of its users depends, and proves what they promise:

- the local object store's commit protocol (pointer, data file and receipt per object, no lock for readers);
- the event log with its snapshot, torn-tail repair and two-step compaction;
- the typed pipeline: schemas and rows, paths and claims, the envelope transform, the check on what a
  guest component may change, the pump that puts them together, and the bytes its plan hashes are taken over;
- the Avro and decimal codecs;
- day counting in the two time parsers, and the scanner that finds envelopes in a payload.

`dafny verify dfyconfig.toml` checks everything. Module by module:

| modules | what they hold |
|---|---|
| `Prelude`, `Bytes`, `Utf8` | options, results, big-endian integers, UTF-8 |
| `CommitProtocol`, `CommitSafety`, `CommitProbes`, `CommitOnce`, `CommitReaders`, `CommitRetry`, `FileStore` | the store as a transition system, its invariant, probes, single effect, readers, retries, and the store object whose methods are runs of it |
| `FrameStream`, `Frames`, `EventLog`, `EventLogRecovery`, `Journal` | frame streams, the concrete frame, the log as a transition system, recovery, and the log object |
| `Paths`, `Texts`, `Ir`, `ClaimMatching`, `SchemaChanges` | paths and their order, schemas, rows, matching, the change checker |
| `Envelopes`, `EnvelopeSoundness`, `Pump`, `PlanHash` | the transform, its soundness, planning and processing, plan-hash preimages |
| `Decimals`, `AvroSchemas`, `AvroValues` | the codecs |
| `Calendar`, `Scanner`, `ScannerPanics` | day counting, the envelope scan, and when it panics |

## Assumptions

- File-system calls take effect in program order. A process may die between any two of them. A call that
  fails had no effect, or its effect is there but not known to be durable. A rename replaces its target in
  one instant.
- A generation id belongs to one publication context. The name chosen for a plain put's data file was
  never used before. A temp file is touched only by its writer.
- Mutators of the store run one at a time, as their lock makes them. Readers take no lock: each of their
  reads falls on any instant of the run.
- SHA-256 is any function of its input; for frames it returns 32 bytes. Nothing else is assumed of it, so
  where a digest stands for contents the theorems speak of equal digests.
- The client of the event log hands a compaction the fold of all events so far, and its codec reads back
  what it writes.
- A guest component may answer anything. Encryption returns five strings that may depend on the text, on
  the place in the row and on chance.

## Findings

- `CommitRetry.OtherEtagBlocks`: publish under one etag, die between the pointer move and the receipt,
  retry under another etag, die there again. The object is then visible and can be neither overwritten,
  deleted nor republished, because the receipt that the retry wrote ahead names the first etag.
  `CommitRetry.BlockedUntilRetired` says that it stays so until that receipt is retired, and
  `RetiringUnblocks` that retiring it helps. `BlockedExactly` says exactly when a version is blocked, and
  `NeverBlockedWithOneEtag` that none is when each generation keeps one etag and each operation one
  generation. The store's own caller, `crates/gateway/src/transaction/file.rs:206`, takes the etag from the
  bytes and so keeps to one.
- `EventLogRecovery.ReloadSucceedsExactly`: a log that survives a crash inside its second or a later
  compaction starts past sequence 1 under a newer snapshot, and is refused as corrupt although nothing is
  lost. `SecondCompactionRefused` builds such a run for every machine and every two payloads;
  `WindowOpensAndCloses` and `RefusalHasACause` say when the window opens and closes.
- `Pump.RefusesExactly` with `Pump.BinaryPump.Plan`: without a public key a target that names no string
  is accepted by planning, and then every row is refused (`Pump.KeylessTargetPlans` has a record of one
  number). With a key planning refuses it.
- `EnvelopeSoundness.EnvelopeFailsExactly`: a null on the way to a target, not at it, makes the transform
  fail for the whole row, although the row is valid for its schema (`NullRecordFails` gives one).
- `Calendar.ImpossibleDayIsRead`: both time parsers accept days that their month does not have and
  read them as days of the next month.
- `Scanner.BracelessMarkerPanics`: a marker right after an envelope, with no opening brace of its own,
  makes the scan slice backwards. `ScannerPanics.PanicsExactly` says for every payload and every opener
  exactly when the scan does so.

## Model

| member | source | states |
|---|---|---|
| `CommitProtocol.CommittedProofOf` | crates/gateway/src/file_store.rs:1065-1091 | a proof is issued if and only if the metadata is, field for field, what a publication of that context writes |
| `CommitSafety.BackfillExact` | crates/gateway/src/file_store.rs:987-1042 | a backfill that succeeds stores the pointer's own context and etag, displaces no other context's receipt, and leaves the pointer secured |
| `CommitSafety.InvHolds` | crates/gateway/src/file_store.rs:514-669 | the store's invariant holds at every instant of every run, with a stop allowed after each file-system call |
| `CommitSafety.PointersAlwaysComplete` | crates/gateway/src/file_store.rs:514-669 | at every instant each visible pointer names an existing data file of the recorded size, and of the recorded digest exactly when it is transactional |
| `CommitSafety.DataFilesNeverShared` | crates/gateway/src/file_store.rs:532-565 | no two objects of a bucket ever name the same data file, so removing a replaced file harms nobody |
| `CommitSafety.OnlyPointMoves` | crates/gateway/src/file_store.rs:590-669 | a pointer changes only in the one call that renames or removes its own metadata |
| `CommitSafety.ReceiptWrittenAhead` | crates/gateway/src/file_store.rs:600-654 | whenever a transactional pointer is overwritten or deleted, its exact Committed proof was on disk before |
| `CommitSafety.VisibleAlwaysProbes` | crates/gateway/src/file_store.rs:671-708 | an operation that was ever visible and not retired since probes as Published or Committed with its own context at every later instant |
| `CommitProbes.ProbeNeverInvents` | crates/gateway/src/file_store.rs:671-708 | in every run a probe answers Published or Committed only for a generation that was visible before, with its registered context |
| `CommitProbes.ProbeAnswers` | crates/gateway/src/file_store.rs:671-708 | in every run a probe never fails, answers Absent exactly without a receipt, Mismatch for another generation's receipt, and Prepared only of what no pointer shows |
| `CommitOnce.NeverPublishedAgain` | crates/gateway/src/file_store.rs:590-669 | at most once over whole runs: when a generation was visible and its target's pointer has stopped showing it, no later step publishes it and the pointer never returns to it, as long as its receipt was not retired |
| `CommitReaders.OpenedIsLoadedVersion` | crates/gateway/src/file_store.rs:862-903 | a file opened later under metadata loaded earlier is the version that was current when the metadata was loaded |
| `CommitReaders.MissingMeansMoved` | crates/gateway/src/file_store.rs:862-903 | a missing data file means the pointer has left the version it was loaded from |
| `CommitReaders.Open` | crates/gateway/src/file_store.rs:862-903 | for reads at any instants of any run: what is found was one published version current at an instant of the call, not found means absent at one, and corruption needs two pointer moves meanwhile |
| `CommitRetry.BlockedExactly` | crates/gateway/src/file_store.rs:987-1042 | in every reachable state a version is blocked if and only if its operation's receipt is of another generation or was committed under another etag |
| `CommitRetry.LostReceiptNeverBlocksRetry` | crates/gateway/src/file_store.rs:600-654 | a retry whose receipt is still Prepared is never blocked by its own lost publication |
| `CommitRetry.NeverBlockedWithOneEtag` | crates/gateway/src/file_store.rs:590-669 | with one etag per generation and one generation per operation no version is ever blocked, in any run |
| `CommitRetry.OtherEtagBlocks` | crates/gateway/src/file_store.rs:590-669 | for every context and every two etags there is a run that leaves the visible version blocked |
| `CommitRetry.BlockedUntilRetired` | crates/gateway/src/file_store.rs:987-1042 | in every run a version that is blocked while nobody is at work stays visible and blocked until its operation's receipt is retired |
| `CommitRetry.RetiringUnblocks` | crates/gateway/src/file_store.rs:766-788 | in every run retiring that receipt leaves the version unblocked |
| `FileStore.LocalStore.PrepareTransaction` | crates/gateway/src/file_store.rs:568-588 | accepts a context if and only if the operation is new and its receipt durable, or was prepared for exactly it; adds at most that receipt |
| `FileStore.LocalStore.SecurePrevious` | crates/gateway/src/file_store.rs:987-1042 | succeeds exactly when the version about to be replaced can be secured and its receipt is durable; stores exactly that receipt, or nothing when the write is lost |
| `FileStore.LocalStore.ReplaceVersion` | crates/gateway/src/file_store.rs:532-565 | for a failure after any call: the pointer moves only at the end, and only after the replaced version is secured; data, temp files and receipts are in one of the states listed |
| `FileStore.LocalStore.PublishStaged` | crates/gateway/src/file_store.rs:607-669 | succeeds exactly when the receipt gets written and confirmed; pointers, data files, temp files and receipts afterwards are in one of the states a crash can leave |
| `FileStore.LocalStore.PublishTransaction` | crates/gateway/src/file_store.rs:590-669 | publishes at most once: a repeat returns the stored proof and changes nothing, and a retry after a lost receipt ends in the same proof with its own data file in place; on success and failure pointers, data files, temp files and receipts are in one of the states listed, so nothing of other objects is touched |
| `FileStore.LocalStore.CommitTemp` | crates/gateway/src/file_store.rs:514-566 | the pointer moves exactly on success, the replaced transactional version is secured first |
| `FileStore.LocalStore.PutObject` | crates/gateway/src/file_store.rs:234-276 | a put succeeds exactly when the old version can be secured and enough calls succeed; then the new file holds the content given |
| `FileStore.LocalStore.DeleteObject` | crates/gateway/src/file_store.rs:353-370 | tells absent from deleted, deletes only a secured version, and otherwise leaves pointers and data alone |
| `FileStore.LocalStore.RetireCommitProof` | crates/gateway/src/file_store.rs:766-788 | removes exactly the receipt of the generation named and touches no object |
| `Bytes.DecodeEncode` | crates/gateway/src/filesystem_persistence.rs:535-545 | big-endian integers that fit read back as themselves |
| `Bytes.EncodeDecode` | crates/gateway/src/filesystem_persistence.rs:477-481 | every byte string is the encoding of the number read from it |
| `Frames.EventFormatLawful` | crates/gateway/src/filesystem_persistence.rs:535-545 | the event frame reads back whatever follows it, every strict prefix of it reads as torn, and whatever reads as whole is byte for byte an encoding |
| `Frames.FrameReadsBack` | crates/gateway/src/filesystem_persistence.rs:459-533 | an encoded frame is read with its number and payload, and refused only because of its number |
| `Frames.PrefixIsTorn` | crates/gateway/src/filesystem_persistence.rs:467-493 | cutting a frame anywhere before its end reads as a torn tail and never as corruption |
| `Frames.WholeFrameIsEncoding` | crates/gateway/src/filesystem_persistence.rs:467-513 | a frame that is accepted is the encoding of what it is read as, with a number that may come next |
| `FrameStream.ParseFrames` | crates/gateway/src/filesystem_persistence.rs:459-533 | the loop over the offset computes the reference parse |
| `FrameStream.ParseFramesAndTail` | crates/gateway/src/filesystem_persistence.rs:459-533 | consecutive frames from a permitted start, followed by any torn tail, parse to exactly the payloads past the snapshot, and the valid bytes are those of the whole frames |
| `FrameStream.WrongStartIsCorrupt` | crates/gateway/src/filesystem_persistence.rs:494-506 | a log that starts neither at 1 nor right after the snapshot is refused as corrupt, whatever follows |
| `FrameStream.ParsedAreFrames` | crates/gateway/src/filesystem_persistence.rs:459-533 | whatever bytes parse are consecutive encoded frames with a torn rest, and the events are theirs |
| `EventLogRecovery.LogInvHolds` | crates/gateway/src/filesystem_persistence.rs:291-429 | at every instant of every run of appends, failed appends, compactions, crashes and reloads the bytes on disk are the frames of the events since the last truncation plus at most one torn frame |
| `EventLogRecovery.ReloadRebuildsEverything` | crates/gateway/src/filesystem_persistence.rs:291-429 | a reload that succeeds rebuilds the fold of all acknowledged events in order, each once, plus at most the one append whose outcome was unknown |
| `EventLogRecovery.ReloadSucceedsExactly` | crates/gateway/src/filesystem_persistence.rs:494-506 | a reload succeeds if and only if the surviving log is empty or starts at 1 or right after the snapshot; otherwise it fails as corrupt |
| `EventLogRecovery.WindowOpensAndCloses` | crates/gateway/src/filesystem_persistence.rs:391-429 | logs become unreadable exactly at the first half of a compaction whose log started past 1, and readable again exactly at a truncation |
| `EventLogRecovery.RefusalHasACause` | crates/gateway/src/filesystem_persistence.rs:391-429 | every refused reload goes back to such a compaction with no truncation since |
| `EventLogRecovery.SecondCompactionRefused` | crates/gateway/src/filesystem_persistence.rs:391-429 | for every sound machine and every two payloads there is a run that dies between the two writes of its second compaction, holds both acknowledged events on disk, and is refused as corrupt |
| `Journal.EventMachineSound` | crates/gateway/src/filesystem_persistence.rs:97-129 | the concrete frames with any client codec that round-trips meet everything the recovery theorems ask for |
| `Journal.Journal.Replay` | crates/gateway/src/filesystem_persistence.rs:291-341 | reading snapshot and log computes the reload of the theorems |
| `Journal.Journal.Open` | crates/gateway/src/filesystem_persistence.rs:291-341 | opening hands back every event; it takes nothing but the torn tail off the log, also when the repair fails before or after the cut, and a failure acknowledges nothing and keeps the old handle |
| `Journal.Journal.Append` | crates/gateway/src/filesystem_persistence.rs:343-385 | for every way an append can fail: what is acknowledged, what may be on disk, and when a reload becomes required |
| `Journal.Journal.Compact` | crates/gateway/src/filesystem_persistence.rs:391-429 | for every way the two atomic writes can fail: no event is lost, and a reload is required exactly when an outcome is unknown |
| `Paths.PathsOrdered` | crates/gateway/src/binary_reductor.rs:661-687 | comparing two paths the other way round flips the answer, and only equal paths compare equal |
| `Paths.PathsTransitive` | crates/gateway/src/binary_reductor.rs:661-687 | what is not after a path that is not after a third is not after the third, so the comparison is a total order |
| `Paths.PrefixSqueeze` | crates/gateway/src/binary_reductor.rs:638-655 | everything sorted between a path and one of its extensions extends the path too |
| `Paths.NeighboursSuffice` | crates/gateway/src/binary_reductor.rs:638-655 | in a sorted list neighbours are free of prefixes if and only if the whole list is |
| `Paths.SortedUnique` | crates/gateway/src/binary_reductor.rs:657-659 | a list has one sorted arrangement only |
| `Paths.CanonicalizeClaims` | crates/gateway/src/binary_reductor.rs:638-655 | accepts a list if and only if no entry is a prefix of another anywhere in it; the result is the one sorted arrangement of the input, and a refusal names a duplicate or a strict overlap that is there |
| `Paths.CanonicalizeTargets` | crates/gateway/src/binary_pump.rs:315-351 | accepts targets if and only if none reaches into another; the result holds the same targets in path order, and no other such list exists |
| `Ir.FindNode` | crates/gateway/src/binary_ir.rs:165-180 | the loop over segments finds the node that the recursive definition names |
| `Ir.ValidateNode` | crates/gateway/src/binary_ir.rs:182-285 | threading the running field count accepts exactly the valid schemas whose fields fit what is left, and returns the count |
| `Ir.ValidateFields` | crates/gateway/src/binary_ir.rs:229-248 | the loop with its set of names seen accepts exactly distinct, non-empty names over valid schemas within the budget |
| `ClaimMatching.VisitClaimMatches` | crates/gateway/src/binary_ir.rs:1005-1046 | the recursion that pushes and pops the concrete path makes the reference visits in order |
| `ClaimMatching.VisitSound` | crates/gateway/src/binary_ir.rs:1005-1046 | every visit is at a concrete path that erases to the claim, with the value found there |
| `ClaimMatching.VisitComplete` | crates/gateway/src/binary_ir.rs:1005-1046 | every concrete path that exists and erases to the claim is visited |
| `ClaimMatching.VisitOnce` | crates/gateway/src/binary_ir.rs:1005-1046 | no concrete path is visited twice |
| `ClaimMatching.ClaimVisitedExactly` | crates/gateway/src/binary_ir.rs:565-571 | on a valid row a claim visits exactly the places that erase to it, each once, with their values, and each value matches the schema at the claim |
| `SchemaChanges.CheckerExact` | crates/gateway/src/binary_reductor.rs:520-609 | the change checker accepts exactly the pairs of schemas that agree in presence, nullability, kind and names at every path outside the claims |
| `SchemaChanges.AcceptedAgrees` | crates/gateway/src/binary_reductor.rs:529-609 | what is accepted agrees at every path that no claim covers |
| `SchemaChanges.AgreementAccepted` | crates/gateway/src/binary_reductor.rs:529-609 | schemas that agree outside the claims are accepted |
| `SchemaChanges.CustomWalkExact` | crates/gateway/src/binary_reductor.rs:617-636 | the walk accepts exactly the schemas all of whose custom nodes are claimed |
| `Envelopes.ReplaceDefined` | crates/gateway/src/binary_pump.rs:169-206 | retyping succeeds exactly at string nodes |
| `Envelopes.ReplaceHit` | crates/gateway/src/binary_pump.rs:154-206 | the node at the target becomes the envelope record with its nullability kept |
| `Envelopes.ReplaceAllFrame` | crates/gateway/src/binary_pump.rs:121-131 | after all targets the schema agrees with the input at every path no target reaches, and is the same node off their ancestors |
| `Envelopes.ReplaceAllDefined` | crates/gateway/src/binary_pump.rs:121-131 | targets that are apart and name strings always have an output schema |
| `Envelopes.TransformValues` | crates/gateway/src/binary_pump.rs:208-262 | the loops over items and entries compute the recursive transform, errors included |
| `EnvelopeSoundness.TransformAllFrame` | crates/gateway/src/binary_pump.rs:208-262 | no value outside the targets changes, through any nesting of arrays, maps, records and custom values |
| `EnvelopeSoundness.TransformAllHit` | crates/gateway/src/binary_pump.rs:208-262 | every non-null value at a target becomes the envelope record or the redaction marker, whichever other targets there are |
| `EnvelopeSoundness.EnvelopeTypeSound` | crates/gateway/src/binary_pump.rs:121-151 | for targets that are apart, what the transform returns for a valid row is valid for the declared output schema, nesting limit included |
| `EnvelopeSoundness.EnvelopeFailsExactly` | crates/gateway/src/binary_pump.rs:133-151 | on a valid row the transform fails if and only if a strict ancestor of some target is null there |
| `EnvelopeSoundness.NullRecordFails` | crates/gateway/src/binary_pump.rs:208-262 | for any two field names: a valid row with a null record above a string target, refused with any key and without |
| `Pump.ValidateClaims` | crates/gateway/src/binary_reductor.rs:487-518 | accepts exactly the claims that name a record, or a custom node of their own type |
| `Pump.OutputFrame` | crates/gateway/src/binary_pump.rs:379-392 | whatever a guest answers, source and output schema agree at every path outside its claims and the targets |
| `Pump.OutputHit` | crates/gateway/src/binary_pump.rs:379-392 | an unclaimed target was a string in the source and is an envelope record in the output |
| `Pump.OutputSchemaDefined` | crates/gateway/src/binary_pump.rs:121-131 | the transform declares an output schema exactly when there is no key or all targets name strings |
| `Pump.NoNewCustom` | crates/gateway/src/binary_reductor.rs:278-293 | the transform introduces no custom node, so the second walk of the built-in reductor never refuses |
| `Pump.RefusesExactly` | crates/gateway/src/binary_pump.rs:133-151 | a valid row is refused exactly when a target is no string of the schema or has a null ancestor in the row |
| `Pump.KeylessTargetRefusesAll` | crates/gateway/src/binary_pump.rs:121-151 | without a key the schema is declared unchanged, and a target that names no string refuses every row |
| `Pump.KeylessTargetPlans` | crates/gateway/src/binary_pump.rs:379-392 | for every field name: a record of one number with that field as keyless target meets everything planning demands, and every row is refused |
| `Pump.BinaryPump.PlanReduction` | crates/gateway/src/binary_reductor.rs:379-398 | a guest's plan is accepted if and only if its claims are prefix-free and fit the schema, and its schema is valid and agrees with the source outside them |
| `Pump.BinaryPump.PlanRestore` | crates/gateway/src/binary_reductor.rs:400-426 | the output schema is accepted if and only if it is valid and agrees with the transformed one outside the claims |
| `Pump.BinaryPump.Plan` | crates/gateway/src/binary_pump.rs:379-392 | exactly when planning succeeds; a failure keeps the earlier plans; an installed output schema equals the source outside claims and targets |
| `Pump.BinaryPump.Process` | crates/gateway/src/binary_pump.rs:394-415 | exactly which rows get through; every row that does is valid for the output schema, with the built-in reductor it is the transformed row, and validating the transformed row never refuses |
| `PlanHash.JoinInjective` | crates/gateway/src/binary_reductor.rs:759-763 | length-prefixed parts can be read back in one way only |
| `PlanHash.PlanPreimageInjective` | crates/gateway/src/binary_reductor.rs:712-748 | the bytes under the hash are equal if and only if owner, schemas, claims, coverage and guest plan are |
| `PlanHash.RestorePreimageInjective` | crates/gateway/src/binary_reductor.rs:156-180 | the bytes under the hash are equal if and only if reduction hash, schemas and guest plan are |
| `PlanHash.DomainsSeparate` | crates/gateway/src/binary_reductor.rs:712-757 | no reduction plan is hashed over the bytes of a restore plan |
| `PlanHash.MaskuraSeparate` | crates/gateway/src/binary_reductor.rs:23-24 | the domains and segment tags in use are told apart |
| `PlanHash.Hasher.Claims` | crates/gateway/src/binary_reductor.rs:731-748 | the nested loops absorb the parts of the claim list in order |
| `PlanHash.HashReductionPlan` | crates/gateway/src/binary_reductor.rs:712-729 | the bytes absorbed are the parts of the plan, in order |
| `PlanHash.HashRestorePlan` | crates/gateway/src/binary_reductor.rs:750-757 | the bytes absorbed are the parts of the restore plan, in order |
| `Utf8.EncodeInjective` | crates/gateway/src/binary_reductor.rs:731-748 | distinct strings have distinct bytes |
| `Decimals.UnscaledRoundTrip` | crates/gateway/src/avro.rs:501-544 | every integer at every scale is printed to text that parses to it |
| `Decimals.UnscaledExactly` | crates/gateway/src/avro.rs:501-527 | a canonical text has an unscaled integer exactly when its fraction fits the scale, and then it is its digits shifted by what is missing |
| `Decimals.TextRoundTrip` | crates/gateway/src/avro.rs:501-544 | every canonical text with exactly that many fractional digits parses to an integer that prints as it, and its precision is the digit count of the magnitude |
| `Decimals.PrintedParses` | crates/gateway/src/binary_ir.rs:1191-1238 | what is printed is accepted by the validator, with the printed scale and the magnitude's digit count |
| `Decimals.ParsedIsPrinted` | crates/gateway/src/binary_ir.rs:1191-1238 | the validator accepts exactly the texts that some integer is printed as at some scale |
| `Decimals.SignExtensionDecodes` | crates/gateway/src/avro.rs:546-560 | two's-complement bytes of any minimum width decode to the integer they were made from |
| `Decimals.DecimalToBytes` | crates/gateway/src/avro.rs:546-560 | filling the padded buffer yields the sign-extended bytes |
| `AvroSchemas.SchemaRoundTrip` | crates/gateway/src/avro.rs:278-324 | every valid schema without custom nodes is written, and read back as itself |
| `AvroSchemas.ReadIsPrintable` | crates/gateway/src/avro.rs:140-252 | only schemas that can be written are ever read |
| `AvroSchemas.AcceptedSchemasAreStable` | crates/gateway/src/avro.rs:133-324 | whatever Avro schema is accepted, writing it and reading it again changes nothing |
| `AvroSchemas.NamesPrinted` | crates/gateway/src/avro.rs:294-302 | records are numbered consecutively in document order, up to saturation |
| `AvroSchemas.RecordNamesDistinct` | crates/gateway/src/avro.rs:273-302 | the record names written are distinct if and only if there are at most 2^32 records |
| `AvroSchemas.ValidNamesDistinct` | crates/gateway/src/avro.rs:273-302 | a schema that passed validation, whose field limit fits 32 bits, is always written under distinct record names |
| `AvroValues.AscendingIsSorted` | crates/gateway/src/avro.rs:382-394 | collecting ascending keys into a map and sorting them again gives the same keys in the same order |
| `AvroValues.ValueRoundTrip` | crates/gateway/src/avro.rs:332-499 | every valid row without custom values, through sorted maps, nullable unions and decimals of any byte width, reads back as itself if and only if the calendar library prints each of its dates and times back as it was |
| `AvroValues.ReadConforms` | crates/gateway/src/avro.rs:332-417 | whatever Avro value is read, the result has the shape its schema declares, with map keys in order and decimals of the declared scale |
| `Calendar.EpochIsZero` | crates/cli/src/policy.rs:482-491 | 1970-01-01 is day 0 |
| `Calendar.CountsDays` | crates/cli/src/policy.rs:482-491 | walking the calendar for n days moves the count by n, from any real day of any year |
| `Calendar.CountOrdersDays` | crates/cli/src/policy.rs:482-491 | real days are ordered by their counts, and no two share one |
| `Calendar.AmzAgrees` | crates/gateway/src/backend.rs:1206-1221 | the other parser's count is the same for every date it accepts |
| `Calendar.ImpossibleDayRollsOver` | crates/cli/src/policy.rs:450-453 | a day its month does not have counts as the real day of the next month that it runs over to |
| `Calendar.ImpossibleDayIsRead` | crates/cli/src/policy.rs:450-479 | with or without a time of day such a date is accepted and read as that real day, and so does the signing-time parser from 1970 to 9999 |
| `Calendar.SecondsOrderTimes` | crates/cli/src/policy.rs:453-479 | later instants never parse to fewer seconds, and to strictly more from 1970 on |
| `Calendar.AmzReadsTimestamps` | crates/gateway/src/backend.rs:1181-1224 | from 1970 to 9999 a formatted signing time is read as the instant that the other parser reads |
| `Scanner.FindBytes` | crates/cli/src/hybrid.rs:154-158 | the search returns the first occurrence from the position on, or none |
| `Scanner.MatchingBraceEnd` | crates/cli/src/hybrid.rs:137-152 | the depth counter finds an end if and only if a closing brace there makes the braces balance for the first time, counting opens minus closes |
| `Scanner.DecryptPayload` | crates/cli/src/hybrid.rs:68-91 | the loop computes the recursive scan for every payload, failures included |
| `Scanner.DecryptsEveryEnvelope` | crates/cli/src/hybrid.rs:68-91 | for every alternation of marker-free text and flat envelopes the result is the text in order with each envelope replaced by its plaintext, or the first envelope's failure |
| `Scanner.BracelessMarkerPanics` | crates/cli/src/hybrid.rs:70-87 | a marker right after an envelope and without a brace of its own makes the scan panic |
| `ScannerPanics.PanicsExactly` | crates/cli/src/hybrid.rs:68-91 | for every payload and every opener the scan panics if and only if some marker that no earlier envelope covers stands outside the braces before it and everything up to it opens |
| `ScannerPanics.FlatPanicsExactly` | crates/cli/src/hybrid.rs:68-91 | when the brace before each marker closes before another opens and the envelope it opens, if closed, parses and decrypts, the scan panics if and only if a marker stands outside its braces |
| `ScannerPanics.OwnBracesNeverPanic` | crates/cli/src/hybrid.rs:68-91 | a payload in which nothing closes between a marker and the nearest brace before it never makes the scan panic, whatever opens |

## Left out

- Cryptography, base64, UUID generation and MD5 etags: foreign libraries, kept as parameters.
- JSON text, canonical JSON bytes and their size limits: schemas and rows are trees, plan hashes take the encoded schemas as given bytes.
- Power loss and directory entries that were not synced: crashes here keep the order of the calls.
- Bucket and key validation, listing, ranges, and the directories of a bucket: path handling with one-branch facts; deleting a bucket appears only as the removal of data files under no pointer.
- Overwriting a corrupt or unreadable receipt or metadata file: files are either absent or whole, as atomic replacement leaves them.
- Sequence numbers at the end of their 64 bits: appends are modelled below it; reopening there fails as in the source.
- CommitReaders.Open: one reader at a time over an arbitrary run; file descriptors that stay open while the file is replaced are not modelled beyond the bytes read when opening.
- Journal.Journal.Append: the payload is taken as bytes that the reader decodes; turning a value into JSON is not modelled.
- Envelopes.TransformValues: rows and schemas are rebuilt as values; the source rewrites them in place, so aliasing and the partly rewritten row after an error are not captured.
- SchemaChanges.CheckerExact: the checker is a recursive predicate over values; the shared path that the source pushes and pops is a parameter here.
- Paths.CanonicalizeClaims: sorting is by insertion on sequences; stability of the source's sort is immaterial because equal claims are rejected.
- ClaimMatching.VisitClaimMatches: the mutable visitor, which lets its caller change each value in place, would repeat the same walk.
- Pump.BinaryPump.Plan: owners and hashes stored in plans are left out, since one pump has one reductor; `PlanHash` holds the hashes. Transforms are the envelope transform and, with no targets, the identity; one that drops records is not modelled.
- Parsing envelope targets from a header: string splitting with one-branch facts.
- PlanHash.PlanPreimageInjective: lengths and counts are below 2^64, as those of any slice are; beyond it the source saturates and the statement would fail.
- AvroSchemas.SchemaRoundTrip: JSON objects are given by the members the reader looks up, fixed words are an enumeration, and decimal precision and scale are those that fit 32 bits.
- AvroValues.ValueRoundTrip: the calendar library that converts dates, times and timestamps is a parameter, so which texts it prints back is not modelled, nor is overflow when milliseconds become microseconds; a UUID is its canonical text; the byte width of a decimal, which the source finds in floating point, is any number.
- Decimals.UnscaledRoundTrip: the big-integer parser is a parser of digits, without the underscores it would also accept.
- The Avro container format, its limits and compression: library behaviour.
- Calendar.AmzReadsTimestamps: overflow of 64-bit seconds is out of reach of four-digit years; splitting and trimming the text of `parse_at` is not modelled.
- Scanner.DecryptPayload: parsing and decrypting one envelope are two parameters.
- Format detection, multipart uploads, Iceberg manifests, HTTP endpoints, configuration, the trust store and the command line: easy branches or plumbing.
