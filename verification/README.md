# Verified model of the harness core

A Dafny model of the parts of the harness that carry its guarantees, with proofs of those guarantees.
`dafny verify dfyconfig.toml` verifies everything.

The project follows the program's components:

- **Recorded-run archives** (`Crc32`, `Crc32Remainder`, `Crc32Check`, `ZipArchive`, `CanonicalJson`,
  `JsonReader`): the bytes of a ZIP archive, the bitwise CRC-32, canonical JSON and newline-delimited streams.
  The archive is read back by a reader that is defined separately, from the end record through the central
  directory to each local header. Canonical JSON is read back by a reader of the grammar of RFC 8259. The
  checksum is the remainder of a polynomial division over two elements.
- **Exact transitions** (`ExactTransition`, `TransitionReader`): hash-chained trace records, a reader of the
  bytes that are hashed, validation, and the scan that compares two traces.
- **Co-op coordination** (`CoopWire`, `CoopCoordinator`, `CoopCoordinatorRuns`, `CoopAnnouncements`,
  `CoopAcceptance`, `CoopFullLog`, `CoopCohort`, `CoopCohortRules`): the coordinator that delivers, records and
  classifies envelopes, and the cohort that validates routes, schedules an action and accepts its settlement.
- **Lookup sessions** (`LookupItems`, `LookupOrder`, `LookupSession`, `LookupPages`, `LookupRules`,
  `LookupReplay`, `LookupDecisions`, `LookupTurns`, `LookupSimulation`, `LookupExpiry`, `LookupChunks`):
  admission, pagination, retention with expiry, the live and the replay loop of an agent, and chunked reads of
  retained bytes.
- **Small durable state machines** (`JournalRecord`, `OperationJournal`, `OperationJournalRuns`,
  `OperationJournalRules`, `DecisionFence`): the crash-tolerant idempotency journal over a byte file, and
  decision tokens across epochs.
- `Text`, `JsonText` and `Sorting` hold what the others share: UTF-8 and UTF-16, byte order, decimals,
  hexadecimal, JSON objects with members in a given order, stable sorting and repetition-free sequences.

## Reading guide

State that the program updates in place is a class. Its methods are proved equal to a step function on
values, and runs are sequences of such steps; results about runs quantify over every sequence of calls,
every answer of a port and every failing write. Loops are methods proved against a definition that does
not mention them.

Each step function is in turn characterised by statements that do not use it: readers defined from the format
alone (`ReadArchive`, `ReadJson`, `ReadRecord`, `ReadLine`, `ReadEnvelope`), and outcome lemmas that give the exact
condition of every success and refusal with the limits written out (`BeginOutcome`, `ConsumeOutcome`,
`ArchiveOutcome`, `AdmitOutcome`, `SettlementMeans` and the like).

What the program takes from elsewhere is a parameter, never an assumption about a fixed function:

- SHA-256 is an arbitrary function. Results about it read "equal, or here is a collision", so no
  collision-freeness is assumed.
- Double conversion and number formatting are a pair of functions; where they matter, `Faithful` says that
  formatting is injective on doubles and writes number characters. `FaithfulExists` gives such a pair.
- JSON decoding, schema validation and capability contents are functions of the lookup environment `Env`.
- The journal's reader is any function that reads back the lines the journal writes; `LinesAreRead` shows
  that reading them as JSON by member names is one.
- The answers of ports and the failures of a disk are inputs of each step. A lookup session carries its
  clock and the expiry of what it retains; a replaying session has a clock of its own.

Three properties hold only under a condition. Each has the exact condition and an input that fails:

- `CoopCoordinatorRuns.ExactlyOnceDelivery`: delivery precedes the record bound, so an envelope that reaches
  the port at a full log is delivered without a record. Deliveries are exactly the new records iff no call is
  delivered at a full log; `CoopFullLog.RetryAtFullLogDeliversTwice` is a run that repeats one.
- `LookupExpiry.ReplaySimulatesLive`: replay reads the retained bytes, and they expire. It shows the agent the
  same inputs iff no source whose answer was shown has expired on the replaying session's clock; otherwise
  the first expired answer is replaced by a missing retention. An answer that is admitted under a new
  identifier is always alive on the live clock, but the corpus accepts the same content again without
  renewing it, so `LookupExpiry.DuplicateOverExpired` shows an answer live that cannot be replayed at all.
- `LookupChunks.EveryClientFinishes`: every chunked read is answered from a budget of 200 bytes on. Below, the
  shrinking loop can refuse a read although one byte would fit, because its estimate keeps the digits of the
  first attempt's `next_offset` (`LookupChunks.RefusesThoughOneByteFits`); `BytesFeedback` states exactly when
  it answers.

`CoopWire.SettledRecoveryNeedNotAdvance` and `ExactTransition.ContinuityIsNotRequired` show what the
program does not promise: a settled recovery need not observe a later generation, and consecutive records
of a valid trace need not agree on the state between them.

## Model

| member | source | states |
|---|---|---|
| `Crc32.Compute` | crates/harness/src/recorded_run_encoding.rs:84-97 | the two nested loops compute the checksum defined bit by bit over naturals below 2^32 |
| `Crc32.AbsorbIsLinear` | crates/harness/src/recorded_run_encoding.rs:84-97 | absorbing a byte string is one linear map applied to the register xor the bits of the string |
| `Crc32.CollisionIsVanishingDifference` | crates/harness/src/recorded_run_encoding.rs:84-97 | two equally long strings have equal checksums iff the shifted xor of their bits vanishes |
| `Crc32.BitBurstDetected` | crates/harness/src/recorded_run_encoding.rs:84-97 | any two equally long strings whose differing bits lie in one window of 32 bits have different checksums |
| `Crc32.BurstDetected` | crates/harness/src/recorded_run_encoding.rs:84-97 | strings of any length that differ only inside four consecutive bytes have different checksums |
| `Crc32Remainder.ChecksumIsRemainder` | crates/harness/src/recorded_run_encoding.rs:84-97 | the checksum of a string is the one 32-bit number whose bit-reversed complement is the remainder of the message, shifted by 32 with its first 32 bits complemented, modulo the CRC-32 generator polynomial |
| `Crc32Check.CheckValue` | crates/harness/src/recorded_run_encoding.rs:84-97 | the checksum of the nine ASCII digits from 1 to 9 is 0xCBF43926 |
| `ZipArchive.Get16OfU16` | crates/harness/src/recorded_run_encoding.rs:98-100 | a 16-bit field reads back the number it was written from |
| `ZipArchive.Get32OfU32` | crates/harness/src/recorded_run_encoding.rs:101-103 | a 32-bit field reads back the number it was written from |
| `ZipArchive.CheckLimits` | crates/harness/src/recorded_run_encoding.rs:120-131 | the limit loop accepts exactly the entry lists whose sizes and predicted archive length stay within the limits |
| `ZipArchive.BuildArchive` | crates/harness/src/recorded_run_encoding.rs:118-198 | the buffer-building loops produce exactly the specified archive or the specified error |
| `ZipArchive.SizePrediction` | crates/harness/src/recorded_run_encoding.rs:120-198 | the precomputed bound is the exact archive length, and each error occurs iff its own condition holds, so 32-bit conversions and the final length limit never fail |
| `ZipArchive.ArchiveOutcome` | crates/harness/src/recorded_run_encoding.rs:120-198 | an archive is written iff every entry is within the limit of its path, names and entry count are below 65,536 and the whole takes at most 16 MiB; each refusal has its exact condition |
| `ZipArchive.RoundTrip` | crates/harness/src/recorded_run_encoding.rs:118-195 | a reader that starts at the last 22 bytes and requires stored single-disk members of version 2.0 without flags, time stamps, extra fields or comments recovers exactly the path-sorted entries with names, contents, sizes and checksums |
| `ZipArchive.ArchiveOrder` | crates/harness/src/recorded_run_encoding.rs:118-119 | the entries found are a permutation of those given, ordered by path bytes, entries of one path in their given order |
| `CanonicalJson.Write` | crates/harness/src/recorded_run_encoding.rs:24-61 | the recursive writer appends exactly the printed value, and fails iff some number has no double |
| `CanonicalJson.Canonical` | crates/harness/src/recorded_run_encoding.rs:23-65 | the canonical bytes are the UTF-8 of the printed value, or the value has an unprintable number |
| `CanonicalJson.EquivalentPrintsEqually` | crates/harness/src/recorded_run_encoding.rs:23-65 | values that differ only in member order and number spelling print alike |
| `CanonicalJson.PrintUnique` | crates/harness/src/recorded_run_encoding.rs:23-65 | a printed value is self-delimiting and determines the value up to member order and double value |
| `CanonicalJson.CanonicalForm` | crates/harness/src/recorded_run_encoding.rs:23-65 | canonical bytes are equal iff the values are equal up to member order and double value of numbers |
| `JsonReader.CanonicalIsJson` | crates/harness/src/recorded_run_encoding.rs:23-65 | a reader of the RFC 8259 grammar reads canonical bytes, with nothing left over, as a value equal to the given one up to member order and double value, in which the keys of each object increase at their first differing UTF-16 unit |
| `JsonReader.ReaderOfNumbersExists` | crates/harness/src/recorded_run_encoding.rs:28-31 | some reading of number tokens inverts the number format of a faithful one |
| `CanonicalJson.FaithfulExists` | crates/harness/src/recorded_run_encoding.rs:28-31 | a faithful number format exists that prints every number |
| `CanonicalJson.PrintOneLine` | crates/harness/src/recorded_run_encoding.rs:23-65 | no printed value contains a raw newline |
| `CanonicalJson.Ndjson` | crates/harness/src/recorded_run_encoding.rs:11-22 | the stream loop succeeds iff every record and the stream fit their limits; an error names the first row that does not |
| `CanonicalJson.StreamSplits` | crates/harness/src/recorded_run_encoding.rs:11-22 | splitting the stream at newlines recovers the canonical bytes of each record in order |
| `CanonicalJson.StreamDeterminesRows` | crates/harness/src/recorded_run_encoding.rs:11-22 | two streams are equal iff their rows are pairwise equal up to member order and double value |
| `ExactTransition.Commit` | crates/harness/src/exact_transition.rs:59-95 | the payload buffer is the hash of the preimage for valid records; otherwise the first invalid field is named |
| `ExactTransition.PreimageInjective` | crates/harness/src/exact_transition.rs:59-95 | the NUL-terminated encoding with a dash for absent fields is injective on valid records |
| `TransitionReader.PreimageReads` | crates/harness/src/exact_transition.rs:59-95 | a reader that splits the hashed bytes at zero bytes, requires the domain and version and names the eleven fields by position reads them back as the record; the commitment is the prefix and the hash of those bytes |
| `TransitionReader.RecordOutcome` | crates/harness/src/exact_transition.rs:97-126 | a record is valid iff its labels take 1 to 256 bytes without NUL and its digests are 64 lower-case digits after their prefixes; which error each invalid record gets |
| `TransitionReader.StepOutcome` | crates/harness/src/exact_transition.rs:139-160 | what a record of a trace is refused for, each error iff its own defect is there and no earlier one |
| `TransitionReader.ValidTraceMeans` | crates/harness/src/exact_transition.rs:139-160 | a trace is valid iff its label, length and records are, the first record binds the source state, ordinals increase and every link is the labelled hash of the bytes of its predecessor |
| `ExactTransition.ValidateTrace` | crates/harness/src/exact_transition.rs:139-160 | the scan accepts iff header, ordinals and links are valid everywhere; an error is that of the first bad record |
| `ExactTransition.TraceExtends` | crates/harness/src/exact_transition.rs:139-160 | a valid trace extends by any valid boundary with a later ordinal once its link is set |
| `ExactTransition.ContinuityIsNotRequired` | crates/harness/src/exact_transition.rs:139-160 | a valid trace has a valid extension whose before-state is any state at all |
| `ExactTransition.CommitmentBindsPrefix` | crates/harness/src/exact_transition.rs:59-160 | equal commitments in two valid traces fix the index, every record up to it and the source state, or exhibit a collision |
| `ExactTransition.FinalCommitmentBindsTrace` | crates/harness/src/exact_transition.rs:59-160 | equal final commitments mean the same records and source state, or exhibit a collision |
| `ExactTransition.CompareTraces` | crates/harness/src/exact_transition.rs:202-269 | the scan reports the end of the longest common prefix of full records, the three early outcomes otherwise, and for invalid traces the error of the first invalid one |
| `ExactTransition.IdenticalMeansPrefix` | crates/harness/src/exact_transition.rs:202-269 | identity is reported iff the expected records begin the actual ones, and the compared count is the longest common prefix |
| `TransitionReader.ComparisonMeans` | crates/harness/src/exact_transition.rs:202-289 | every field of a report follows from the number of agreeing records and the first difference of the two records after them |
| `ExactTransition.DifferenceExplains` | crates/harness/src/exact_transition.rs:230-289 | each outcome is reported iff its difference is there and all differences looked for earlier are absent |
| `ExactTransition.DifferenceSeesAllButTheLink` | crates/harness/src/exact_transition.rs:271-289 | no difference is reported iff the records are equal in everything but the chain link |
| `ExactTransition.CommitmentsAgreeInsidePrefix` | crates/harness/src/exact_transition.rs:202-289 | commitments agree at a shared index iff it is inside the common prefix, up to an explicit collision |
| `CoopWire.SettledRecoveryNeedNotAdvance` | crates/harness/src/coop_native_wire_rules_responses.rs:73-192 | a settled recovery response parses whatever generation its receipt starts from |
| `CoopCoordinator.Coordinator.AppendRecord` | crates/harness/src/coop_native_coordinator_impl.rs:274-315 | a record is appended iff fewer than 256 are held, and the receipt describes that record |
| `CoopCoordinator.Coordinator.ConsumeEnvelope` | crates/harness/src/coop_native_coordinator_impl.rs:142-201 | the method takes the step that the run results are about, with the port result as input |
| `CoopCoordinator.Coordinator.Invoke` | crates/harness/src/coop_native_coordinator_impl.rs:61-131 | consume, reconcile, their fixture lanes and the retry of an unknown operation take their steps on the same state |
| `CoopAcceptance.ConsumeOutcome` | crates/harness/src/coop_native_coordinator_impl.rs:142-201 | an envelope is accepted iff its fence, lineage, consistency, actor and timing hold and there is room, and each error iff its own condition holds, in terms of the envelope and what is known of its operation |
| `CoopAcceptance.ConsumeEffect` | crates/harness/src/coop_native_coordinator_impl.rs:142-201 | what an accepted envelope changes: a repeated one only adds a replay record, a new one is delivered, recorded as announced and opens or moves its own operation only |
| `CoopAcceptance.RefusalEffect` | crates/harness/src/coop_native_coordinator_impl.rs:142-201 | a refusal changes nothing, except that the port keeps what it received at a full log |
| `CoopAcceptance.PerformOutcome` | crates/harness/src/coop_native_coordinator_impl.rs:61-131 | which public calls are refused before consuming, and that an unknown operation is never retried blindly |
| `CoopAnnouncements.RecordsAnnounce` | crates/harness/src/coop_native_coordinator_impl.rs:203-315 | after every run each record that is not a replay carries the event, state and identities that the kind and status of its envelope announce |
| `CoopAnnouncements.FinalStatesAreAnnounced` | crates/harness/src/coop_native_coordinator_impl.rs:203-272 | after every run an operation is settled or rejected iff a new record of it carries an effect response of that status, and reconciled iff one carries a settled or rejected recovery |
| `CoopCoordinatorRuns.OperationTableIsLog` | crates/harness/src/coop_native_coordinator_impl.rs:142-272 | in every reachable state each operation shows the state of its last record, and the log moves only along legal transitions |
| `CoopCoordinatorRuns.StepMoves` | crates/harness/src/coop_native_coordinator_impl.rs:203-272 | one envelope leaves an operation as it is or moves it along a legal transition |
| `CoopCoordinatorRuns.FinishedOperationsStay` | crates/harness/src/coop_native_coordinator_impl.rs:142-272 | settled, rejected and reconciled operations never change again |
| `CoopCoordinatorRuns.RequestNeverResets` | crates/harness/src/coop_native_coordinator_impl.rs:142-201 | a request for a known operation changes neither the table nor the port |
| `CoopCoordinatorRuns.ExactlyOnceDelivery` | crates/harness/src/coop_native_coordinator_impl.rs:155-200 | over every run the deliveries are the new records in order and then those made at a full log; they are exactly the new records iff there are none of the latter, and no digest is delivered twice iff none of the latter is |
| `CoopFullLog.RetryAtFullLogDeliversTwice` | crates/harness/src/coop_native_coordinator_impl.rs:155-200 | 256 recorded observations and one more delivered twice: a parsed run in which the port receives one digest twice |
| `CoopCoordinatorRuns.DeliveryIsRecordedIffRoom` | crates/harness/src/coop_native_coordinator_impl.rs:155-200 | a delivery is recorded iff the log has room; at a full log a retry delivers again |
| `CoopCoordinatorRuns.OnlyTheBoundFailsAfterDelivery` | crates/harness/src/coop_native_coordinator_impl.rs:155-200 | after a delivery only the record bound can fail, and errors leave log, table and seen digests alone |
| `CoopCoordinatorRuns.FencesAndGenerations` | crates/harness/src/coop_native_coordinator_attribution.rs:29-63 | each record of an operation, replays included, carries its request's fence, generation and actor, and a settled effect observes a later generation, or a digest collision is exhibited |
| `CoopCoordinatorRuns.RouteFenceIsConstant` | crates/harness/src/coop_native_coordinator_impl.rs:147-178 | every record of an operation, replays included, carries the operation's route, or a digest collision is exhibited |
| `CoopCohort.ReadyErrorMeans` | crates/harness/src/coop_native_cohort_validation.rs:15-31 | readiness fails with no error iff the host and every peer are ready and agree on checkpoint, digest and authority |
| `CoopCohort.RouteErrorMeans` | crates/harness/src/coop_native_cohort.rs:155-183 | one route passes its own conditions iff it satisfies the order-free local conditions |
| `CoopCohortRules.RouteOutcome` | crates/harness/src/coop_native_cohort.rs:155-183 | what one route is refused for, each error iff its own defect is there and no earlier one |
| `CoopCohort.Validate` | crates/harness/src/coop_native_cohort.rs:143-230 | the accumulating loop succeeds iff routes are locally valid, agree pairwise, have distinct peers and form the roster; an error names a defect that is there |
| `CoopCohortRules.CohortMeans` | crates/harness/src/coop_native_cohort.rs:143-230 | routes form a cohort iff they are two to four, each fits on its own, their peers differ, they agree on run, authority, checkpoint and state, and each sees exactly the peers of all |
| `CoopCohort.CohortIgnoresOrder` | crates/harness/src/coop_native_cohort.rs:143-230 | success and the cohort are the same for every permutation of the routes |
| `CoopCohort.ScheduledAction` | crates/harness/src/coop_native_cohort.rs:237-272 | a scheduled action is in the route's catalog, at its generation, on its fence, under the request's operation |
| `CoopCohortRules.ScheduleOutcome` | crates/harness/src/coop_native_cohort.rs:237-272 | in a cohort an action is scheduled iff the request is the peer's own, on its lease, for an action of the current catalog; the operation carries its identity, lease and generation, and each error has its exact cause |
| `CoopCohort.ValidateConvergedRoster` | crates/harness/src/coop_native_cohort_settlement.rs:4-51 | the loop succeeds iff every roster peer reports the settled state and matched checksum exactly once |
| `CoopCohort.ValidateSettlement` | crates/harness/src/coop_native_cohort.rs:274-312 | settlement succeeds iff route, fence, evidence and convergence all hold, and each error has its stated cause |
| `CoopCohortRules.SettlementMeans` | crates/harness/src/coop_native_cohort.rs:274-312 | an operation is settled iff the response returns on its route and lease, proves the effect from its generation to the later observed one, and every roster peer confirms that state and its matched checksum once |
| `CoopCohort.ScheduleThenSettle` | crates/harness/src/coop_native_cohort.rs:237-312 | a scheduled operation that settles was in the catalog, moved the host past it, and was confirmed once by each roster peer |
| `CoopCohort.SettlementIgnoresOrder` | crates/harness/src/coop_native_cohort_settlement.rs:4-51 | settlement does not depend on the order of the refreshed observations |
| `JournalRecord.LineReads` | crates/harness/src/operation_journal.rs:271-279 | a stored line, read as UTF-8 and JSON by member names, gives back its entry |
| `JournalRecord.LineIsOneLine` | crates/harness/src/operation_journal/persistence.rs:120-124 | the only newline of a stored line is its last byte |
| `JournalRecord.LineFits` | crates/harness/src/operation_journal/persistence.rs:11-12 | every line the journal writes is within the limit that replay reads with |
| `OperationJournal.Replay` | crates/harness/src/operation_journal/persistence.rs:59-92 | the replay loop rebuilds exactly the table and committed length of the recursive reading, with its errors |
| `OperationJournalRules.OpensIff` | crates/harness/src/operation_journal/persistence.rs:59-118 | a file opens iff it is whole lines of at most 16 KiB that decode to at most 12,288 records which may follow one another, with at most a torn tail; the table is theirs and the tail is dropped |
| `OperationJournalRules.ApplyMeans` | crates/harness/src/operation_journal/persistence.rs:94-118 | a record is applied iff it is a new pending attempt with the next number or a known one with the same number and digest and an allowed outcome; the capacity error has its exact condition |
| `OperationJournal.Journal.Open` | crates/harness/src/operation_journal.rs:172-182 | opening yields the replayed table and drops a torn tail, or fails with the replay's error |
| `OperationJournal.Journal.AppendLine` | crates/harness/src/operation_journal.rs:271-279 | a failed append leaves some prefix of the line and poisons the journal |
| `OperationJournal.Journal.BeginAttempt` | crates/harness/src/operation_journal.rs:205-234 | begin takes its step: the file first, the table only after an acknowledged write |
| `OperationJournal.Journal.CompleteAttempt` | crates/harness/src/operation_journal.rs:237-261 | complete takes its step: the file first, the table only after an acknowledged write |
| `OperationJournalRules.BeginOutcome` | crates/harness/src/operation_journal.rs:205-234 | every answer of begin iff its own condition holds, with the limits written out, and the exact table and file afterwards |
| `OperationJournalRules.CompleteOutcome` | crates/harness/src/operation_journal.rs:237-261 | every answer of complete iff its own condition holds, with the allowed outcomes listed, and the exact table and file afterwards |
| `OperationJournalRuns.TableIsLastWrite` | crates/harness/src/operation_journal.rs:205-261 | the table holds the last record of every key in the log and nothing else |
| `OperationJournalRuns.LogBound` | crates/harness/src/operation_journal/persistence.rs:11-12 | a legal log has at most three records a key, so replay's record limit is never reached |
| `OperationJournalRuns.ReplayLog` | crates/harness/src/operation_journal/persistence.rs:59-92 | the file of a legal log with any torn tail reopens to the log's table and loses only the tail |
| `OperationJournalRuns.ReopenRecovers` | crates/harness/src/operation_journal/persistence.rs:59-118 | reopening always succeeds; it keeps the acknowledged log or adds the one record stored in full by a failed write |
| `OperationJournalRuns.CrashConsistency` | crates/harness/src/operation_journal.rs:205-293 | after any run with failing writes the table is the fold of the acknowledged log, and the durable log is at most one legal record ahead |
| `OperationJournalRuns.IdentitiesNeverChange` | crates/harness/src/operation_journal.rs:205-293 | digests and sequences never change and terminal outcomes are absorbing, through reopenings too |
| `OperationJournalRuns.StartsOnce` | crates/harness/src/operation_journal.rs:205-234 | after a key started, later attempts are told the existing entry or a conflict, never a second start |
| `OperationJournalRuns.SequencesNumberKeys` | crates/harness/src/operation_journal.rs:205-234 | sequences number the keys from one without repetition, so the counter stays below 4,098 |
| `OperationJournalRuns.LinesAreRead` | crates/harness/src/operation_journal/persistence.rs:85-86 | reading JSON by member names reads back every line that the journal can store |
| `DecisionFence.Count` | crates/harness/src/decision_fence.rs:83-85 | the sum of set sizes is the number of outstanding tokens, whatever the order of epochs |
| `DecisionFence.Fence.IssueToken` | crates/harness/src/decision_fence.rs:94-111 | issue takes its step on the four fields |
| `DecisionFence.Fence.SettleToken` | crates/harness/src/decision_fence.rs:114-127 | settle takes its step and touches only the outstanding table |
| `DecisionFence.Fence.AdvanceEpoch` | crates/harness/src/decision_fence.rs:130-144 | advancing takes its step: it drops older epochs and counts what it drops |
| `DecisionFence.TokensAreConserved` | crates/harness/src/decision_fence.rs:83-144 | issued = settled + outstanding + invalidated in every reachable state; outstanding tokens are the unsettled ones of the current epoch, at most 4,096 |
| `DecisionFence.IssuesFreshTokens` | crates/harness/src/decision_fence.rs:94-111 | a token is issued iff the epoch is current and fewer than 4,096 are outstanding; it carries the epoch and the next number, and each error has its exact cause |
| `DecisionFence.SettlesExactlyOnce` | crates/harness/src/decision_fence.rs:114-127 | a token settles iff it was issued in the current epoch and not settled before; each error has its exact cause |
| `DecisionFence.AdvanceReportsOutstanding` | crates/harness/src/decision_fence.rs:130-144 | an epoch advances iff the new one is later; it returns and counts exactly the number outstanding, leaves none, and none of those tokens settles later |
| `LookupItems.ValidateItemOrder` | crates/harness/src/game_information_validation_order.rs:5-69 | the neighbour loop accepts exactly the lists whose items all have a sort key and are globally ordered |
| `LookupItems.ExceedsMeans` | crates/harness/src/game_information_validation_order.rs:56-65 | the strict comparison of string tuples is the negation of their order |
| `LookupOrder.OrderedMeans` | crates/harness/src/game_information_validation_order.rs:5-69 | items are ordered iff every item has the fields its key names and of any two the one with the smaller bytes at the first differing field comes first, or last when descending |
| `LookupSession.ValidatePageChain` | crates/harness/src/game_information_records.rs:229-292 | the loops over retained pages and items name exactly the specified defect, or none |
| `LookupRules.ChainOutcome` | crates/harness/src/game_information_records.rs:229-292 | a page is accepted iff every retained page of the operation is readable and of the same listing, no cursor repeats, nothing is listed twice, the order holds and the total adds up |
| `LookupRules.RetainedListing` | crates/harness/src/game_information_records.rs:229-292 | over every run an operation's retained items hold nothing twice, are in listing order and add up, and all its pages describe one listing |
| `LookupRules.AdmitOutcome` | crates/harness/src/game_information_admission.rs:17-105 | which queries are admitted and what each refusal means |
| `LookupRules.PageSequenceOutcome` | crates/harness/src/game_information_admission.rs:107-123 | a page may be asked for iff it is the first of its operation or the one its last cursor names, among the first 16 |
| `LookupRules.RetainedOutcome` | crates/harness/src/game_information_records.rs:6-37 | which bytes a record serves at a clock, and what each refusal means |
| `LookupRules.AdmitEntryOutcome` | crates/harness/src/context_memory/corpus.rs:114-171 | an entry is admitted iff it is valid now, of the corpus's scope, and the same as what its identifier already holds; what the corpus is then |
| `LookupRules.CheckOutcome` | crates/harness/src/game_information_records.rs:118-176 | which raw answers pass all checks that come before retention |
| `LookupRules.AcceptsIff` | crates/harness/src/game_information_records.rs:86-203 | an answer is taken in iff it passes, can be retained and some view of it fits the budget; what each refusal is |
| `LookupRules.AcceptOutcome` | crates/harness/src/game_information_records.rs:86-203 | the exact record, chain and delivery of an accepted answer, and the record of a refused one |
| `LookupRules.ProducerOutcome` | crates/harness/src/game_information_records.rs:118-176 | which producer codes ask for a new observation, which are passed on and which are invalid |
| `LookupRules.DeliverOutcome` | crates/harness/src/game_information_records.rs:207-227 | the whole answer is shown when it fits the budget, else a reference when that fits, else nothing |
| `LookupRules.QueryOutcome` | crates/harness/src/game_information.rs:218-241 | a query is dispatched iff it is admitted, its page may be asked for and its tool is known, with each refusal and the exact session afterwards |
| `LookupRules.ReplaySucceeds` | crates/harness/src/game_information.rs:264-303 | a record replays to a delivery iff it is the session's, its bytes are served now and decode to a valid answer, and the view is the recorded one; a recorded error replays to itself and a foreign record diverges |
| `LookupRules.ReadOutcome` | crates/harness/src/game_information_records.rs:39-57 | a read gives exactly the retained bytes from the offset on, as many as the budget allows, and what each refusal means |
| `LookupSession.ValidateIdentities` | crates/harness/src/game_information_records.rs:272-282 | the identity set accepts exactly the lists without a repeated identity |
| `LookupSession.Lookup.AcceptAnswer` | crates/harness/src/game_information_records.rs:86-116 | an accepted answer moves the chain and adds its record; a refused one only adds an error record |
| `LookupSession.Lookup.RecordError` | crates/harness/src/game_information_records.rs:74-84 | a failure adds one record without a source |
| `LookupSession.Lookup.Query` | crates/harness/src/game_information.rs:218-241 | a query takes its step, with the dispatch result and the corpus's decision as inputs |
| `LookupSession.Lookup.Invalidate` | crates/harness/src/game_information.rs:210-214 | invalidation clears capabilities, chains and snapshot and keeps the records |
| `LookupSession.Lookup.ObserveSnapshot` | crates/harness/src/game_information_bootstrap_session.rs:21-30 | a new or cleared snapshot forgets the chains and keeps the records |
| `LookupPages.AdmitGrows` | crates/harness/src/context_memory/corpus.rs:114-171 | admission only adds entries, the content is held under its reference, and a newly held entry expires after the clock it was created at |
| `LookupPages.EarlierItemsMeans` | crates/harness/src/game_information_records.rs:239-264 | passing the chain condition means the earlier pages list alike, none asked for the new next cursor, and their items are all collected |
| `LookupPages.RetainedPagesFormOneListing` | crates/harness/src/game_information_records.rs:229-292 | over every run an operation's retained items are duplicate-free and globally ordered, and a complete final page counts them |
| `LookupPages.CursorsNeverCycle` | crates/harness/src/game_information_records.rs:229-292 | no next cursor equals an earlier or own request cursor, and the cursors of the current chain are pairwise distinct |
| `LookupPages.UnclearedListingIsOneChain` | crates/harness/src/game_information_admission.rs:107-123 | until a snapshot is cleared all retained pages are one contiguous chain of at most 16 |
| `LookupPages.DispatchAddsOneRecord` | crates/harness/src/game_information.rs:218-241 | a refused query changes nothing, a dispatched one adds one record up to 256, a failed one moves no chain |
| `LookupReplay.RunLookupToolLoop` | crates/harness/src/game_information_agent.rs:78-120 | the live loop computes the recursive live run |
| `LookupReplay.HandleQuery` | crates/harness/src/game_information.rs:245-260 | the port query of a turn takes its step and gives its feedback |
| `LookupReplay.RunLookupReplayToolLoop` | crates/harness/src/game_information_agent_replay.rs:8-154 | the replay loop computes the recursive replay and changes only the cursor |
| `LookupDecisions.OnlyLegalActions` | crates/harness/src/game_information_agent.rs:78-120 | an action comes out of either loop only if it is in the host's legal set, decided by the agent's last turn, and the snapshot shown last is absent or of the legal generation |
| `LookupDecisions.LiveOutcome` | crates/harness/src/game_information_agent.rs:78-120 | the live result is Ok(a) iff the last turn decides a legal a; illegal decisions, agent errors, stale snapshots and used-up turns each give their error; inputs count down within the bound of 32 |
| `LookupDecisions.ReplayOutcome` | crates/harness/src/game_information_agent_replay.rs:8-154 | the same of the replay loop, which moves nothing but its cursor |
| `LookupTurns.LiveFeedbackIsTrue` | crates/harness/src/game_information_agent.rs:122-168 | in every live run each answer shown is the one that came back and was recorded, each read shows a part of the retained bytes, and each failure is the recorded one or changed nothing |
| `LookupTurns.ReplayQueryOutcome` | crates/harness/src/game_information_agent_replay.rs:46-80 | what a replayed query shows and moves, and what each end of the replay means |
| `LookupReplay.ReplayOneQuery` | crates/harness/src/game_information_agent_replay.rs:46-80 | one replayed query matches its record, moves the cursor and gives the feedback or the error that ends the loop |
| `LookupSimulation.DispatchedMeans` | crates/harness/src/game_information.rs:218-260 | a dispatched query was admitted and leaves a record with the answer's bytes held, or with its error |
| `LookupSimulation.ReplayQuerySame` | crates/harness/src/game_information.rs:264-303 | a dispatched query replays in any later corpus and on any clock to the feedback it gave live, or to a missing retention if its source has expired |
| `LookupSimulation.ReplayReadSame` | crates/harness/src/game_information_records.rs:39-57 | an accepted retained read replays to the same bytes in any later corpus while its source has not expired on the replaying clock |
| `LookupExpiry.ReplaySimulatesLive` | crates/harness/src/game_information_agent_replay.rs:8-154 | replay shows a deterministic agent the same inputs iff no shown source has expired on its clock; then it ends with the same result and consumes one record a query, otherwise it departs at the first expired answer |
| `LookupExpiry.ReplayUntilExpiry` | crates/harness/src/game_information_agent_replay.rs:8-154 | over a corpus without earlier entries of these records, the inputs are the same iff the replaying clock is before the live session's expiry or no answer was shown |
| `LookupExpiry.SourcesExpireTogether` | crates/harness/src/game_information_records.rs:177-203 | every source of such a run expires at the session's expiry, later than its clock |
| `LookupExpiry.RefusedQueryEndsReplay` | crates/harness/src/game_information_agent_replay.rs:46-66 | a query refused before dispatch left no record, so its replay ends there as divergent or invalid unless the next record stands for it |
| `LookupExpiry.AnswerReplaysIffAlive` | crates/harness/src/game_information.rs:264-303 | an accepted answer replays to its delivery until the entry that holds it expires on the replaying clock, and a newly held one is alive on the live clock |
| `LookupExpiry.DuplicateOverExpired` | crates/harness/src/context_memory/corpus.rs:149-157 | a concrete answer is delivered over an expired entry of the same content and cannot be replayed even by its own session |
| `Text.Utf16Units` | crates/harness/src/recorded_run_encoding.rs:46-48 | a character is one UTF-16 unit of its own value or the surrogate pair that stands for it |
| `Text.HexRoundTrip` | crates/harness/src/lib.rs:11-20 | hexadecimal text decodes to the bytes it was written from |
| `LookupChunks.EnvelopeSize` | crates/harness/src/exo_lookup_feedback.rs:75-80 | the serialized chunk envelope has exactly the computed number of bytes |
| `LookupChunks.BytesFeedback` | crates/harness/src/exo_lookup_feedback.rs:59-91 | the loop shrinks at most once, answers iff one byte fits beside the first next offset, fits the budget and never sends an empty chunk early |
| `LookupChunks.RefusesThoughOneByteFits` | crates/harness/src/exo_lookup_feedback.rs:73-90 | at a budget below 200 bytes a read of a concrete source is refused although one byte of it would fit |
| `LookupChunks.EnoughBudgetAnswers` | crates/harness/src/exo_lookup_feedback.rs:59-91 | from 200 bytes of budget on, no read of a retained source is refused at any offset |
| `LookupChunks.EnvelopeReads` | crates/harness/src/exo_lookup_feedback.rs:75-77 | a client that reads the text of an envelope as JSON by member names gets back exactly what was put in |
| `LookupChunks.AnswerMeans` | crates/harness/src/exo_lookup_feedback.rs:59-91 | which envelope answers a read: as many bytes as 3,000, the budget and the source allow, less as few as make up for the excess over 7,000 or the budget, and never none early |
| `LookupChunks.AnswersIffOneByteFits` | crates/harness/src/exo_lookup_feedback.rs:73-90 | with equally wide next offsets the loop answers iff one byte fits; an answer always means one byte fits |
| `LookupChunks.WholeBudgetCarriesAll` | crates/harness/src/exo_lookup_feedback.rs:59-91 | with the whole feedback budget every chunk goes out in full |
| `LookupChunks.RetainedReadIsSlice` | crates/harness/src/game_information_records.rs:39-57 | a retained read is the slice of the source at its offset, bounded by the budget |
| `LookupChunks.AnswerAdvances` | crates/harness/src/exo_lookup_feedback.rs:59-91 | each answer before the end advances by at least one byte, stays in the source and fits the budget |
| `LookupChunks.ChunksReconstruct` | crates/harness/src/exo_lookup_feedback.rs:59-91 | the bytes decoded from the texts by any client that follows next_offset are exactly the source so far |
| `LookupChunks.ReadsTerminate` | crates/harness/src/exo_lookup_feedback.rs:59-91 | a client is at the end or has at least one byte a read |
| `LookupChunks.EveryClientFinishes` | crates/harness/src/exo_lookup_feedback.rs:59-91 | from 200 bytes of budget on, a client can always read on and has the whole source after at most one read a byte |
| `LookupChunks.WholeReads` | crates/harness/src/exo_lookup_feedback.rs:59-91 | with the whole budget n reads get min(3000 n, length) bytes and no read is refused |
| `LookupChunks.LargestSourceTakes22Reads` | crates/harness/src/exo_lookup_feedback.rs:59-91 | 65,536 bytes are complete iff at least 22 reads were made |

## Left out

- File creation, syncing and hard-link publication of archives, and snapshot reading: only the bytes are modelled.
- SHA-256, HMAC, double formatting, JSON decoding and JSON Schema validation: foreign code, taken as parameters.
- CanonicalJson.Canonical: objects are member lists without repeated keys, as the JSON library guarantees.
- Journal locking, directory creation and read errors while opening: operating-system calls.
- OperationJournal.Journal.AppendLine: a failed write leaves a prefix of the line; a disk that corrupts earlier bytes is not modelled.
- DecisionFence.TokensAreConserved: counters are unbounded, so 64-bit overflow is not modelled.
- Cohort recovery, artifact and manifest verification, lineage records and trace export of the coordinator: easy members.
- LookupSession.ValidatePageChain: page accounting, field rules and capability contents are parameters, because the session only accepts or refuses by them.
- LookupItems.ValidateItemOrder: an item carries its display name as found, not the field list it was found in.
- LookupPages.AdmitGrows: capacity, revoked identifiers and the remaining entry rules of the corpus are an input that may refuse any entry; held entries are not revoked.
- LookupReplay.RunLookupToolLoop: bootstrap turns, which change the snapshot, and history turns, which are never replayed, are not modelled.
- LookupReplay.HandleQuery: re-encoding and decoding the request with its correlation is taken as the identity.
- LookupExpiry.ReplaySimulatesLive: entries that the corpus already holds under an identifier of this binding's records must be entries of its lookups, as identifiers are hashes of those records; queries refused before dispatch are in `RefusedQueryEndsReplay`.
- Feedback arms other than bytes, subprocess supervision, transports, argument mapping, capture ring and decision memory: plumbing or easy members.
