# DBF_Anonymizer in Dafny

DBF_Anonymizer replaces the values of a DBF dataset by reversible pseudonyms. A read-only
preflight proves that enough pseudonyms exist, pass 1 fills a protected vault, pass 2 writes the
pseudonymized tables, recovery reverses them, and a transfer bundle carries them to another machine.
This project models the logic of those steps and proves what they promise.

The main results, each for all inputs, all runs or all crash points:

- **Capacity.** The scan's verdict is compared with an independent definition of feasibility: an
  injective assignment of every distinct original to a non-empty token that differs from it and fits
  every field it occurs in. Hall's condition over the nested token pools is proved exact, by a
  constructive allocation (`Hall`). `Capacity.CapacitySufficient` follows the two phases of the code:
  phase A alone accepts whatever its announced slots allow, OK means an allocation exists (alphabets
  other than one letter), INSUFFICIENT means none exists for the whole dataset even when the scan
  stopped early, UNPROVEN means more originals than the ceiling up to a width that had to be counted.
- **From capacity to recovery.** `Pipeline` composes the parts: an accepted dataset has a text
  mapping under which pass 2 refuses no record, written text fits its field, and recovery returns
  the source.
- **Nothing slips through.** Written text is the pseudonym of a mapping row or refused, and masks are
  non-interfering: tables that differ only in masked payloads, other than the mask itself, are
  written identically (`MaskPrivacy`).
- **Round trip.** Pass 2 followed by recovery is the identity on every finalized table.
- **Parallel refines sequential.** The worker pool is an interleaved step system. Every successful
  run, for every worker count and interleaving, accepts the sequential tables in plan order;
  evidence shards merge to the evidence of one sequential pass, for every relation.
- **The pool makes progress.** From every reachable state that has not ended some faultless step is
  enabled, every step but an idle wait lowers a rank, and a clean plan left alone succeeds.
- **Pass 2 from end to end.** For a finalized plan the pool's tables are the transforms of their
  sources, a successful run exists, and after every successful run the merged shards of every
  relation with shared mappings compare as verified.
- **Relations.** The verdict is characterised on the rows themselves: same key multiplicities, same
  number of foreign rows with a parent, same NULLs (`RelationCounts`). It conserves more than it
  compares, and every declared relation whose two sides share injective mappings compares as
  verified, self-relations included.
- **Staged self-check.** Acceptance means the staged values are the reverse values; the surplus
  record the paired iteration hides is excluded exactly by the cross-table total.
- **Publish-or-nothing.** Over every script of faults, `recover` and bundle creation publish only
  what the staged verifiers accept, and exactly when nothing disturbed the run; a cancellation poll
  immediately precedes the rename and none follows it.
- **Crash consistency.** Over every crash point and any sequence of durable writes a file reads as a
  complete content; while a tree is synced, moved to its destination and the destination's directory
  is synced, every crash shows the destination as absent or as the complete tree.
- **Progress traces** over every callback behaviour.
- **Transfer bundle.** Acceptance by the standalone verifier is an exact inventory with the declared
  bytes, so that replacing any file is noticed (`BundleIntegrity`), and a staged
  bundle is accepted if and only if its request meets a stated condition, for every case folding and
  every file system that satisfies the stated laws.

## Where the code and its description part

- *One-letter alphabets.* preflight.py:768-769 says self-exclusion is infeasible only in the
  single-token edge case, and the code rechecks only width 1. `Capacity.UnaryAlphabetIsAccepted` is an
  accepted dataset without an allocation ("x" in a one-byte field, "AA" in a two-byte field, alphabet
  "A"). `Capacity.CapacitySufficient` states the exact condition: with one letter, an accepted dataset
  is feasible if and only if there is no width of two or more at which an original is the full-width token and
  the narrower originals need every shorter token.
- *Names that do not lead back.* The verifier opens files by their casefolded path. Among
  requests within the manifest's limits, a staged bundle is therefore refused exactly when some
  artifact path is not what its fold leads to on the file system (`BundleAgreement.CreateVerifyAgree`): "A.DBF" where names are case-sensitive
  (`BundleWitness.UpperCaseName`), "straße.dbf" also where they are not (`BundleWitness.SharpName`).
- *Values the self-check cannot accept.* For a shifted value without a stored offset the reverse
  transform writes NULL and the staged check refuses it; a kept value unequal to itself (NaN) is
  refused although it was kept. `Recovery.ProducerPassesCheck` shows that these are all, and the
  self-check accepts a faithfully staged recovery if and only if there is no such value
  (`StagedRecovery.SelfCheckAcceptsExactly`).
- *Interrupt after the rename.* A KeyboardInterrupt during the directory sync that follows the atomic
  rename is neither of the two exceptions `promote` handles, so the rename is not recorded and the
  cleanup deletes the staging root with its crash record although the destination is published
  (`Publication.InterruptLosesRecord`; that it is the only such case is in
  `Publication.PublishVerified`).
- *Truth test of a cancel check.* The docstring of `check_cancelled` says that a raw exception never
  escapes, but the truth test of the returned value stands outside the handler: a check that returns
  a value whose truth test raises a CancellationError passes for a cancellation nobody requested
  (`ProgressControl.TruthTestForgesCancellation`; the exact condition is in
  `ProgressControl.OutcomesAreContained`).
- *Interrupted shutdown.* A worker can outlive `run_pass_two` only if the executor's own shutdown is
  interrupted (`WorkerPool.ShutdownCanLeaveWorkers`, `WorkerPool.PoolIsSafe`).
- *Paired iteration.* One surplus pseudonymized record per table goes unnoticed
  (`Recovery.SurplusGoesUnnoticed`); the total closes the gap (`Recovery.VerifyStagedRecords`).

## Preconditions stated openly

- A stream yields at most as many records as the header announces (`WithinHeader`).
- The directives of one table name distinct fields, and so do the schema's fields; every application
  field has a row in the durable ledger, as the coherence check before recovery demands.
- Pseudonyms are non-empty, mapping tables are bijective (their two unique indexes), memo rows are
  keyed by physical index, and one non-zero offset is stored per shifted domain.
- A fresh table reads back what was written: order, deletion markers and application values.
- Bundle: the folding of one character is never empty, leaves lower-case ASCII letters, dot, slash
  and hyphen alone, makes no separators and is stable under folding (`LetterLaws`; full Unicode case
  folding and ASCII folding qualify); lower-casing keeps dot-names; names the file system takes for
  the same file fold alike. Table paths and the companions of table paths are normal forms, and a
  written manifest parses back.
- Durable writes: every crash image of the target is an allowed complete content and the live
  temporary is not a file the target could resolve to. Every outcome re-establishes this.

## Layout

`TextTokens`, `Hall`, `Occurrences`, `Capacity`, `PathSafety` — preflight.
`Records`, `VaultState`, `Pass2`, `MaskPrivacy`, `WorkerPool`, `WorkerProgress`, `CompositeIdentity`, `Relations`,
`EvidenceMerge`, `RelationCounts`, `RelationPreservation`, `EndToEnd` — pass 2.
`Recovery`, `StagedRecovery`, `RoundTrip`, `Pipeline`, `RecoveryRun` — recovery and the composition.
`KeyIndex`, `BundlePaths`, `TransferBundle`, `BundleExactness`, `BundleIntegrity`, `BundleCreation`,
`BundleAgreement`, `BundleWitness`, `BundleRun` — the transfer bundle.
`Publication`, `Durability`, `TreeDurability`, `TreePublication`, `ProgressControl` — the machinery around them.
`Wrappers`, `Collections` — shared helpers.

`dafny verify dfyconfig.toml` checks everything.

## Model

| member | source | states |
|---|---|---|
| TextTokens.TokenSpaceAtLeast | src/dbf_anonymizer/transforms/text.py:155-172 | the early-stopping stream decides exactly whether base^1 + ... + base^w reaches the needed number |
| TextTokens.Pool | src/dbf_anonymizer/transforms/text.py:136-152 | the geometric formula counts exactly the non-empty strings over the alphabet of at most w characters |
| Hall.Allocate | src/dbf_anonymizer/preflight.py:764-770 | under Hall's condition and without a rigid original, an injective, fitting, self-excluding allocation is constructed |
| Hall.FeasibleNeedsHall | src/dbf_anonymizer/preflight.py:764-770 | every allocation forces Hall's condition at every width |
| Hall.FeasibleIff | src/dbf_anonymizer/preflight.py:764-770 | an allocation exists if and only if Hall's condition holds and no original is rigid |
| Occurrences.DatasetFeasibleIff | src/dbf_anonymizer/preflight.py:752-770 | the same, stated on the occurrences of a whole dataset |
| Occurrences.PhaseABound | src/dbf_anonymizer/preflight.py:862-870 | the occurrence bound is at least the number of distinct originals at most that wide |
| Occurrences.BoundCountsSlots | src/dbf_anonymizer/preflight.py:862-866 | the occurrence bound is the number of announced value slots (table, record, field) in fields no wider than the width |
| Occurrences.HallAtWidthsSuffices | src/dbf_anonymizer/preflight.py:857-870 | checking the field widths is enough for every width |
| Capacity.FieldWidths | src/dbf_anonymizer/preflight.py:857-857 | exactly the field widths of the dataset, ascending without repetition |
| Capacity.ComputeOccurrenceBound | src/dbf_anonymizer/preflight.py:862-866 | the nested loops compute the sum of record counts times narrow fields |
| Capacity.UnprovenWidths | src/dbf_anonymizer/preflight.py:859-870 | the tight widths are exactly those whose bound exceeds the token space |
| Capacity.NoteStrictest | src/dbf_anonymizer/preflight.py:888-902 | exactly the gained widths are incremented; a violation is a gained width past its token space |
| Capacity.Recount | src/dbf_anonymizer/preflight.py:888-902 | lowering one original changes a recount by one at exactly the gained widths |
| Capacity.ObserveValue | src/dbf_anonymizer/preflight.py:934-957 | the tracker stays the strictest widths, counters agree with a recount, the ceiling holds; UNPROVEN only on one more distinct original |
| Capacity.ScanRecord | src/dbf_anonymizer/preflight.py:934-959 | the same at the record boundary, or a verdict on everything in the record |
| Capacity.ScanTable | src/dbf_anonymizer/preflight.py:919-961 | the same at the table boundary |
| Capacity.ScanDataset | src/dbf_anonymizer/preflight.py:904-975 | the streamed proof is exact for all occurrences no wider than the widest tight width, or its early verdict holds of all of them |
| Capacity.StoppedScanGrows | src/dbf_anonymizer/preflight.py:957-975 | what a stopped scan found stays true of the whole dataset although strictest widths can still shrink |
| Capacity.SingleTokenCheck | src/dbf_anonymizer/preflight.py:980-988 | the edge case refuses exactly when the only width-1 original is the only letter |
| Capacity.CapacitySufficient | src/dbf_anonymizer/preflight.py:747-988 | an empty dataset, and with two letters every dataset whose announced slots fit the tokens at every width, is OK whatever it holds; UNPROVEN only if more than 65536 originals occur up to a width whose slots do not fit (or up to width 1 with one letter); otherwise OK exactly when an allocation exists, with one letter the exact condition |
| Capacity.UnaryAlphabetIsAccepted | src/dbf_anonymizer/preflight.py:871-874 | a dataset accepted with one letter that has no allocation |
| PathSafety.WithinIsTransitive | src/dbf_anonymizer/preflight.py:433-440 | lying below is transitive for all strings |
| PathSafety.OverlapIffShared | src/dbf_anonymizer/preflight.py:433-452 | two roots overlap if and only if some path lies in both |
| PathSafety.NoOverlapIffDisjoint | src/dbf_anonymizer/preflight.py:443-452 | no overlap is exactly the disjointness of the three subtrees |
| PathSafety.WithinIffComponents | src/dbf_anonymizer/preflight.py:433-440 | a path lies within another if and only if its components start with the other's components |
| PathSafety.OverlapIffComponents | src/dbf_anonymizer/preflight.py:443-452 | the three roots overlap if and only if the components of one start with those of another |
| PathSafety.SiblingIsOutside | src/dbf_anonymizer/preflight.py:433-440 | a sibling whose name merely continues another name does not overlap it |
| VaultState.LookupInverse | src/dbf_anonymizer/vault/mappings.py:166-183 | with both unique indexes, the reverse lookup undoes the forward lookup |
| VaultState.LookupInjective | src/dbf_anonymizer/vault/mappings.py:166-183 | forward lookup is injective |
| VaultState.ShiftInverse | src/dbf_anonymizer/transforms/temporal.py:121-153 | shifting back undoes a shift within the calendar |
| VaultState.ShiftKeepsDistances | src/dbf_anonymizer/transforms/temporal.py:121-153 | a shifted value lies exactly the offset later at the same time of day, distances are kept, and it is refused exactly outside the years 1 to 9999 |
| VaultState.MaskHides | src/dbf_anonymizer/transforms/memo.py:131-148 | a mask keeps NULL and is never the payload it replaces |
| MaskPrivacy.MaskIsFixed | src/dbf_anonymizer/transforms/memo.py:131-148 | every payload becomes the one primary mask of its kind, the primary itself the alternate, and everything else is refused |
| MaskPrivacy.HiddenTransformAlike | src/dbf_anonymizer/engine/pass2.py:407-408 | two payloads of one kind, neither a primary mask, are transformed alike, whether that succeeds or is refused |
| MaskPrivacy.MaskedPayloadsLeaveNoTrace | src/dbf_anonymizer/engine/pass2.py:377-424 | two source tables that differ only in masked payloads other than the primary masks are written as the same table and give the same evidence for every relation |
| MaskPrivacy.MaskedPayloadsRefusedAlike | src/dbf_anonymizer/engine/pass2.py:382-413 | such records are refused alike, with the same code |
| MaskPrivacy.WrittenMasks | src/dbf_anonymizer/engine/pass2.py:407-408 | a masked field of a written table holds NULL where the source did and one of the two fixed masks everywhere else |
| Pass2.NothingSlipsThrough | src/dbf_anonymizer/engine/pass2.py:386-406 | what a pseudonymized field holds is the pseudonym of a mapping row of its original; without a row the value is refused; NULL and the empty text are kept |
| Pass2.TransformFields | src/dbf_anonymizer/engine/pass2.py:382-413 | every listed field holds its transformed value, every other field its own, or the first listed field that cannot be transformed is refused |
| Pass2.TransformRecord | src/dbf_anonymizer/engine/pass2.py:377-419 | one record: transformed values and one row for every observing side, or a field or key member is refused |
| Pass2.TransformStream | src/dbf_anonymizer/engine/pass2.py:356-424 | records in physical order with their index and deletion marker, transformed field by field, type-0 fields dropped and unlisted fields unchanged, with the evidence of every relation side that names the table, or a refusal some record causes |
| WorkerPool.RunSequential | src/dbf_anonymizer/engine/pass2.py:112-140 | the one-worker branch completes exactly when no table refuses and no poll or acceptance raises, with every table's rows and their number; else it stops at the first refusal of the first table that refuses, or at the first poll or acceptance that raises |
| WorkerPool.PrimaryWorkerFailure | src/dbf_anonymizer/engine/pass2.py:232-248 | the failure returned is that of the first future in submission order that failed for a reason of its own; an induced cancellation only if all failures are |
| WorkerPool.PrimaryIsGenuine | src/dbf_anonymizer/engine/pass2.py:232-248 | with a culprit among the futures the primary failure is no induced cancellation and the first genuine one in submission order |
| WorkerPool.TotalCountsRows | src/dbf_anonymizer/engine/pass2.py:112-140 | the record total is the number of rows of all accepted tables |
| WorkerPool.WorkerKeepsInv | src/dbf_anonymizer/engine/pass2.py:258-338 | every worker step keeps the pool invariant |
| WorkerPool.CoordinatorKeepsInv | src/dbf_anonymizer/engine/pass2.py:141-195 | every coordinator step keeps the pool invariant |
| WorkerPool.FailureIsRetained | src/dbf_anonymizer/engine/pass2.py:243-244 | the guard against a lost worker failure is never reached |
| WorkerPool.RunKeepsInv | src/dbf_anonymizer/engine/pass2.py:141-195 | the invariant holds at every point of every interleaving |
| WorkerPool.ParallelRefinesSequential | src/dbf_anonymizer/engine/pass2.py:112-195 | a successful run accepted each table once, in plan order, with the sequential contents and totals |
| WorkerPool.PoolIsSafe | src/dbf_anonymizer/engine/pass2.py:166-195 | nothing of a failing batch is accepted, no worker survives the exit unless the executor's shutdown is interrupted, a raised worker failure is that of the first worker that failed by itself |
| WorkerPool.ShutdownCanLeaveWorkers | src/dbf_anonymizer/engine/pass2.py:142-195 | a run in which an interrupted shutdown leaves a worker behind |
| WorkerProgress.StepDescends | src/dbf_anonymizer/engine/pass2.py:141-195 | every step but an idle wait lowers the rank |
| WorkerProgress.RunsAreBounded | src/dbf_anonymizer/engine/pass2.py:141-195 | a run that never idles has at most as many steps as the initial rank |
| WorkerProgress.NeverStuck | src/dbf_anonymizer/engine/pass2.py:141-195 | from every reachable state that has not ended a step in which nothing goes wrong is enabled |
| WorkerProgress.LeftAloneItEnds | src/dbf_anonymizer/engine/pass2.py:112-195 | from every reachable state the pool can end, and a clean untroubled plan then succeeds |
| EvidenceMerge.ObservedHolds | src/dbf_anonymizer/engine/state.py:433-475 | one pass records the multiplicity of every key, the rows and the NULLs |
| EvidenceMerge.MergeKeys | src/dbf_anonymizer/engine/state.py:675-690 | merging adds the counts of every key and keeps keys unique, for shard rows in any order |
| EvidenceMerge.MergeShard | src/dbf_anonymizer/engine/state.py:667-709 | the merged side is the evidence of both row lists together |
| EvidenceMerge.MergeAccepted | src/dbf_anonymizer/engine/pass2.py:112-122 | merging the shards of all accepted tables gives the evidence of all their rows |
| EvidenceMerge.SameRowsCompareAlike | src/dbf_anonymizer/engine/state.py:584-652 | evidence of the same rows is compared alike, whatever the key order |
| EvidenceMerge.ParallelComparesAlike | src/dbf_anonymizer/engine/pass2.py:112-199 | after any successful run, evidence to which each table contributes what the relation names compares as that of a sequential pass |
| EvidenceMerge.RelationComparesAlike | src/dbf_anonymizer/engine/pass2.py:414-419 | the same for the relation of one parent and one foreign table, possibly the same table |
| CompositeIdentity.EncodeInjective | src/dbf_anonymizer/engine/state.py:264-287 | two key tuples of any arity have the same identity if and only if they are equal |
| Relations.ObserveSide | src/dbf_anonymizer/engine/pass2.py:427-454 | one row is counted as a NULL tuple or under its canonical key; an unsupported member is refused |
| Relations.ObserveSides | src/dbf_anonymizer/engine/pass2.py:414-419 | every side that names the table observes the record; refused exactly when some member cannot be keyed |
| Relations.ProfileEqual | src/dbf_anonymizer/engine/state.py:638-652 | the two ordered streams agree if and only if the multisets of counts are equal |
| Relations.CompareOne | src/dbf_anonymizer/engine/pass2.py:473-515 | the summary of one relation and the exact rule behind `verified`, on evidence; RelationCounts says what every figure counts |
| Relations.CompareRelations | src/dbf_anonymizer/engine/pass2.py:457-516 | one summary per declared relation, in order |
| Relations.KeyableMeans | src/dbf_anonymizer/engine/pass2.py:436-443 | text and integers can be part of a key, NULL can stand in its place, nothing else can; a tuple has no key if and only if it holds a NULL |
| RelationCounts.MatchedIsRowsWithParent | src/dbf_anonymizer/engine/state.py:625-636 | the matched figure is the number of foreign rows some parent row equals, the orphan figure the number of keyed foreign rows none does |
| RelationCounts.ProfileIsMultiplicities | src/dbf_anonymizer/engine/state.py:638-652 | profiles are equal if and only if, for every n, as many keys occur n times before as after |
| RelationCounts.UniqueIsDistinct | src/dbf_anonymizer/engine/state.py:609-614 | the unique figure is the number of distinct keys among the rows |
| RelationCounts.VerifiedIffRowsPreserved | src/dbf_anonymizer/engine/pass2.py:473-500 | `verified` if and only if key multiplicities, the number of foreign rows with a parent and the NULL rows of both sides are the same before and after |
| RelationCounts.SummaryCountsRows | src/dbf_anonymizer/engine/pass2.py:473-515 | every figure of a summary read off the rows; a changed number of foreign rows with a parent is never verified |
| Relations.ObservedIsBalanced | src/dbf_anonymizer/engine/pass2.py:445-454 | each row adds one row and either one NULL or one key |
| Relations.VerifiedConserves | src/dbf_anonymizer/engine/pass2.py:476-516 | `verified` implies equal row totals and unique counts, which it does not compare; its orphan term is redundant |
| Relations.SamePatternVerifies | src/dbf_anonymizer/engine/pass2.py:457-516 | keeping NULLs and the equality pattern of keys is enough for `verified` |
| Relations.InjectiveMapVerifies | src/dbf_anonymizer/engine/pass2.py:427-516 | component-wise injective, NULL-preserving maps verify at every arity |
| RelationPreservation.ObserveTable | src/dbf_anonymizer/engine/pass2.py:414-419 | observing a whole table gives its evidence, refused exactly when some member is unsupported |
| RelationPreservation.MappingIsInjective | src/dbf_anonymizer/engine/pass2.py:383-413 | the mapping of a key field is injective and keeps NULL on observed values |
| RelationPreservation.PassTwoPreservesRelation | src/dbf_anonymizer/engine/pass2.py:356-516 | a declared relation with shared mappings compares as verified after pass 2, self-relations included |
| RelationPreservation.PseudonymizeRelated | src/dbf_anonymizer/engine/pass2.py:356-516 | running pass 2 over both tables refuses nothing, and the shards it writes compare as verified with equal totals |
| EndToEnd.FinalizedJobIsClean | src/dbf_anonymizer/engine/pass2.py:258-338 | no table of a finalized plan refuses, and its rows are a transform of its source |
| EndToEnd.JobOf | src/dbf_anonymizer/engine/pass2.py:356-424 | the job of a table is what transforming and observing each record yields |
| EndToEnd.PoolTransforms | src/dbf_anonymizer/engine/pass2.py:112-195 | every successful interleaving accepts, table by table in order, a transform of the source |
| EndToEnd.FinalizedPlanSucceeds | src/dbf_anonymizer/engine/pass2.py:112-195 | a successful run exists for every finalized plan and worker count |
| EndToEnd.MergeSide | src/dbf_anonymizer/engine/state.py:667-709 | merging all shards of a relation side gives the evidence of the table it names |
| EndToEnd.RelationVerifies | src/dbf_anonymizer/engine/pass2.py:88-213 | after every successful run the merged shards of a relation with shared mappings compare as verified, with equal row totals and unique counts |
| Recovery.RecoverValues | src/dbf_anonymizer/recovery.py:687-709 | exactly the application fields are present and hold their reverse values, or some field is refused |
| Recovery.RecoverStream | src/dbf_anonymizer/recovery.py:673-710 | records in order with their deletion markers and reverse values under index zero, or a refusal that some record causes |
| Recovery.ProducerPassesCheck | src/dbf_anonymizer/recovery.py:547-602 | a produced value passes the separate check if and only if it is neither an unshifted remnant nor a kept value unequal to itself |
| Recovery.ZeroOffsetIsRefused | src/dbf_anonymizer/verification.py:491-509 | a stored offset of zero is refused by recovery and by the self-check |
| Recovery.CheckMeansReversed | src/dbf_anonymizer/recovery.py:820-856 | an accepted value is the reverse value, remnants excepted |
| Recovery.CheckRecord | src/dbf_anonymizer/recovery.py:808-856 | accepts exactly equal index, deletion marker and agreeing fields |
| Recovery.VerifyStagedTable | src/dbf_anonymizer/recovery.py:767-863 | accepts exactly equal schema facts and agreeing records with at most one surplus pseudonymized record |
| Recovery.VerifyStagedRecords | src/dbf_anonymizer/recovery.py:751-764 | accepts exactly agreeing tables with the expected total; with the true total, equal lengths table by table |
| Recovery.VerifyStagedInventory | src/dbf_anonymizer/recovery.py:733-750 | accepts exactly when the staged files are the ledger's tables and the companions of its memo tables, no file missing and none foreign |
| Recovery.VerifyStagedRecovery | src/dbf_anonymizer/recovery.py:713-764 | accepts exactly the exact inventory, agreeing tables and the expected total |
| Recovery.TotalClosesGap | src/dbf_anonymizer/recovery.py:751-764 | equal totals mean equal lengths, because no table is longer staged than pseudonymized |
| Recovery.SurplusGoesUnnoticed | src/dbf_anonymizer/recovery.py:794-863 | dropping the last staged record of an accepted table is accepted |
| Recovery.AcceptedIsReversed | src/dbf_anonymizer/recovery.py:713-863 | after acceptance with the true total, schema facts, lengths, physical indices and deletion markers agree and every staged value is the reverse value of its pseudonymized one up to True for 1 and False for 0, unshifted remnants excepted |
| Recovery.SameValueMeans | src/dbf_anonymizer/recovery.py:817-860 | the comparison of the self-check is equality up to the two truth values, and a value unequal to itself never passes |
| StagedRecovery.RecoverTables | src/dbf_anonymizer/recovery.py:605-670 | every table is recovered in order and the receipt's total holds, or the cause of the refusal |
| StagedRecovery.SelfCheckAcceptsExactly | src/dbf_anonymizer/recovery.py:713-863 | the self-check passes what the producer staged if and only if every value can be verified |
| RoundTrip.FieldRoundTrip | src/dbf_anonymizer/recovery.py:547-602 | for every action, reversing the transformed value gives the source value |
| RoundTrip.PassTwoIsTotal | src/dbf_anonymizer/engine/pass2.py:382-413 | pass 2 refuses no record of a finalized table |
| RoundTrip.TableRoundTrip | src/dbf_anonymizer/recovery.py:673-710 | recovery of the published table is not refused and is the source: order, deletion markers, values |
| RoundTrip.PseudonymizeAndRecover | src/dbf_anonymizer/engine/pass2.py:356-424 | running both passes on a finalized table returns the source table and leaves its evidence in the shard |
| Pipeline.ValueOccurs | src/dbf_anonymizer/preflight.py:934-939 | every non-empty text value of a participating field is in the scan's domain |
| Pipeline.OccurrenceIsValue | src/dbf_anonymizer/preflight.py:934-939 | every value in the scan's domain is a non-empty text value of a participating field |
| Pipeline.TableIsFinalized | src/dbf_anonymizer/engine/pass2.py:382-413 | an allocation's rows finalize the vault for every table of the plan |
| Pipeline.FittingRowsAllocate | src/dbf_anonymizer/preflight.py:764-770 | conversely, fitting bijective mapping rows are an allocation |
| Pipeline.MappingIffFeasible | src/dbf_anonymizer/preflight.py:764-770 | a finalizing text mapping exists if and only if the dataset is feasible |
| Pipeline.AcceptedDatasetRoundTrips | src/dbf_anonymizer/preflight.py:747-988 | an accepted dataset has a bijective, fitting, self-excluding text mapping that finalizes every table, with one letter exactly when no original is rigid; after INSUFFICIENT no mapping does |
| Pipeline.FinalizedTableRoundTrips | src/dbf_anonymizer/recovery.py:673-710 | under it, recovery returns the source and every written text fits its field and differs from the original |
| BundlePaths.CompanionInjective | src/dbf_anonymizer/transfer_bundle.py:975-991 | two table paths without dot-names never share a companion |
| BundlePaths.DotNamesCollide | src/dbf_anonymizer/transfer_bundle.py:365-366 | without the refusal of dot-names two tables share a companion |
| BundlePaths.FoldIdempotent | src/dbf_anonymizer/transfer_bundle.py:342-346 | folding twice folds once, for every folding of characters that obeys the laws |
| BundlePaths.FoldCommutesWithCompanion | src/dbf_anonymizer/transfer_bundle.py:975-991 | folding a path and taking its companion commute, also where a character folds to several |
| TransferBundle.ValidateManifest | src/dbf_anonymizer/transfer_bundle.py:587-715 | accepts exactly closed key sets, well-formed headers and entries with distinct folded keys, and returns the dictionary of the entries |
| TransferBundle.CasefoldInventory | src/dbf_anonymizer/transfer_bundle.py:328-347 | accepts exactly paths that stay distinct when folded, and lists each under its key |
| TransferBundle.VerifyPayload | src/dbf_anonymizer/transfer_bundle.py:941-996 | accepts exactly matching bytes, counts and schemas, declared companions and no unexpected FPT |
| TransferBundle.VerifyNames | src/dbf_anonymizer/transfer_bundle.py:908-936 | accepts exactly trees without forbidden or non-portable names |
| TransferBundle.VerifyManifest | src/dbf_anonymizer/transfer_bundle.py:922-996 | accepts exactly when manifest, inventory and payload agree |
| TransferBundle.VerifyCore | src/dbf_anonymizer/transfer_bundle.py:872-1000 | accepts exactly the trees that satisfy the stated acceptance, with their fingerprint and artifact count |
| BundleExactness.FptsAreCompanions | src/dbf_anonymizer/transfer_bundle.py:975-996 | the declared FPTs are exactly the companions of the memo tables |
| BundleExactness.AcceptedNamesLeadBack | src/dbf_anonymizer/transfer_bundle.py:943-947 | every accepted name is what its fold leads to on the file system |
| BundleExactness.AcceptanceIsExact | src/dbf_anonymizer/transfer_bundle.py:872-1000 | folding is a bijection from files to declared artifacts plus manifest; the FPTs are the memo companions; the count is tables plus memo tables; every name leads back, so on a case-sensitive file system every name is folded |
| BundleIntegrity.AcceptedBytes | src/dbf_anonymizer/transfer_bundle.py:941-974 | for every declared artifact the tree holds exactly one file of that folded path, with the declared size and digest; a table has the declared count in header and stream and the declared schema |
| BundleIntegrity.SameManifestSameBytes | src/dbf_anonymizer/transfer_bundle.py:947-950 | in trees accepted with the same manifest, files of the same folded path have the same size and digest |
| BundleIntegrity.SameManifestSameFiles | src/dbf_anonymizer/transfer_bundle.py:936-939 | trees accepted with the same manifest hold files of the same folded paths |
| BundleIntegrity.TamperingIsRefused | src/dbf_anonymizer/transfer_bundle.py:947-950 | replacing any file but the manifest by content of another size or digest makes an accepted tree refused |
| BundleIntegrity.OtherSizeIsRefused | src/dbf_anonymizer/transfer_bundle.py:936-939 | with the same manifest, a tree of another number of files is refused |
| BundleIntegrity.DeniedIff | src/dbf_anonymizer/transfer_bundle.py:350-367 | a path is denied if and only if it ends in a denied suffix or its last component contains a marker, starts with a dot or starts with "~$" |
| BundleIntegrity.NothingDeniedInBundle | src/dbf_anonymizer/transfer_bundle.py:908-936 | an accepted bundle holds no denied file in any folder |
| BundleIntegrity.VaultIsDenied | src/dbf_anonymizer/transfer_bundle.py:216-248 | a vault file is denied under every name and in every folder |
| BundleIntegrity.VaultLogIsDenied | src/dbf_anonymizer/transfer_bundle.py:216-248 | so is its write-ahead log |
| BundleIntegrity.TokenIffHarmless | src/dbf_anonymizer/transfer_bundle.py:555-584 | a token is exactly a printable ASCII text of at most 128 characters without blanks or backslashes that is not absolute and has no component of two dots |
| BundleIntegrity.AcceptedHeaderStates | src/dbf_anonymizer/transfer_bundle.py:587-905 | an accepted manifest declares pseudonymized data only, at most 4096 artifacts in at most a million bytes, and harmless tokens |
| BundleIntegrity.AcceptedAssuranceStates | src/dbf_anonymizer/transfer_bundle.py:718-842 | accepted assurance counts every relation once, and its level follows from the counts |
| BundleIntegrity.AcceptedEntryStates | src/dbf_anonymizer/transfer_bundle.py:651-712 | an accepted entry has a portable, allowed path whose extension is its kind; tables have a count and a schema, memo files neither |
| BundleCreation.ExpectedPayload | src/dbf_anonymizer/transfer_bundle.py:1109-1117 | each table, followed by its companion exactly when it has memo fields |
| BundleCreation.Allowlist | src/dbf_anonymizer/transfer_bundle.py:1118-1129 | accepts exactly allowed items with distinct keys |
| BundleCreation.CopyPayload | src/dbf_anonymizer/transfer_bundle.py:1139-1169 | copies every artifact once under its normal path with a truthful entry, or a source is not copyable |
| BundleCreation.PlanPayload | src/dbf_anonymizer/transfer_bundle.py:1109-1129 | plans exactly the allowed payload of readable tables with distinct folded paths |
| BundleCreation.StagePayload | src/dbf_anonymizer/transfer_bundle.py:1139-1177 | copies and seals exactly the specified tree and manifest, or nothing can be staged from the plan |
| BundleCreation.CreateStaged | src/dbf_anonymizer/transfer_bundle.py:1109-1182 | stages exactly the specified tree and manifest, and fails only when nothing can be staged |
| BundleAgreement.StagedManifestIsSealed | src/dbf_anonymizer/transfer_bundle.py:1168-1177 | the one manifest the staged tree can hold is the written one |
| BundleAgreement.TransferableIsAccepted | src/dbf_anonymizer/transfer_bundle.py:1193-1198 | a transferable request passes the self-verification |
| BundleAgreement.AcceptedIsTransferable | src/dbf_anonymizer/transfer_bundle.py:1193-1198 | only a transferable request passes it |
| BundleAgreement.CreateVerifyAgree | src/dbf_anonymizer/transfer_bundle.py:1109-1198 | for every lawful folding and file system the staged tree is accepted if and only if the request is transferable, with creation's fingerprint and artifact count |
| BundleAgreement.CreateAndSelfVerify | src/dbf_anonymizer/transfer_bundle.py:1109-1198 | building and verifying succeeds exactly on transferable requests |
| BundleWitness.OneTableTransfers | src/dbf_anonymizer/transfer_bundle.py:943-947 | one table is transferred exactly when its name leads back from its fold |
| BundleWitness.UpperCaseName | src/dbf_anonymizer/transfer_bundle.py:943-947 | under the real denylist an upper-case table is accepted exactly where names are not case-sensitive |
| BundleWitness.SharpName | src/dbf_anonymizer/transfer_bundle.py:943-947 | a name with a letter that folds to two is refused on both kinds of file system |
| BundleWitness.SomeBundleIsAccepted | src/dbf_anonymizer/transfer_bundle.py:872-1000 | a concrete one-table bundle is accepted |
| BundleRun.AcceptedIffTransferable | src/dbf_anonymizer/transfer_bundle.py:1193-1198 | the staged tree is accepted if and only if the request is transferable |
| Publication.Staging.Promote | src/dbf_anonymizer/engine/publication.py:521-550 | publishes only onto an absent target, after verification; the rename is recorded before a sync failure propagates but not when an interrupt strikes after it |
| Publication.Staging.CleanupOwned | src/dbf_anonymizer/engine/publication.py:564-583 | removes owned staging before the rename and does nothing from the rename on |
| Publication.PublishVerified | src/dbf_anonymizer/transfer_bundle.py:1200-1247 | our tree exists exactly when the rename happened; two polls precede it, the second immediately, and none follows; the terminal event comes only after promotion and closing; a failure that surfaces is that of closing, else the first on the way; published but unrecorded exactly under an interrupt after the rename |
| Publication.InterruptLosesRecord | src/dbf_anonymizer/engine/publication.py:535-550 | the interrupted run: published, unrecorded and without its crash record |
| RecoveryRun.Recover | src/dbf_anonymizer/recovery.py:306-377 | for every script of faults: what is published is this ledger's staged dataset and the self-check accepts it with the true total; on a faithful medium published exactly when undisturbed, recoverable and verifiable; success is reported exactly when nothing failed after the rename either |
| RecoveryRun.CopyingIsFaithful | src/dbf_anonymizer/recovery.py:306-377 | a disk that keeps what is written is a faithful medium |
| BundleRun.CreateBundle | src/dbf_anonymizer/transfer_bundle.py:1070-1247 | for every script of faults: published exactly when undisturbed, a tree was staged and the verifier accepts what the disk made of it, and that tree is what is published; success is reported exactly when nothing failed after the rename either |
| Durability.SyncDirectory | src/dbf_anonymizer/durability.py:128-166 | which faults count as unsupported and which as failures, fault by fault, and the effect on the disk |
| TreePublication.AtomicReplace | src/dbf_anonymizer/durability.py:169-195 | between two directories, which faults make the rename fail, the sync fail after it, or the sync unsupported; a failed rename leaves the disk alone |
| Durability.RenameIsAtomic | src/dbf_anonymizer/durability.py:169-195 | renaming a complete synced temporary shows an allowed content or the new one after any crash, and only the new one after a directory sync |
| Durability.WriteDurableBytes | src/dbf_anonymizer/durability.py:198-225 | the outcome as a function of the faults alone; after every system call, none skipped, a crash shows a complete allowed content or the new one and another write may follow; after True only the new one, after a failed write only what was allowed before |
| Durability.OldOrNewAt | src/dbf_anonymizer/durability.py:198-225 | with one durable content before, a crash after any step shows complete old or complete new |
| Durability.WriteAll | src/dbf_anonymizer/engine/publication.py:461-489 | any sequence of durable writes under any faults: every crash shows a complete content, each outcome follows from its faults, and once a write returned True only its own content and later ones remain possible |
| TreeDurability.FsyncTree | src/dbf_anonymizer/durability.py:228-267 | succeeds exactly when no listed file and no directory fails and no checkpoint cancels, an unsupported directory sync being no failure; contents and the live tree are untouched, no call is skipped; on success every file of every nested directory is synced and, where directories can be synced, every path of the tree reads as it is after every crash |
| TreeDurability.SyncedReadsLive | src/dbf_anonymizer/durability.py:243-267 | a tree whose files and directories are all synced shows itself after every crash |
| TreePublication.MovedIsComplete | src/dbf_anonymizer/durability.py:188-195 | a synced tree stays intact in every crash image while directories above it change |
| TreePublication.PublishTree | src/dbf_anonymizer/engine/publication.py:417-433 | the tree is placed exactly when its sync succeeds; syncing, moving and syncing the destination's directory, no call skipped: a crash after any step shows the destination as absent or as the complete tree, and after success as the complete tree |
| TreePublication.PromoteTree | src/dbf_anonymizer/engine/publication.py:521-550 | the staging object and the disk agree on what is published, absent or complete at every step |
| ProgressControl.ProgressController.CheckCancelled | src/dbf_anonymizer/progress.py:246-280 | the poll refines the step function for every callback reply |
| ProgressControl.ProgressController.StartPhase | src/dbf_anonymizer/progress.py:282-287 | a passed poll resets the phase's count and total and emits the entry event |
| ProgressControl.ProgressController.Bump | src/dbf_anonymizer/progress.py:289-298 | increments the phase's count and emits it |
| ProgressControl.ProgressController.Complete | src/dbf_anonymizer/progress.py:317-330 | the optional poll and the terminal event |
| ProgressControl.ProgressController.Emit | src/dbf_anonymizer/progress.py:332-370 | the event carries the one operation id; a raising callback becomes a callback failure |
| ProgressControl.RunHasOneId | src/dbf_anonymizer/progress.py:207-240 | in every run all events carry one operation id |
| ProgressControl.HoldsSinceEntry | src/dbf_anonymizer/progress.py:282-298 | a phase's count is the number of bumps since its last entry and its total the one given there |
| ProgressControl.BumpEventsCountUp | src/dbf_anonymizer/progress.py:289-298 | bump events run 1, 2, 3, ... after each entry of their phase and carry the total given at that entry and their table |
| ProgressControl.EventsReportTheCall | src/dbf_anonymizer/progress.py:282-330 | entry events carry count 0 and their total, progress events their figures, terminal events the count as total of the whole operation; nothing else emits |
| ProgressControl.RequestStopsTheCall | src/dbf_anonymizer/progress.py:246-287 | a requested cancellation stops every polling call before it changes a count, a total or the events |
| ProgressControl.OutcomesAreContained | src/dbf_anonymizer/progress.py:246-280 | cancellation exactly when a polling call's check returned true; every raising callback becomes a callback failure, whatever it threw; a raw exception escapes exactly beyond Exception or from the truth test of a returned value |
| ProgressControl.TruthTestForgesCancellation | src/dbf_anonymizer/progress.py:262-280 | a check whose returned value raises on its truth test passes for a cancellation |
| ProgressControl.TerminalEventsAreCompletions | src/dbf_anonymizer/progress.py:317-330 | terminal events are exactly the completions that were let through |

## Left out

- dbfbridge reading and writing, SQLite, hashing, JSON text, OS locks and directory walking: foreign
  calls; tables are sequences of records, the vault and the spool are maps, rows and counters, a
  file is what can be learned from its bytes.
- Pass-1 allocation: only the state it leaves behind (`Finalized`, `Observed`) is used; that a text
  mapping exists is proved, that the allocator finds it is not.
- The policy guards and the choice of the alphabet in the capacity scan: the alphabet and the
  participating fields are parameters; cancellation polls and read failures of the scan are not steps.
- The numeric capacity scan, storage estimates and the remaining preflight checks: simple arithmetic
  or decisions taken elsewhere.
- Numeric mapping rows are integers rather than canonical decimal text; text components of a key
  identity are given by their UTF-8 image.
- The path grammar of the bundle (`_normalized_artifact_path`) is a parameter; its two laws that
  the agreement needs are stated as `PathLaw` and `CanonicalTables`.
- File systems that identify names which fold differently (such as those that also normalize
  Unicode) are outside the agreement: `NamesFoldAlike` excludes them.
- Manifest entries keep payload order; the source sorts them by key, which no result depends on.
- TransferBundle.ValidateManifest: header tokens are ASCII; the key sets, the scope note, the evidence
  version and the grammar of relationship fingerprints are parameters (`Vocabulary`).
- Reading memo payloads during bundle verification: a table's readability is a fact of its own file.
- TreeDurability.FsyncTree: the two directory walks are parameters; any order that covers the tree will do.
- RecoveryRun.Recover: authority validation is a single step with an outcome; a table that cannot be read
  back is a fault of its step.
- BundleRun.CreateBundle: the verified-dataset precondition and the identity proof are single steps.
- Equality across value types is limited to booleans and integers (True equals 1) and to NaN.
- Index-preserving output, CLI, policy files, planning counts, health checks and release tools: they
  would only add easy members.
