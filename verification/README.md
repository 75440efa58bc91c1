# A model of migration-verifier

migration-verifier compares a source and a destination MongoDB cluster while a
migration still writes to both. It scans all documents once (generation 0),
watches both clusters' change events, and rechecks every changed or mismatched
document in later generations, until writes are off and a last generation has
run. This project models the parts of it on which that verdict rests and proves
what they guarantee.

## Layout

| files | part |
|---|---|
| `RecheckProtocol`, `RecheckInvariant`, `RecheckSafety`, `RecheckRuns`, `RecheckProgress`, `RecheckCarryOver` | change readers, event persistors, workers and the generation driver as one step machine with crashes and restarts; its inductive invariant; its guarantees, of states and over runs; that it never gets stuck; the run that breaks one guarantee |
| `RecheckTasks`, `RecheckInsert` | filling a recheck queue, and turning it into document tasks |
| `ComparatorModel`, `Comparator`, `ComparatorResults`, `ComparatorBytes`, `VerifyTask` | the streaming comparator (functions on its caches, the class, what its reports say, its byte count) and the worker that reads its reports |
| `NaturalPartition`, `NaturalMisreport`, `RepeatedKeys` | the readers of natural partitions and their message alignment; partitions on which it, or the byte count, fails |
| `BsonCompare`, `BsonEquivalence`, `DocumentCompare`, `DocumentTask` | order-insensitive comparison of documents; what a task's verdict says of them |
| `MapKey`, `Bson`, `BsonSizes`, `ArraySplit` | document map keys, array sizes, insert requests, array splitting |
| `KeyString`, `KeyStringReader`, `KeyStringRoundTrip`, `KeyStringTypes` | the version 1 key string decoder as functions, the class that runs it, an encoder and the round trip, and the format's type bytes as plain numbers |
| `IdOrder`, `IdFilters`, `IdFilterResults` | the three forms of an `_id` range filter |
| `PartitionChain`, `IndexWalk`, `Partitioner` | stored partitions, their resumption, and the two ways to find their bounds |
| `ResetTasks` | the rollback of tasks after a restart |
| `OplogEvents`, `OplogProjection` | the two oplog parsers |
| `WritesOffDrain`, `OplogDrain` | how change stream and oplog readers finish once writes are off |

`dafny verify dfyconfig.toml` checks everything.

## How the source is represented

- A method with a loop is proved equal to a recursive function or to a stated
  property; lemmas then say what the function means. Objects that the source
  updates in place are classes (`Comparator`, `BufferConsumer`,
  `BSONArraySizer`, `TaskStore`, `PartitionTasks`, `ChangeStreamReader`,
  `OplogReader`).
- The generation protocol is a state machine on values: an action is one server
  request, one channel operation, or one update under the verifier's mutex, and
  a run is any sequence of enabled actions. Retries are repeated actions. A crash
  keeps what is stored (tasks, queues, the generation, resume tokens) and resets
  the rest.
- Assumed of the servers: single-task updates and single inserts are atomic,
  change events arrive in order, queries see the documents that their predicates
  select. `DeleteMany` and `UpdateMany` are not assumed atomic.
- Channels are sequences of messages; the comparator's loop takes them in rounds,
  one batch of each open reader per round, as `readBatches` does.
- Panics that a caller can avoid are preconditions (parallel arrays in
  `insertRecheckDocs`, batch sizes, no more documents found than ids asked for);
  panics inside the algorithms are proved unreachable or are results.
- Map iteration order is arbitrary wherever the source iterates a Go map.
- Byte counts that the source keeps in a `uint64` are kept modulo 2 to the 64.

## Where the code does not do what it is meant to

For each there is a lemma with a failing input, beside the condition under which
the intended property holds.

- `RecheckCarryOver.CrashInLastGenerationLosesMismatch`: mismatches of the last
  generation are not enqueued; after a crash in it the restarted process no longer
  knows that it was the last, and goes on without them. Without such a crash
  mismatches are always carried over (`RecheckSafety.MismatchesAreCarriedOver`);
  with one, a mismatch is exactly if its document was put into the next queue for
  another reason (`RecheckSafety.MismatchIsCarriedOverIff`).
- `NaturalMisreport.ByteSplitMisreports`: in a natural partition the padding counts
  documents only, so a destination answer that the 32-MiB limit splits into more
  messages shifts source and destination against each other, and an early flush
  reports documents missing that both clusters hold. The messages line up exactly
  if no such split happens (`NaturalPartition.EquallyManyIffUnsplit`), and it does
  not if every answer fits one message (`FittingAnswersAreUnsplit`). Whatever the
  messages, the reports are exact if and only if no flush comes between two
  documents with the same key (`ComparatorResults.RunIsExactIff`).
- `RepeatedKeys.RepeatedKeysHideMismatch`: a cached document that is replaced by one
  with the same key leaves its bytes in the count until the next flush, so a flush
  can be due with nothing to report, and the worker takes the empty report for the
  last one. `VerifyTask.ReportsUnreadIff` says exactly when it does.
- `Partitioner.SampledPartitionsCoverIff`: after a sampling cursor fails, the
  partitioner wraps the wrong error variable, which is nil, and returns success
  without the last partition (`FailedCursorCoversNothing`).
- `IndexWalk.WalkEndsIffNotStuck`: with one document per partition and a document
  whose `_id` is MinKey, the index walk finds the same bound for ever
  (`MinKeyIsWalkedForEver`).
- `IdFilterResults.ExplicitMeansExpr`: the explicit-type filter loses an `_id` of
  MinKey unless the upper bound is MinKey too (`ExplicitLosesMinKey`).
- `OplogProjection.ReplacementInTransactionIsLabelledUpdate`: in the projected form
  a replacement inside a transaction is counted as an update. Rechecks are the same.
- `RecheckTasks.TaskGoesAloneIff`: the builder never resets the byte count of the
  buffered tasks; once it has reached the request limit every later request holds
  one task (`SmallTasksGoAlone`). Every task is still sent exactly once.

## Model

| member | source | states |
|---|---|---|
| RecheckSafety.EveryWatchedEventIsCompared | internal/verifier/check.go:258-373 | in every run, with any interleaving, crashes and restarts: if the driver returns, every watched event of a cluster before its fence was enqueued for some generation and its document was compared in that generation by a task claimed after the event |
| RecheckRuns.EveryEventBeforeWritesOffIsCompared | internal/verifier/migration_verifier.go:346-411 | over whole runs, whatever interleaves or crashes: if the driver returns and no crash followed the last writes-off, every event that a cluster had logged at that step has its document in a finished task of a later generation than the first, claimed at a step of the run at which the event was in the log |
| RecheckRuns.ReturnFollowsWritesOff | internal/verifier/check.go:258-373 | every run in which the driver returns contains such a writes-off step, with no crash after it |
| RecheckProgress.DriverCanReturn | internal/verifier/check.go:258-373 | no deadlock: from every reachable state, whatever crashed or is half done, some continuation without a crash lets the driver return |
| RecheckProgress.RestartForgets | internal/verifier/reset.go:246-262 | a restart keeps each cluster's log and token, reads on from the token, and leaves no document task in progress and finished ones as they were |
| RecheckProgress.RestartReadsOn | internal/verifier/recheck_persist.go:58-95 | once a batch has been inserted and its token stored, a restart reads on after the batch |
| RecheckSafety.QueuesGrowOnlyAhead | internal/verifier/recheck.go:109-115 | no step adds to the queue of generation k unless the in-memory generation is k-1 |
| RecheckSafety.StoredGenerationsQueueIsFrozen | internal/verifier/check.go:310-373 | once generation k is the stored one, no run from there, restarts included, ever adds to queue k |
| RecheckSafety.GenerationsNeverShrink | internal/verifier/generation.go:51-73 | no step, a restart included, lowers the stored generation |
| RecheckSafety.QueueIsReadWhole | internal/verifier/check.go:730-774 | whenever a worker builds tasks from a queue, what it read is everything ever put into that queue |
| RecheckSafety.GenerationEndsWithItsQueueChecked | internal/verifier/check.go:126-155 | a generation is over, or can end, only when every id ever put into its queue lies in a finished document task of that generation, also across restarts |
| RecheckSafety.InterruptedTaskIsOfStoredGeneration | internal/verifier/reset.go:117-145 | a recheck-queue task in progress is always of the stored generation, so the reset's internal errors cannot occur |
| RecheckSafety.UnsuppressedMismatchIsRechecked | internal/verifier/migration_verifier.go:883-902 | when the driver has returned, a mismatch found before the final generation by a task that did not run in a last generation was compared again in the next one |
| RecheckSafety.MismatchesAreCarriedOver | internal/verifier/migration_verifier.go:883-902 | the same of every earlier mismatch, if no crash fell into a last generation |
| RecheckSafety.MismatchIsCarriedOverIff | internal/verifier/migration_verifier.go:883-902 | in every run up to the driver's return, crashes or not: an earlier mismatch is compared again in the next generation if and only if some step put its document into that generation's queue, for a change event or for a mismatch found outside a last generation; a task that finished outside one has put it there itself |
| RecheckSafety.ComparedIffQueued | internal/verifier/recheck.go:330-430 | when the driver has returned, the documents compared in a later generation than the first are exactly those ever put into its queue |
| RecheckSafety.QueueIsWhatWasPut | internal/verifier/recheck.go:91-248 | over any run a queue gains exactly what single steps put into it |
| RecheckCarryOver.CrashInLastGenerationLosesMismatch | internal/verifier/migration_verifier.go:883-902 | a reachable state in which the driver has returned although a mismatch was never compared again |
| RecheckInvariant.StepInv | internal/verifier/recheck_persist.go:58-95 | every enabled action keeps the invariant, among it: events below the stored token are enqueued, and every id of a read queue has a task |
| RecheckInvariant.RunInv | internal/verifier/check.go:258-373 | every run keeps it |
| RecheckTasks.GenerateRecheckTasks | internal/verifier/recheck.go:330-626 | for every queue the pass fails exactly if a namespace has no destination; otherwise the requests, end to end, are the tasks of a cut of the queue: cuts fall between documents, only where the namespace changes or a limit is reached, and each task has the ids, mismatch times, latest optimes and namespaces of its stretch; all requests but the last are at a request limit |
| RecheckTasks.PersistBufferedRechecks | internal/verifier/recheck.go:448-499 | turns the buffered ids into one task with the buffered metadata and sends the buffered tasks exactly at the task or byte limit; fails only for a namespace without destination |
| RecheckTasks.TaskGoesAloneIff | internal/verifier/recheck.go:474-499 | the first task of a request is sent alone if and only if the bytes of all tasks so far, sent ones included, have reached the limit |
| RecheckTasks.SmallTasksGoAlone | internal/verifier/recheck.go:474-499 | after one task as large as a request, two of one byte go in a request each |
| RecheckTasks.RecordEntry | internal/verifier/recheck.go:536-591 | the buffer after an entry: a change removes the document's mismatch time and raises its cluster's latest optime, a repeated document adds no id |
| RecheckTasks.AfterIsLater | internal/verifier/util.go:114-120 | one timestamp is after another exactly if its seconds, and for equal seconds its increment, are greater; equivalently if it is the greater 64-bit number |
| RecheckTasks.TaskHasLatestOptime | internal/verifier/recheck.go:536-575 | of the change entries of a task's stretch none has a greater time and increment than the task's optime for that cluster, and some entry has that optime |
| RecheckTasks.NoChangeNoOptime | internal/verifier/recheck.go:448-499 | a task has an optime of a cluster only if one of that cluster's changes in its stretch has it, and never the zero one |
| RecheckTasks.TaskNamespaces | internal/verifier/recheck.go:448-499 | a task's source namespace is its entries' database, a dot and their collection; its destination is the same without a namespace map, and else what the map gives |
| RecheckTasks.UnmappedIff | internal/verifier/recheck.go:448-499 | the pass fails exactly if there is a namespace map that lacks the namespace of some entry |
| RecheckTasks.TaskIdsAreQueueDeduplicated | internal/verifier/recheck.go:505-607 | the ids of all tasks, end to end, are the queue's ids without adjacent duplicates |
| RecheckTasks.TaskIsWithinLimits | internal/verifier/recheck.go:505-534 | a task has between one id and the maximum, and without its last id it is under both the id-size and the data-size limit |
| RecheckTasks.MismatchTimeMeansNoChange | internal/verifier/recheck.go:536-575 | a document of a task has a first-mismatch time exactly if none of its queue entries is a change, and its index is that of its id |
| RecheckTasks.PassIsOk | internal/verifier/recheck.go:505-591 | after every prefix of the queue the tasks so far and the buffer together describe exactly that prefix, or a namespace has no destination |
| RecheckInsert.InsertRecheckDocs | internal/verifier/recheck.go:91-248 | the batches hold the entries in order, none twice; no batch exceeds a limit before its last entry, and each but the last has a thousand entries or more than a mebibyte |
| RecheckInsert.EntriesAreReadable | internal/verifier/recheck.go:101-107 | every queue so filled is one that the task builder can read, each entry a change or a mismatch and never both |
| RecheckInsert.EntriesAt | internal/verifier/recheck.go:185-204 | entry i carries document i's namespace, id, size and its own optime or mismatch time |
| RecheckInsert.EntryOf | internal/verifier/recheck.go:185-204 | an entry in plain fields: a change has its optime and its side, a mismatch its time, never both |
| BsonSizes.GetBSONArrayTotalFieldNamesSize | mbson/array.go:40-87 | for every length under a million, the sum of the decimal digit counts of all positions |
| BsonSizes.NamesLenClosedForm | mbson/array.go:40-87 | the piecewise closed form equals the sum of digit counts |
| BsonSizes.GetBSONArraySize | mbson/array.go:15-35 | the length of the array's encoding (`document` and `e_list` productions of BSON Specification version 1.1) |
| BsonSizes.ArrayElementsLen | mbson/array.go:15-35 | the encoded elements take the names, two bytes each, and the values |
| BsonSizes.BSONArraySizer.Add | internal/util/bson.go:20-33 | the sizer stays equal to the encoded length of everything added |
| BsonSizes.BSONArraySizer.Len | internal/util/bson.go:36-40 | the encoded length of the array of everything added |
| BsonSizes.BuildRequestBSON | internal/verifier/recheck.go:250-301 | the request is the encoding of the insert command, and neither length check can fail |
| BsonSizes.RequestLayout | internal/verifier/recheck.go:250-301 | the request byte by byte: the insert command's fields in order, with their type bytes and length prefixes |
| ArraySplit.SplitArrayByBSONMaxSize | internal/util/bson.go:48-77 | the groups are the values in order; every group but the last reaches the size, and none would without its last value |
| StreamingComparator.Comparator.Run | internal/verifier/compare.go:196-262 | for any messages of both readers, the reports sent are exactly those of the rounds of the specification |
| StreamingComparator.Comparator.ReadBatches | internal/verifier/comparator.go:123-244 | the next batch of each open reader, destination flags before it merged into one, closed channels noted, source documents counted when read |
| StreamingComparator.Comparator.ProcessSingleDoc | internal/verifier/comparator.go:300-364 | a document joins its cache, or leaves the other cache with its peer and adds the problems of the pair, with the byte count adjusted modulo 2 to the 64 |
| StreamingComparator.Comparator.RecordMismatches | internal/verifier/comparator.go:353-362 | all differences of a pair are recorded with both read times, and their id bytes counted |
| StreamingComparator.Comparator.ProcessBatches | internal/verifier/compare.go:233-258 | the two batches are handled in alternation |
| StreamingComparator.Comparator.FlushIfNeeded | internal/verifier/comparator.go:368-391 | reports and empties everything exactly if the problem count or the byte count is at its limit |
| StreamingComparator.Comparator.Flush | internal/verifier/comparator.go:394-426 | one more report, of all problems and all unpaired documents; caches, problems and counts are empty |
| StreamingComparator.Comparator.SweepSrcCache | internal/verifier/comparator.go:433-448 | every cached source document adds one problem, missing on the target, in any order |
| StreamingComparator.Comparator.SweepDstCache | internal/verifier/comparator.go:450-462 | every cached destination document adds one problem, missing on the source, in any order |
| ComparatorResults.RunReportsExactly | internal/verifier/compare.go:209-261 | whatever the batches and early flushes, all reports together hold each due problem exactly as often as due and no other, if no key repeats on a side and the documents before a cursor's end share no key with those after it |
| ComparatorResults.RunIsExactIff | internal/verifier/compare.go:209-261 | without a key repeated on a side, a run reports exactly the problems due if and only if no flush comes between two documents with the same key |
| ComparatorResults.DueMeans | internal/verifier/comparator.go:300-463 | which problems are due of two sets of documents: one per key that one side lacks, and those of every pair that differs |
| ComparatorResults.IdPartitionIsComparedExactly | internal/verifier/compare.go:209-261 | without cursor-done messages: for any two streams without repeated keys, cut in any way, one report of exactly the true problems |
| ComparatorResults.ReportsAreExactIff | internal/verifier/compare.go:209-261 | from any point of a run, the reports still to come hold exactly the problems due of the documents since the last flush and those to come, if and only if no flush comes between two documents with the same key |
| ComparatorResults.FlushReportsExactly | internal/verifier/comparator.go:394-463 | a flush reports exactly the problems of the documents since the last flush |
| ComparatorResults.InterleaveHolds | internal/verifier/comparator.go:300-364 | after any batches the caches hold exactly the unpaired documents and the problems are those of the pairs; no document replaces another |
| ComparatorResults.RoundsCarryAllDocs | internal/verifier/comparator.go:123-244 | every document sent is compared, once and in order |
| ComparatorBytes.ProcessSrcCounts | internal/verifier/comparator.go:320-362 | the excess of the byte count over the cached and recorded bytes grows by exactly the bytes of a cached source document that is replaced |
| ComparatorBytes.ProcessDstCounts | internal/verifier/comparator.go:320-362 | the same for destination documents |
| ComparatorBytes.BatchesCount | internal/verifier/comparator.go:320-362 | and over whole batches by the bytes of all documents replaced |
| ComparatorBytes.DueFlushHasProblems | internal/verifier/comparator.go:368-391 | with a right count, a flush that is due has something to report |
| ComparatorBytes.EarlyReportsHaveProblems | internal/verifier/comparator.go:368-425 | in a run in which no cached document is replaced, every report but the last has problems |
| ComparatorBytes.EarlyReportIsEmptyIff | internal/verifier/comparator.go:368-425 | in any run, whatever keys repeat, some report before the last has no problems if and only if a flush finds nothing cached, no problem recorded, and bytes of replaced documents that alone reach the limit |
| ComparatorBytes.DistinctKeysNeverReplace | internal/verifier/comparator.go:320-327 | no key repeated on a side means that no cached document is replaced |
| ComparatorBytes.ReportsTallyAllDocs | internal/verifier/comparator.go:274-289 | all reports together count each source document once |
| ComparatorBytes.ReportsTallyAllBytes | internal/verifier/comparator.go:274-289 | and the bytes of each once |
| ComparatorBytes.FlushIsDueIff | internal/verifier/comparator.go:368-391 | a flush is due exactly from 100000 cached documents and problems on, or from 31457280 bytes on |
| VerifyTask.ProcessReports | internal/verifier/migration_verifier.go:819-950 | the worker reads up to the first empty report; status, counts, recorded mismatches and enqueued rechecks are those of the reports read; its assertion fails only without any report |
| VerifyTask.CompareDocuments | internal/verifier/migration_verifier.go:789-950 | a whole document task, from the readers' messages to its verdict: without a key repeated on a side, the mismatches recorded are exactly those due and it completes exactly if none is, if and only if no flush comes between two documents with the same key |
| VerifyTask.VerdictIsExact | internal/verifier/migration_verifier.go:819-950 | no report stays unread, all source documents are counted, the mismatches recorded are exactly those due, and the task completes if and only if none is due |
| VerifyTask.VerdictIsExactIff | internal/verifier/migration_verifier.go:819-950 | without a key repeated on a side no report stays unread and all source documents are counted; the mismatches recorded are exactly those due if and only if no flush comes between two documents with the same key |
| VerifyTask.ReportsUnreadIff | internal/verifier/migration_verifier.go:848-852 | in any run, some report stays unread if and only if a flush finds nothing to report but enough bytes left by replaced documents |
| VerifyTask.AgreementMeans | internal/verifier/comparator.go:300-364 | no problem is due if and only if both sides have the same keys and no pair differs |
| RepeatedKeys.RepeatedKeysHideMismatch | internal/verifier/migration_verifier.go:848-852 | natural partitions, each batch one server reply, whose cursor yields some documents twice: the task completes although a document is missing on the destination |
| RepeatedKeys.SuchPartitionsExist | internal/verifier/comparator.go:320-327 | four documents of eight million bytes that come twice are such a partition |
| VerifyTask.EmptyReportEndsTask | internal/verifier/migration_verifier.go:848-852 | an empty first report completes the task, whatever follows |
| NaturalPartition.FlushSourceBatch | internal/verifier/compare/natural.go:331-388 | the source's messages are the batch in chunks of a hundred |
| NaturalPartition.IterateCursorToChannel | internal/verifier/compare.go:639-727 | the messages and the count of a cursor's documents, cut at the document and byte limits |
| NaturalPartition.AnswerIds | internal/verifier/compare.go:424-513 | one batch of ids is answered with its documents, the padding, and the end of the cursor |
| NaturalPartition.SplitCount | internal/verifier/compare.go:685-724 | the messages carry all documents in order, respect both limits, and are never fewer than the count alone requires |
| NaturalPartition.ChunksCount | internal/verifier/compare/natural.go:363-374 | as many chunks as the batch count says, carrying all documents in order |
| NaturalPartition.HundredAMessage | internal/verifier/compare/natural.go:363-374 | a source batch goes out in one message for every hundred documents begun, the first hundred in the first |
| NaturalPartition.TwoInAMessageIff | internal/verifier/compare.go:695-698 | two documents go in one message exactly if together they have no more than 33554432 bytes |
| NaturalPartition.EquallyManyIffUnsplit | internal/verifier/compare.go:476-496 | source and destination send equally many messages if and only if the byte limit added none; never does the destination send fewer |
| NaturalPartition.SmallChunksAreUnsplit | internal/verifier/compare.go:695-698 | if no aligned hundred documents exceed the byte limit, none is added |
| NaturalPartition.FittingAnswersAreUnsplit | internal/verifier/compare.go:695-698 | an answer whose documents fit one message together is not split by the byte limit; so none is that finds just what the source sent, which came in one reply |
| NaturalPartition.BatchesInLockStep | internal/verifier/comparator.go:196-235 | then the comparator's rounds are the batches one after the other, each whole, and every cursor-done message falls between two batches |
| NaturalPartition.NaturalPartitionIsComparedExactly | internal/verifier/compare.go:444-513 | then the reports hold exactly the problems due of all documents read and found |
| NaturalPartition.FittingPartitionIsComparedExactly | internal/verifier/compare.go:444-513 | so the reports hold exactly the problems due if each answer fits one message or is what the source sent |
| NaturalMisreport.ByteSplitMisreports | internal/verifier/compare.go:695-698 | three batches, each one server reply: five documents that have become large on the destination, then two large ones that are the same on both clusters; one of the two is reported missing on the target |
| NaturalMisreport.SuchPartitionsExist | internal/verifier/compare.go:695-698 | there are such partitions |
| BsonCompare.CompareElements | internal/verifier/bson_compare.go:53-102 | stopping at the first mismatch it answers whether all fields match; otherwise it fails exactly if some shared field's comparison fails, and its details are exact |
| BsonCompare.CompareValue | internal/verifier/bson_compare.go:105-120 | the answer of the recursive comparison |
| BsonCompare.CompareArray | internal/verifier/bson_compare.go:124-144 | the answer for arrays, element by element in order |
| BsonEquivalence.SameIffEqualByKey | internal/verifier/bson_compare.go:53-144 | on all values, the answer is "same" if and only if the values are equal with fields looked up by key |
| BsonEquivalence.SameIffEqualUpToOrder | internal/verifier/bson_compare.go:53-144 | on values without repeated fields: no failure, and "same" if and only if equal up to a permutation of fields at every depth |
| BsonEquivalence.NoFailure | internal/verifier/bson_compare.go:133-137 | array keys cannot differ where elements are named by position |
| BsonEquivalence.Equivalence | internal/verifier/bson_compare.go:53-144 | the comparison is reflexive, symmetric and transitive |
| BsonEquivalence.Reflexive | internal/verifier/bson_compare.go:105-120 | every value, even with repeated fields, is equal to itself up to order |
| DocumentCompare.CompareOneDocument | internal/verifier/compare.go:872-921 | no findings if and only if the documents are equal, or equal up to field order where order is ignored; otherwise the findings of exact details, a missing id or a failed comparison reported as such |
| DocumentCompare.NoDetailsIffSame | internal/verifier/bson_compare.go:80-101 | the stopping and the detailed comparison agree |
| DocumentCompare.DetailsAreExact | internal/verifier/bson_compare.go:63-97 | the details list exactly the two differences of the key sets and the shared keys whose values are not equal up to order |
| DocumentCompare.ToFindings | internal/verifier/migration_verifier.go:729-787 | one finding per listed key: missing on source, missing on target, differing with its types |
| DocumentCompare.FindingsAreExact | internal/verifier/migration_verifier.go:729-787 | a key is reported missing on a side exactly if only the other side has it, and differing exactly if both have it with values not equal up to order |
| DocumentCompare.FindingsBearTheId | internal/verifier/compare/method.go:72-83 | without hashed keys: every finding bears the value of the first field named `_id`, and the answer is a missing id exactly for unequal documents without such a field |
| DocumentCompare.HashedFindingsBearTheId | internal/verifier/compare/method.go:72-83 | with hashed keys the same of the `_id` inside the first field named `k` |
| DocumentCompare.OrderFindingIs | internal/verifier/compare.go:872-921 | documents that differ in field order alone give one finding, about the whole document on the target, of the size of the longer encoding |
| DocumentCompare.DifferFindingIs | internal/verifier/migration_verifier.go:729-787 | a differing field whose types differ is reported with both types, and else as a mismatch |
| DocumentCompare.LenIsEncodedLen | internal/verifier/compare.go:872-921 | the lengths are those of the encoded documents (`document` production of BSON Specification version 1.1) |
| DocumentTask.CompletedIffSameDocuments | internal/verifier/migration_verifier.go:789-950 | with the keys and the comparison of real documents, a task with an exact verdict completes if and only if every document of either cluster has its like on the other: equal key fields, and equal fields, in any order where order is ignored |
| DocumentTask.CompareRealDocuments | internal/verifier/migration_verifier.go:789-950 | the same from the readers' messages to the verdict, if no flush comes between two documents with the same key |
| DocumentTask.IdPartitionsAreNeverCut | internal/verifier/compare.go:209-261 | in an `_id` partition no flush does |
| DocumentTask.CompareNaturalPartition | internal/verifier/compare.go:424-513 | from the source's batches and what is found of them, through both readers and the comparator, to the verdict: it completes if and only if both clusters have the same documents, if the byte limit splits no answer |
| DocumentTask.SameKeyIff | internal/verifier/compare.go:729-735 | documents share a map key if and only if they have the same values in the key fields |
| MapKey.GetMapKey | internal/verifier/compare.go:729-735 | the buffer followed by each value's type byte and bytes |
| MapKey.DelimitsItself | internal/verifier/compare_key.go:10-14 | a well-formed value's length follows from its type and its own first bytes, whatever comes after (value productions of BSON Specification version 1.1) |
| MapKey.KeysAreInjective | internal/verifier/compare.go:729-735 | equal keys come from equal lists of well-formed values, of any lengths |
| MapKey.LengthIsReadBack | internal/verifier/compare_key.go:10-14 | a length written as four little-endian bytes is read back as the same number |
| MapKey.EncodedArrayIsWellFormed | mbson/array.go:15-35 | arrays as this model encodes them are well-formed values |
| MapKey.NumeralOf | mbson/array.go:15-35 | the name of an array's element is its position's decimal numeral: digits, no leading zero, and its value |
| MapKey.FixedWidthValues | internal/verifier/compare_key.go:10-14 | the types with a fixed width, and their widths, written out |
| MapKey.PrefixedValues | internal/verifier/compare_key.go:10-14 | the types that begin with a length, and what the length counts |
| KeyStringReader.KeystringToBson | internal/keystring/keystring_decoder.go:596-615 | for every byte string the decoder ends with what the byte grammar says, value or error, reading only inside the buffer |
| KeyStringReader.BufferConsumer.TakePartial | internal/keystring/keystring_decoder.go:550-594 | one element, or fields up to their end, as the mode says, consuming exactly those bytes |
| KeyStringReader.BufferConsumer.TakeValue | internal/keystring/keystring_decoder.go:203-324 | the value of a type byte, nested values included, consuming exactly its bytes |
| KeyStringReader.BufferConsumer.TakeCStringWithNuls | internal/keystring/keystring_decoder.go:168-182 | the string up to a NUL that no 0xFF follows |
| KeyStringReader.BufferConsumer.TakeCString | internal/keystring/keystring_decoder.go:152-166 | the bytes before the next NUL; an error without one |
| KeyStringReader.BufferConsumer.ReadUint64BE | internal/keystring/keystring_decoder.go:131-141 | the number that eight bytes make, most significant first |
| KeyStringReader.BufferConsumer.TakeNumber | internal/keystring/keystring_decoder.go:460-544 | integers in their narrowest width, fractions as a scaled integer, with decimal continuations skipped |
| KeyStringReader.BufferConsumer.TakeBinary | internal/keystring/keystring_decoder.go:260-281 | subtype and data after a length of one or five bytes |
| KeyStringRoundTrip.ValueRoundTrip | internal/keystring/keystring_decoder.go:203-324 | every value that needs no decimal continuation, nested at any depth, is decoded back up to integer width, and decoding stops right after its bytes |
| KeyStringRoundTrip.KeyStringRoundTrip | internal/keystring/keystring_decoder.go:550-594 | the same for whole key strings: the values, and exactly what follows the end marker is left |
| KeyStringRoundTrip.IntRoundTrip | internal/keystring/keystring_decoder.go:460-487 | every 64-bit integer except the least is decoded back, whatever follows it |
| KeyStringRoundTrip.DoubleRoundTrip | internal/keystring/keystring_decoder.go:329-425 | doubles from 2 to the -255 on, of either sign, are decoded to their own bits, whatever follows |
| KeyStringRoundTrip.ScaledRoundTrip | internal/keystring/keystring_decoder.go:376-425 | smaller doubles are decoded to the bits that they were scaled up to |
| KeyStringRoundTrip.InfinityRoundTrip | internal/keystring/keystring_decoder.go:358-364 | both infinities are decoded back |
| KeyStringRoundTrip.FractionRoundTrip | internal/keystring/keystring_decoder.go:488-544 | a number with one to seven bytes of fraction is decoded to its scaled integer |
| KeyStringRoundTrip.StrRoundTrip | internal/keystring/keystring_decoder.go:168-182 | strings with any number of NULs are decoded back, if no 0xFF follows |
| KeyStringRoundTrip.EncodingIsInjective | internal/keystring/keystring_decoder.go:550-594 | values that encode alike are the same up to integer width |
| KeyStringTypes.ResumeTokenStartsWithTimestamp | internal/verifier/change_stream.go:681-701 | a key string that begins with byte 130 and two 32-bit numbers, whatever follows, is decoded, if at all, to fields the first of which is that timestamp |
| KeyStringTypes.PlainTypes | internal/keystring/keystring_decoder.go:28-46 | type bytes as plain numbers: those of values without a body |
| KeyStringTypes.FixedWidthTypes | internal/keystring/keystring_decoder.go:203-234 | 120 and eight bytes are a date, 130 and eight a timestamp, 100 and twelve an object id |
| KeyStringTypes.StringTypes | internal/keystring/keystring_decoder.go:203-324 | 60 begins a string, 160 code, both ended by a NUL |
| KeyStringTypes.BytesTypes | internal/keystring/keystring_decoder.go:260-281 | 90 begins binary data of at most 254 bytes, 140 a regular expression |
| KeyStringTypes.IntegerTypes | internal/keystring/keystring_decoder.go:460-487 | 43 to 50 begin positive integers of one to eight bytes, 39 down to 32 negative ones |
| KeyStringTypes.DoubleTypes | internal/keystring/keystring_decoder.go:376-425 | 42 and 40 begin doubles below that and from 2 to the -255 on |
| KeyStringTypes.LargeTypes | internal/keystring/keystring_decoder.go:329-375 | 51 and 31 begin doubles whose bits are from 4000000000000000 hexadecimal on |
| KeyStringTypes.Discriminators | internal/keystring/keystring_decoder.go:550-594 | a byte 1 or 254 before a type byte is skipped and no other is; byte 4 ends the fields |
| KeyStringTypes.ATimestamp | internal/keystring/keystring_decoder.go:228-234 | ten bytes that are the timestamp of second 5, increment 1 |
| KeyStringTypes.TwoIntegers | internal/keystring/keystring_decoder.go:460-487 | five bytes that are 5 and -5 |
| KeyStringTypes.TypeBytesFollowTypes | internal/keystring/keystring_decoder.go:28-46 | type bytes rise strictly with the order of types from MinKey to MaxKey |
| IdOrder.SortOrderLists | internal/partitions/bson.go:42-61 | the sort order lists each type that an `_id` can have once, and no other |
| IdOrder.OrderIsTotal | internal/partitions/bson.go:42-61 | the order of `_id`s is total, goes by bracket and then by place, and ties only at one place |
| IdFilters.ExcludedTypesAreOtherBrackets | internal/partitions/bson.go:93-123 | the excluded types are exactly the types of the brackets before and after; other types are refused |
| IdFilters.RanksAndPositions | internal/partitions/bson.go:134-155 | two types share a sort bracket if and only if they have the same rank, and ranks follow the sort order |
| IdFilterResults.ExprSelectsRange | internal/partitions/partition.go:225-252 | the `$expr` form selects exactly the inclusive range in the order of all types |
| IdFilterResults.ExplicitMeansExpr | internal/partitions/partition.go:254-322 | for all bounds and every `_id`, the explicit form selects what the `$expr` form selects, except one stated MinKey case; it fails if and only if the lower type sorts after the upper, and then the range is empty |
| IdFilterResults.ExplicitLosesMinKey | internal/partitions/partition.go:270-321 | in the range from MinKey to an integer the explicit form loses the `_id` MinKey |
| IdFilterResults.InvalidBoundsAreRefused | internal/partitions/partition.go:257-283 | bounds that cannot be an `_id` are refused |
| IdFilterResults.FilterSelectsRange | internal/partitions/partition.go:205-223 | whichever server version is known, the filter selects exactly the range among `_id`s other than MinKey, or fails on an empty one |
| IdFilterResults.WhichForm | internal/partitions/partition.go:205-223 | the `$expr` form from server version 5 on and for unknown clusters, the explicit form otherwise |
| IdFilterResults.ExactRangeSelectsSame | internal/verifier/documentdb_id_range.go:55-102 | whenever plain ranges are judged exact for a collection's true extremes, they select the very documents that the `$expr` form selects |
| IdFilterResults.InexactRangeMisses | internal/verifier/documentdb_id_range.go:83-85 | with two closed bounds, a judgment of no on a range that is not backwards means that plain ranges would miss a document |
| IdFilterResults.OpenUpperMissesIff | internal/verifier/documentdb_id_range.go:87-101 | with an open upper bound, plain ranges select the wrong documents of the collection if and only if its highest `_id` sorts in a later bracket than the lower bound, and then the judgment is no; it is yes exactly if the two are of one bracket |
| IdFilterResults.OpenLowerMissesIff | internal/verifier/documentdb_id_range.go:87-101 | the mirror image with an open lower bound and the lowest `_id` |
| IdFilterResults.PlainJudgments | internal/verifier/documentdb_id_range.go:68-101 | the whole collection is judged exact, a range without a bound never, and one with a single open bound not before the collection's extremes are known |
| PartitionChain.ResumedChainCoversAll | internal/verifier/partition.go:157-247 | after any number of attempts, each interrupted anywhere and resumed from a highest stored bound, the partitions are a gap-free chain from MinKey; once one attempt has completed they cover every `_id` of every type |
| PartitionChain.ResumedPartitionsSelectAll | internal/partitions/partition.go:205-223 | so after a complete attempt every `_id` other than MinKey is selected by the filter of some stored partition, whichever server version is known |
| PartitionChain.AttemptKeepsChain | internal/verifier/partition_walk.go:140-199 | any attempt keeps the chain, and a complete one ends it at MaxKey |
| PartitionChain.LatestIsLast | internal/verifier/partition.go:21-52 | a highest stored upper bound is the place of the chain's last one |
| PartitionChain.ChainCoversAll | internal/verifier/partition_walk.go:188-199 | a chain up to MaxKey leaves no `_id` out |
| IndexWalk.DocsPerPartitionReachesSize | internal/verifier/partition_walk.go:205-223 | the least number of average documents that reach the partition size, at least one and at most all; no limit if the collection fits |
| IndexWalk.StepHoldsExactly | internal/verifier/partition_walk.go:232-289 | between a bound and the next one found lie exactly the wanted number of documents, of all types |
| IndexWalk.StepFindsIff | internal/verifier/partition_walk.go:232-289 | a step finds a bound if and only if some `_id` that its query sees has at least the wanted number of documents up to it |
| IndexWalk.WalkRises | internal/verifier/partition_walk.go:163-186 | the bounds of a walk never fall |
| IndexWalk.WalkIntervals | internal/verifier/partition_walk.go:163-186 | between any two successive bounds of a walk lie exactly the wanted number of documents |
| IndexWalk.WalkRisesStrictly | internal/verifier/partition_walk.go:163-186 | a walk that is not stuck has strictly rising bounds |
| IndexWalk.StepGoesUp | internal/verifier/partition_walk.go:244-247 | each step goes strictly up, unless it is the stated stuck one |
| IndexWalk.WalkEndsIffNotStuck | internal/verifier/partition_walk.go:163-186 | on a fixed collection the walk ends within one step per document and one more, if and only if it is not stuck |
| IndexWalk.MinKeyIsWalkedForEver | internal/verifier/partition_walk.go:244-247 | with MinKey as only `_id` and one document per partition, no number of steps ends the walk |
| Partitioner.PartitionTasks.CreateWithIndexWalk | internal/verifier/partition_walk.go:67-200 | what is stored after an attempt that may fail at any insert, and that it succeeds if and only if the walk ended and the last insert did |
| Partitioner.PartitionTasks.CreateWithSampleRate | internal/verifier/partition.go:89-248 | the same for a sampling cursor, with its failure reported as success |
| Partitioner.SampledPartitionsCoverIff | internal/verifier/partition.go:238-247 | after an attempt without error the partitions cover every `_id` if and only if the cursor did not fail or had come as far as MaxKey |
| Partitioner.FailedCursorCoversNothing | internal/verifier/partition.go:238-247 | a cursor that fails before its first sample leaves `_id`s uncovered, without an error |
| ResetTasks.TaskStore.ResetInProgressTasks | internal/verifier/reset.go:31-55 | wherever it is interrupted, a further reset comes to the same end; uninterrupted it reaches that end and reports it |
| ResetTasks.TaskStore.HandleIncompletePrimary | internal/verifier/reset.go:57-115 | an incomplete primary task leaves nothing but primary tasks; an invalid one leaves everything as it was |
| ResetTasks.TaskStore.ResetCollectionTasks | internal/verifier/reset.go:178-219 | collection tasks in progress start again, those of generation 0 without their namespace's document tasks |
| ResetTasks.TaskStore.ResetQueueTasks | internal/verifier/reset.go:117-176 | a recheck-queue task in progress starts again without its generation's document tasks; several, or one of another generation, are an error that changes nothing |
| ResetTasks.TaskStore.ResetDocumentTasks | internal/verifier/reset.go:246-262 | the remaining document tasks in progress start again |
| ResetTasks.InterruptedResetsAgree | internal/verifier/reset.go:30-55 | any number of interrupted resets and a last uninterrupted one give the tasks and the outcome of one uninterrupted reset |
| ResetTasks.NothingLeftInProgress | internal/verifier/reset.go:17-29 | after a successful reset no task is in progress, and every remaining task is as before or put back to its start |
| ResetTasks.DropsExactly | internal/verifier/reset.go:117-219 | a successful reset deletes exactly the document tasks of a first scan that was being planned and of a queue that was being read |
| OplogEvents.ParseRawOps | internal/verifier/oplog_reader.go:463-640 | the events of a batch of whole entries, in order, or the first failure |
| OplogEvents.ParseOneDocumentOp | internal/verifier/oplog_reader.go:468-550 | one watched write adds one event with its document's id and, if known, length; unwatched ones none |
| OplogEvents.BatchParsesIff | internal/verifier/oplog_reader.go:794-815 | a batch of whole entries parses if and only if every watched write names its document and every command is an index build's step, or a supported schema change with a collection name where these are not refused, or any other one that is allowed or no later than the allowed time |
| OplogEvents.CommandNames | internal/verifier/oplog_reader.go:47-63 | the commands that are discarded and those that are supported, by name, and the event type of each |
| OplogEvents.DdlIsOneEvent | internal/verifier/oplog_reader.go:552-640 | a supported schema change gives one event in the namespace of its database, a dot and its collection; any other command let through gives none |
| OplogProjection.ParseExprProjectedOps | internal/verifier/oplog_reader.go:642-713 | the events of a batch of projected entries, in order, or the first failure |
| OplogProjection.ProjectedBatchParsesIff | internal/verifier/oplog_reader.go:642-713 | a batch of projected entries parses if and only if every command is let through, in the same terms |
| OplogProjection.CommandsAreReadAlike | internal/verifier/oplog_reader.go:642-713 | both parsers make the same of every command |
| OplogProjection.ParsersAgree | internal/verifier/oplog_reader.go:246-309 | for every batch of regular entries both parsers make the same rechecks in the same order, come to the same last timestamp, and fail alike |
| OplogProjection.WriteIsRechecked | internal/verifier/oplog_reader.go:468-550 | every watched write of a regular entry leads to one recheck of its document, of its size if the entry holds it and else of the default size |
| OplogProjection.ReplacementsNeedEqualIds | internal/verifier/oplog_reader.go:862-879 | for a replacement they agree if and only if `o` and `o2` name the same document |
| OplogProjection.ReplacementInTransactionIsLabelledUpdate | internal/verifier/oplog_reader.go:287-307 | the label of such a replacement differs between the two forms |
| OplogProjection.WriteIsLabelled | internal/verifier/oplog_reader.go:246-309 | outside transactions both forms label every write as what it is |
| WritesOffDrain.ChangeStreamReader.IterateChangeStream | internal/verifier/change_stream.go:307-434 | what a change stream reader has sent whenever it stops, and that it finishes only when it has read far enough |
| WritesOffDrain.ChangeStreamReader.DrainToToken | internal/verifier/change_stream.go:369-396 | it reads on until the resume token first reaches the writes-off time, and not before or after |
| WritesOffDrain.ChangeStreamReader.DrainUntilQuiesced | internal/verifier/change_stream.go:441-511 | it ends with the first poll after which an event at the writes-off time or later has been read, or the server's clock is there and the last three polls were empty; it returns that time |
| WritesOffDrain.ChangeStreamReader.ReadBatch | internal/verifier/change_stream.go:203-305 | a batch is sent whole, with the new token and even if empty, if every event is accepted, and else not at all; the last event time is the latest |
| WritesOffDrain.FinishedReaderHasReadAll | internal/verifier/change_stream.go:369-396 | a reader that finishes has read as many events as precede the writes-off time, which is what the generation protocol requires before it closes; assuming, for an end without an event at that time, that none is missing |
| WritesOffDrain.PassedAllMayClose | internal/verifier/change_stream.go:369-396 | the generation protocol lets a reader close if and only if it has passed as many events as precede the writes-off time, that is, if nothing earlier is still to come |
| WritesOffDrain.FinishedReaderMayClose | internal/verifier/change_stream.go:369-396 | a change stream reader that finishes may close in the generation protocol |
| WritesOffDrain.PassedAllIff | internal/verifier/change_stream.go:467-485 | with ordered delivery, nothing earlier is still to come if and only if all that many events have been read |
| WritesOffDrain.TruthfulAfter | internal/verifier/change_stream.go:467-485 | whatever the batches, no event earlier than the last event time is still to come |
| WritesOffDrain.LastEventIsLatest | internal/verifier/change_stream.go:269-273 | after a batch the last event time is the greatest of what it was and the events' times |
| WritesOffDrain.ReadIsSent | internal/verifier/change_stream.go:292-302 | every event read is sent, once and in order |
| WritesOffDrain.IdleReaderMayMissEvents | internal/verifier/change_stream.go:441-459 | an ordered stream on which the idle end comes before an event that precedes the writes-off time, so that assumption is needed |
| OplogDrain.OplogReader.IterateCursor | internal/verifier/oplog_reader.go:315-375 | what an oplog reader has sent whenever it stops, and that it finishes with the first batch after which the last entry handled is at the writes-off time or later |
| OplogDrain.OplogReader.ReadAndHandleOneBatch | internal/verifier/oplog_reader.go:386-461 | a batch that parses is sent with the time of its last entry as its token; an empty one changes nothing |
| OplogDrain.FinishedOplogReaderHasReadAll | internal/verifier/oplog_reader.go:344-359 | an oplog reader that finishes has read every entry before the writes-off time |
| OplogDrain.FinishedOplogReaderMayClose | internal/verifier/oplog_reader.go:344-359 | so it may close in the generation protocol |
| OplogDrain.CutsDoNotMatter | internal/verifier/oplog_reader.go:386-461 | however the entries are cut into batches, the events sent are those of one parse of all entries |

## Left out

- Concurrency inside one action of the protocol: an action is atomic, and the generation protocol is modelled on values rather than as mutable objects, because its point is the interleaving of processes that share no object.
- Collection-metadata tasks, the primary task, and the creation of the first tasks: a run of the protocol starts when generation 0's document tasks exist. A crash before that, and a crash inside a restart's reset, are covered by `ResetTasks` alone.
- Writes being turned on again, tests' hooks in the driver, and pauses between generations.
- The readers' oplog and change-stream queries. In the protocol a reader closes once it has read past the writes-off time; `WritesOffDrain` and `OplogDrain` prove this of the readers, one run of a stream at a time. That no watched event remains when a DocumentDB stream goes idle is an assumption.
- Duplicate-key tolerance in recheck inserts: queue entries carry a random number, so a queue is modelled as a sequence of entries for the task builder and as a set of documents for the protocol.
- Errors of the driver, decoding errors of documents and missing key fields in the comparator, time limits for stalled readers, history and statistics counters.
- Document sizes over 2 to the 31 bytes, which the source truncates to 32 bits.
- Buffer pools and the sharing of slices: values are never shared in the model.
- Not-a-number as an `_id`: places in a bracket are real numbers. The `$expr` and the plain form do treat it differently.
- The server's treatment of arrays, undefined values and regular expressions as `_id`, which it forbids.
- Version 0 key strings and hexadecimal input; doubles are kept as bits or scaled integers, so no floating-point arithmetic is modelled, and the encoder covers no number that needs a decimal continuation.
- Floating-point rounding in the partition arithmetic and in the batch count: both are exact rationals here, and the sampling rate is not modelled.
- Natural partition boundaries and resume tokens: the source batches of a natural partition are given, with distinct keys in different batches.
- Parsing errors of BSON in the document comparison: documents are given as parsed fields. Equal bytes are taken as equal parsed values.
- Entries of the oplog in which a transaction nests commands, or a command's `applyOps` field is not its first or not an array.
- Timers, retries and their delays, cancellation, logging, the web server, summaries and the command line.
- Sharding checks, index and collection comparison, namespace maps beyond a lookup.
