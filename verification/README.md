# Verified model of the BlockSTM simulation tools

The repository runs the same blocks on a sequential *oracle* and on parallel *probes* and reports every
difference.  Its verdicts rest on a few pieces of code: a reflective snapshot whose bytes stand for the state of an
object outside the key-value store, a hand-written protobuf codec for the canary messages, observers that gather what
transactions wrote and read while a scheduler calls them in any order, and comparators, samplers and counters that
turn this into a report.  This project models those pieces and proves what their verdicts mean.

`dafny verify dfyconfig.toml` checks everything.

## The parts

**The state snapshot** (`ObjectGraph`, `SnapshotWriter`, `SnapshotTraversal`, `SnapshotPlain`, `SnapshotTypes`,
`SnapshotDecoding`, `SnapshotRendering`, `SnapshotBuilding`, `SnapshotTwins`, `SnapshotExactness`, `SnapshotMapOrder`,
`SnapshotCollisions`).  The Go object graph is a finite heap of values, with cycles and sharing.  `Writer` is the
recursive writer with its shared buffer and visited set; it is proved against the function `Snapshot`, and
`SnapshotRendering` says byte for byte what that function gives for a type and its contents.

Mutation detection compares two snapshots, so the main result is when equal bytes mean equal state.  For state without
pointers inside it is an if-and-only-if over all types built from integers, booleans, strings, sync primitives, the
kinds that the walk has no case for (floats, complex numbers, arrays, interfaces), structs, slices (with or without nil
slices) and maps.  The tracker misses no mutation exactly when

- nothing of an unhandled kind occurs,
- no map stands directly inside a slice, and no slice directly inside a slice that can end in a nil slice,
- no map key can hold a colon (`Decodable`), and
- all its state lies at levels up to 8, the value behind the pointer being at level 1 (`WithinLevelEight`).  A scalar
  has its state at its own level, a slice or map its length there and the rest below; a sync primitive has none.

For every other type `Collision` constructs two states with the same bytes (`TrackerDecidesExactly`).  The state of a
sync primitive is not meant to show and is not part of the compared state; nil and empty maps count as the same state.

With pointers inside, `TrackerDecides` gives a sufficient condition: neither walk meets a pointer twice (`Unshared`),
no pointer stands directly inside a slice, each points to something that starts with a boolean, a length or a label,
and in the last case no label follows it.  `SnapshotCollisions` shows what happens otherwise: as soon as pointers may be
shared, two of one type in a struct do not decode whatever they point to, and two pointers to numbers need not decode
even when they are not shared.

**The codec** (`Varint`, `Wire`, `RoundTrip`, `Records`, `WireGrammar`, `Messages`).  The encoding is that of the
Protocol Buffers Encoding specification (sections "Base 128 Varints", "Message Structure", "Length-Delimited
Records" and "Last One Wins"), except that `encodeVarint` stores the groups of a varint most significant first.  The
comment at `x/simcanary/types/msgs.go:725` says that the helpers match gogo output; the code does not, and the model
follows the code.  `Order` therefore has two values: `AsWritten` is what the code does, `Standard` is the
least-significant-first layout that the specification prescribes.  `RoundTripAsWritten` says exactly for which
messages decoding undoes encoding as written, `StandardRoundTrip` that it always would with the standard layout.
`WireGrammar` tells from the bytes alone what decoding stores and when it fails.

**The observers** (`Interleaving`, `Observer`, `StatePattern`, `Conflict`, `BlockContext`).  Each object is a class
whose methods are proved against functions on its state.  Calls guarded by a mutex, and calls that own their
transaction's slot, are atomic steps; a concurrent run is a list of steps, and the theorems hold for every list, or for
every interleaving of the goroutines' own lists.

**Comparison and reporting** (`Comparison`, `FindingText`, `RepeatRun`, `Sampling`, `Harness`).  The comparators, what
the texts of their findings keep apart, the star-shaped comparison of the repeat executor, weighted sampling and the
loops of the harness.  Executions, stores and draws of the random generator are parameters: any responses, any
failures, any blocks.

`GoTypes`, `Ordering` and `Text` hold what the parts share: machine integers, sorting, and text formats that can be
read back.

## Model

| member | source | states |
|---|---|---|
| SnapshotWriter.Writer.SnapshotVal | tracker/tracker.go:67-126 | the recursive writer terminates on every heap (the nesting level rises to at most 9) and appends exactly the bytes of the walk, adding the pointers it follows to the visited set |
| SnapshotWriter.Writer.SnapshotStruct | tracker/tracker.go:134-164 | a struct writes its tracked fields, each after its label, in order; a sync primitive writes nothing |
| SnapshotWriter.Writer.SnapshotMap | tracker/tracker.go:177-194 | a map writes one labelled entry per printed key, in the order of the printed keys |
| SnapshotWriter.Writer.SnapshotSlice | tracker/tracker.go:196-201 | a slice writes its length and its elements in order |
| SnapshotWriter.Writer.WriteUint64 | tracker/tracker.go:203-207 | exactly eight big-endian bytes are appended |
| SnapshotWriter.SortMapKeys | tracker/tracker.go:178-186 | the printed keys in bytewise order, each as often as it was printed, and for each the key that printed it last |
| SnapshotWriter.SnapshotOutOfKVStoreState | tracker/tracker.go:53-62 | the result is the walk from the tracked object, nil when the walk wrote nothing |
| SnapshotRendering.SnapshotRendered | tracker/tracker.go:67-207 | for every typed value whose walk meets no pointer twice, the bytes are those that the type and the contents call for: eight big-endian bytes for numbers and lengths, 0 or 1 for a boolean, fields after their names in brackets, map entries in braces with a colon and in bytewise order of the printed keys, nothing for nil, and nothing below level 8 |
| SnapshotRendering.TrackerWrites | tracker/tracker.go:53-62 | the same for what the tracker writes for its object, whose contents stand at level 1 |
| SnapshotRendering.SkippedFieldIsSilent | tracker/tracker.go:152-154 | a field that the filter skips does not show, whatever it holds |
| SnapshotRendering.TrackedFieldIsWritten | tracker/tracker.go:148-163 | a field that the filter lets pass is written between its neighbours, after its name in brackets |
| Text.DecimalDigits | tracker/tracker.go:182 | integer keys print as a minus if negative and the decimal digits without a leading zero |
| SnapshotTraversal.Locality | tracker/tracker.go:64-91 | two heaps that agree on every cell at levels up to 8 (the number stands in the statement) give the same bytes and the same visited pointers |
| SnapshotTraversal.FollowedOnce | tracker/tracker.go:82-91 | on every graph each pointer address is dereferenced at most once, and only addresses within reach are |
| SnapshotTraversal.OrderIrrelevantExactly | tracker/tracker.go:178-193 | what is written for a map does not depend on the order in which its entries are received exactly when entries whose keys print alike hold the same value |
| SnapshotTraversal.MapOrderIrrelevant | tracker/tracker.go:177-194 | whole heaps whose maps are reordered under that condition have the same walk |
| SnapshotTraversal.MapOrderMattersWhenPrintedAlike | tracker/tracker.go:179-189 | any two keys that print alike and hold different booleans make the bytes depend on that order |
| SnapshotMapOrder.OrderShowsExactly | tracker/tracker.go:178-193 | in bytes, for values of a decodable type without pointers and with its state at levels up to 8, under keys without a colon: the order does not show exactly when entries whose keys print alike hold the same state |
| SnapshotPlain.UnsharedWalk | tracker/tracker.go:82-91 | a walk that meets no pointer twice writes what it would write without the visited set |
| SnapshotDecoding.DecodeRow | tracker/tracker.go:148-163 | equal bytes of two rows of fields or elements mean equal items, and equal bytes after them (unique decodability) |
| SnapshotDecoding.DecodeEntries | tracker/tracker.go:188-193 | equal bytes of two rows of map entries mean equal keys with equal values, and equal bytes after them |
| SnapshotDecoding.Encode | tracker/tracker.go:67-126 | values of one type that hold the same, pointers followed, write the same bytes when no pointer is met twice |
| SnapshotDecoding.SnapshotDecides | tracker/tracker.go:67-207 | for values of a decodable type, pointers included, with its state at levels up to 8, whose walks meet no pointer twice: two snapshots are equal exactly when the values hold the same; nil and empty maps count as the same |
| SnapshotDecoding.TrackerDecides | tracker/tracker.go:53-62 | the tracker's snapshots of one object in two heaps are equal exactly when the tracked state behind its pointer is the same in both, under the same conditions |
| SnapshotDecoding.PointerFreeUnshared | tracker/tracker.go:82-91 | the walk over a value of a type without pointers meets no pointer |
| SnapshotExactness.SnapshotDecidesExactly | tracker/tracker.go:67-207 | for every type without pointers, at every depth: equal bytes always mean equal state exactly when the type is decodable and all its state lies at levels up to 8 |
| SnapshotExactness.TrackerDecidesExactly | tracker/tracker.go:53-62 | for every type without pointers: the tracker misses no mutation behind its pointer exactly when the type is decodable and all its state lies at levels up to 8, the value behind the pointer being at level 1 |
| SnapshotExactness.Collision | tracker/tracker.go:67-126 | every other type without pointers has two values that hold different states and write the same bytes |
| SnapshotExactness.UnhandledCollide | tracker/tracker.go:81-125 | such values for the kinds without a case: floats, complex numbers, arrays, interfaces |
| SnapshotExactness.BelowLimit | tracker/tracker.go:68-80 | such values for every type with more than one state that is met below the depth limit |
| SnapshotTwins.SlicesCollide | tracker/tracker.go:102-106 | such values for a slice of slices that can end in a nil slice: `[a, [], b]` and `[b, a, []]` |
| SnapshotTwins.MapElementsCollide | tracker/tracker.go:96-100 | such values for a slice of maps, whatever the keys and values |
| SnapshotTwins.ColonsCollide | tracker/tracker.go:188-193 | such values for a map whose keys may hold a colon, whatever its values |
| SnapshotCollisions.SilentElementsCollide | tracker/tracker.go:96-106 | slices of one length whose elements agree up to the position of those that write nothing (nil slices, nil or empty maps, nil pointers, unhandled kinds) have equal snapshots |
| SnapshotCollisions.SharedPointersCollide | tracker/tracker.go:82-91 | in any struct, slice or map: of two nested values that are one pointer, the second may be replaced by nil without a change of the walk |
| SnapshotCollisions.SharedFieldsCollide | tracker/tracker.go:82-91 | for every struct type with two pointers of one type: on heaps that may share them, equal bytes do not always mean equal state |
| SnapshotCollisions.PointerFieldsCollide | tracker/tracker.go:82-91 | for every struct of two pointers to unsigned integers whose second name has at most six bytes: two states with equal snapshots, without sharing |
| Varint.EncodeVarint | x/simcanary/types/msgs.go:728-777 | touches exactly the `sovLen(v)` bytes below the offset and leaves the groups of the value there, most significant first |
| Varint.SovLen | x/simcanary/types/msgs.go:779-789 | the loop returns the number of 7-bit groups |
| Varint.MostFirstReversed | x/simcanary/types/msgs.go:728-777 | read back to front, what `encodeVarint` leaves is the standard base-128 varint |
| Varint.MostFirstReadsTopGroup | x/simcanary/types/msgs.go:728-777 | `binary.Uvarint` at the returned offset yields `v >> 7*(sovLen(v)-1)` from one byte, which is `v` exactly when `v` is below 128 |
| Varint.LeastFirstRoundTrip | x/simcanary/types/msgs.go:725-789 | the standard varint of any uint64 reads back to it, whatever bytes follow |
| Varint.UvarintMinimal | x/simcanary/types/msgs.go:779-789 | a value that was read needs no more bytes than it was read from |
| WireGrammar.UvarintExactly | x/simcanary/types/msgs.go:791-797 | `binary.Uvarint` yields `v` and `n > 0` exactly when the first `n` bytes, at most ten, are the base-128 groups of a 64-bit `v`, least significant first, all but the last marked as continued |
| Wire.EncodedSize | x/simcanary/types/msgs.go:126-138 | `Size` is the exact length of the encoding, in either layout |
| RoundTrip.RoundTripAsWritten | x/simcanary/types/msgs.go:32-124 | as written, `Unmarshal` of `Marshal` into a zero message returns the message exactly when every string length and every integer (as a uint64) is below 128 |
| RoundTrip.StandardRoundTrip | x/simcanary/types/msgs.go:32-124 | with the standard layout every message round-trips, long strings and negative integers included |
| RoundTrip.SizeBound | x/simcanary/types/msgs.go:71-124 | a message cannot grow by more than the bytes it was decoded from |
| RoundTrip.Overwritten | x/simcanary/types/msgs.go:71-124 | a decoding that changes a field gives up the size the field had |
| Records.LastOneWins | x/simcanary/types/msgs.go:71-124 | decoding two record sequences joined is decoding the second on top of the first, errors included |
| Records.UnknownRecordIgnored | x/simcanary/types/msgs.go:119-121 | a complete record with an unknown number and wire type 0, 1, 2 or 5 between two records changes nothing |
| Records.StepExtends | x/simcanary/types/msgs.go:74-121 | one turn of the loop over a complete record reads the same whatever follows it and ends where the record ends |
| WireGrammar.TurnExactly | x/simcanary/types/msgs.go:74-121 | told from the bytes alone: when one turn of the loop reads a record, how far it goes and what it stores, and when it fails and how |
| WireGrammar.UnmarshalExactly | x/simcanary/types/msgs.go:71-124 | no error exactly when the bytes are read turn by turn to their end, an error exactly when a turn fails with it; either way the fields are those stored up to there |
| WireGrammar.TruncatedString | x/simcanary/types/msgs.go:90-92 | after any well-formed records, a string field whose declared length passes the end gives the end-of-input error and leaves the fields as the records gave them |
| WireGrammar.OtherWireType | x/simcanary/types/msgs.go:82-84 | the same for a known field with another wire type than its own, which gives the wire-type error with its numbers |
| WireGrammar.OpenTag | x/simcanary/types/msgs.go:75-78 | the same for a tag that does not end, which gives the end-of-input error |
| WireGrammar.OpenField | x/simcanary/types/msgs.go:85-88 | the same for a length or an integer that does not end |
| WireGrammar.FieldsWritten | x/simcanary/types/msgs.go:47-69 | what is marshalled: the fields in the order of their numbers, none that is empty or 0, each with its tag, the groups of the shortest varint most significant first, and the bytes of a string |
| Messages.MsgCanaryMapSet.Size | x/simcanary/types/msgs.go:126-138 | the size of the message's encoding |
| Messages.MsgCanaryMapSet.MarshalToSizedBuffer | x/simcanary/types/msgs.go:47-69 | ends with the cursor `Size()` bytes below the end, writes the encoding there, keeps every other byte and never indexes out of range |
| Messages.MsgCanaryMapSet.Marshal | x/simcanary/types/msgs.go:32-40 | the encoding of the fields |
| Messages.MsgCanaryMapSet.Unmarshal | x/simcanary/types/msgs.go:71-124 | for every input, the named fields and the error are those of decoding the input on top of the old fields, which `WireGrammar.UnmarshalExactly` tells from the bytes |
| Messages.MsgCanaryBlockContextSet.Size | x/simcanary/types/msgs.go:473-485 | the size of the message's encoding |
| Messages.MsgCanaryBlockContextSet.MarshalToSizedBuffer | x/simcanary/types/msgs.go:388-412 | as for `MsgCanaryMapSet`, with three string fields |
| Messages.MsgCanaryBlockContextSet.Marshal | x/simcanary/types/msgs.go:373-381 | the encoding of the fields |
| Messages.MsgCanaryBlockContextSet.Unmarshal | x/simcanary/types/msgs.go:414-471 | for every input, the named fields and the error are those of decoding the input on top of the old fields, which `WireGrammar.UnmarshalExactly` tells from the bytes |
| Messages.MsgCanaryMapReadAndWriteResponse.Size | x/simcanary/types/msgs.go:344-350 | the size of the message's encoding |
| Messages.MsgCanaryMapReadAndWriteResponse.MarshalToSizedBuffer | x/simcanary/types/msgs.go:307-315 | as for `MsgCanaryMapSet`, with one integer field |
| Messages.MsgCanaryMapReadAndWriteResponse.Marshal | x/simcanary/types/msgs.go:292-300 | the encoding of the field |
| Messages.MsgCanaryMapReadAndWriteResponse.Unmarshal | x/simcanary/types/msgs.go:317-342 | for every input, the field and the error are those of decoding the input on top of the old field |
| Messages.SkipField | x/simcanary/types/msgs.go:799-822 | moves the cursor as the source does for each wire type, to the end of the data when a varint does not end |
| Interleaving.ProjectInterleaving | compare/observer.go:14-16 | in any interleaving, what one goroutine alone produces stands in that goroutine's order |
| Interleaving.InterleavingMultiset | compare/conflict.go:39-41 | interleavings of the same sequences are permutations of each other |
| Observer.BlockObserver.constructor | compare/observer.go:51-75 | a new observer has an empty write set, empty snapshots and no mutations for each transaction |
| Observer.BlockObserver.OnTxStart | compare/observer.go:77-89 | empties the slot's write set, tells every setter the index and snapshots every tracker into the slot; an index past the end touches neither |
| Observer.BlockObserver.OnKVWrite | compare/observer.go:91-96 | adds the store, a slash and the key in hexadecimal to the slot of its transaction and changes no other |
| Observer.BlockObserver.OnTxEnd | compare/observer.go:98-113 | appends one record per tracker that differs from the slot's snapshot |
| Observer.BlockObserver.TxWriteSet | compare/observer.go:115-130 | the slot's keys, each once, in bytewise order; none past the end |
| Observer.BlockObserver.AddBlockMutation | compare/observer.go:143-147 | appends to slot 0, if there is one |
| Observer.BlockObserver.CaptureBeforeBlock | compare/observer.go:151-158 | takes every tracker's state as the baseline |
| Observer.BlockObserver.CaptureAfterBlock | compare/observer.go:163-178 | appends the difference to the baseline to slot 0, if there is one |
| Observer.CaptureTheorem | compare/observer.go:23-28 | whatever callbacks and state changes come between the two captures, the second appends to slot 0 the difference of the states at the two captures and changes nothing else |
| Observer.DiffExact | compare/observer.go:167-177 | the difference has exactly one record for each tracker whose state differs, in tracker order |
| Observer.TxMutationTheorem | compare/observer.go:77-113 | whatever is called between the start and the end of a transaction, its end appends the difference of the states at the two calls and changes no other slot |
| Observer.LateStartHidesMutations | compare/observer.go:23-28 | starts reported after all execution is over hide every mutation from the ends |
| Observer.WriteSetAfterRun | compare/observer.go:77-96 | after any run the slot of a transaction holds exactly the keys it wrote since its last `OnTxStart` |
| Observer.InterleavingIndependent | compare/observer.go:14-16 | for every interleaving of goroutines, each with calls for any transactions and state changes among them: when one goroutine makes all calls for a transaction, its write set is that of this goroutine's own calls |
| Observer.CompositeInjective | compare/observer.go:93 | store and key can be read back from the composite key, slashes in the store's name included |
| Text.HexDigits | compare/observer.go:93 | two digits of `0123456789abcdef` for each byte, the high half first |
| Ordering.LexIsBytewise | compare/observer.go:128 | the order of `sort.Strings`: a prefix comes first, otherwise the smaller byte at the first difference |
| StatePattern.StatePatternTracker.RecordBlock | coverage/state_pattern.go:20-34 | adds one fingerprint per message to its type; a block without write sets adds none, and a message past the end of the write sets counts as one that wrote nothing |
| StatePattern.StatePatternTracker.Report | coverage/state_pattern.go:55-63 | one entry per message type, in bytewise order of the types, whose count is the number of its fingerprints |
| StatePattern.DistinctCount | coverage/state_pattern.go:45-53 | the count of the first entry with the key, or 0 |
| StatePattern.FingerprintInjective | coverage/state_pattern.go:26-28 | different sets of (store, key) pairs have different fingerprints, when store names are free of NUL |
| StatePattern.NulNamesCollide | coverage/state_pattern.go:26-28 | a store name with a NUL makes two writes and one write share a fingerprint |
| StatePattern.ObservedWriteSet | compare/observer.go:91-96 | the observer's keys of a transaction are those of the (store, key) pairs it wrote |
| StatePattern.DistinctCountTheorem | coverage/state_pattern.go:8-34 | over every run of recorded blocks the distinct count of a type is the number of different sets of (store, key) pairs its messages wrote |
| Conflict.ConflictSink.RecordConflict | compare/conflict.go:52-56 | appends the record |
| Conflict.ConflictSink.RecordStats | compare/conflict.go:59-63 | replaces the statistics |
| Conflict.ConflictSink.Drain | compare/conflict.go:67-73 | returns everything and leaves the sink empty |
| Conflict.AggregateHotKeys | compare/conflict.go:87-127 | the sorted list of exactly one entry per (store, key) group, with the number of its records and the list of their transactions |
| Conflict.ReportOrder | compare/conflict.go:117-125 | more conflicts come first; with equal conflicts the stores are in bytewise order, with equal stores the keys |
| Conflict.EntryOfRecord | compare/conflict.go:97-106 | each record has an entry under its store and its key in hexadecimal, which counts the records about that raw key, and each entry is that of a record |
| Conflict.ReportPermutation | compare/conflict.go:85-127 | permuted records give one and the same list |
| Conflict.InterleavingIndependent | compare/conflict.go:39-56 | however goroutines interleave their reports, the list is the same |
| Conflict.GroupsAreRawKeys | compare/conflict.go:98 | groups are exactly the distinct pairs of store and raw key |
| Conflict.EntryTxs | compare/conflict.go:110-115 | an entry's transactions are strictly increasing, are exactly those of its records, and are at most as many as its conflicts |
| Conflict.ConflictsAddUp | compare/conflict.go:97-106 | the conflicts of all entries sum to the number of records |
| BlockContext.BlockContextTracker.constructor | compare/block_context_tracker.go:45-49 | a new tracker holds the initial values, no current transaction and no mutations |
| BlockContext.BlockContextTracker.Reset | compare/block_context_tracker.go:51-61 | the same for an existing tracker |
| BlockContext.BlockContextTracker.ReadField | compare/block_context_tracker.go:69-85 | returns the field's value, empty if it does not exist, and notes the reader unless it is the last one noted |
| BlockContext.BlockContextTracker.WriteField | compare/block_context_tracker.go:87-103 | reports the mutation with its readers, stores the value and forgets the readers |
| BlockContext.BlockContextTracker.BlockContextMutations | compare/block_context_tracker.go:105-115 | all mutations, in order |
| BlockContext.ChainTheorem | compare/block_context_tracker.go:87-103 | in every reachable state the mutations of a field lead from its initial value to its current one, each taking up where the one before ended |
| BlockContext.FieldAfterRun | compare/block_context_tracker.go:51-103 | after any run, the current transaction, the existence, the value and the readers of a field are those that its history of calls gives |
| BlockContext.MutationOfWrite | compare/block_context_tracker.go:87-103 | each write is reported once, in order, with the value it replaced, its transaction, and exactly the transactions that read the existing field since the write before |
| BlockContext.ReadTxsExact | compare/block_context_tracker.go:77-83 | the noted readers are exactly the transactions with a read that no later write has cleared |
| BlockContext.ReadersIncreasing | compare/block_context_tracker.go:77-83 | the readers are strictly increasing exactly when the reads never step back, in particular when the transaction index never goes down |
| BlockContext.ReadersRepeat | compare/block_context_tracker.go:77-83 | a run that steps back reports a reader twice |
| Comparison.Run | compare/compare.go:31-157 | fails as its executions do; otherwise reports exactly the findings that the two responses and the providers call for, each with its height, probe index, transaction and the texts of the oracle and of the probe, in the order of the source and as many as there are provided records; the verdict, told from the responses alone, and the codes of the oracle |
| Comparison.EqualStrSlice | compare/compare.go:161-171 | true exactly for equal lists |
| Comparison.MatchExactly | compare/compare.go:149-154 | Match exactly when the two responses agree on app hash and on code, gas, formatted events and, if both are provided, write set of each transaction that both have a result for, and no provider has anything to report, mutations up to the slots that are read |
| Comparison.NothingDiffers | compare/compare.go:67-112 | a dimension has no findings exactly when no compared transaction differs in it |
| Comparison.FindingShowsDifference | compare/compare.go:67-98 | a finding about the app hash, codes, gas or events shows two different texts |
| Comparison.HashFindingShowsDifference | compare/compare.go:59-65 | there is a finding about the app hash exactly when the hashes differ, and it shows two different texts |
| FindingText.WriteSetTextDecides | compare/compare.go:192-201 | for keys whose store has no comma in its name, two write sets have one text exactly when they are equal or have the same number of keys, more than five, and the same first five |
| FindingText.WritesTextDecides | compare/compare.go:192-201 | the same for the pairs of store and key that were written: the text tells the pairs apart |
| FindingText.CommaStoresLookAlike | compare/compare.go:192-201 | any two writes have the text of one write, to a store with a comma in its name |
| FindingText.EventsTextDecides | compare/compare.go:175-188 | for events whose kinds, keys and values are free of the separators, two lists of events have one text exactly when they are equal |
| FindingText.EventFindingsExact | compare/compare.go:88-98 | then there is a finding about a transaction's events exactly when they differ |
| FindingText.MatchMeansSameEvents | compare/compare.go:149-154 | then Match means that the oracle and the probe report the same events for each transaction that both have a result for |
| FindingText.EventsLookAlike | compare/compare.go:175-188 | every list of events with an equals sign in an attribute's key has the text of a different list |
| RepeatRun.RepeatCompareResponses | run/repeat_executor.go:190-236 | the findings about app hash, error codes and write sets of the first `txCount` common transactions, each with its probe index and the texts of the two sides |
| RepeatRun.ComparatorsAgree | run/repeat_executor.go:190-236 | these are exactly the findings of `compare.Run` about those dimensions and transactions, in the same order |
| RepeatRun.ComparatorsAgreeInFull | compare/compare.go:57-112 | with a count that covers the shorter result list, the dimension alone decides |
| RepeatRun.GenerateProbeConfigs | run/perturb_config.go:12-28 | at least one configuration: 4 workers and seed 0 first, then 4 + (i-1) mod 4 workers and seed i |
| RepeatRun.RepeatRunExecutor.constructor | run/repeat_executor.go:35-40 | the number of probes is at least 1 |
| RepeatRun.RepeatRunExecutor.Init | run/repeat_executor.go:44-80 | sets up that many probes, or none on failure |
| RepeatRun.RepeatRunExecutor.RunBlock | run/repeat_executor.go:85-166 | fails exactly when a step fails; otherwise reports exactly what the edges of the star call for, oracle against probe 0 and then probe 0 against each other probe with its index, in that order, and the verdict tells whether there is anything |
| RepeatRun.StarIsComplete | run/repeat_executor.go:134-164 | no finding exactly when the oracle and all probes agree pairwise on everything that probe 0 has a result for |
| RepeatRun.MatchMeansAgreement | run/repeat_executor.go:134-164 | when probe 0 has a result for each transaction, Match exactly when all agree pairwise on app hash and on each code and write set that both of any two have; with complete results everywhere, on every one |
| RepeatRun.MatchIsAgreementExactly | run/repeat_executor.go:207-210 | for given numbers of results: Match means pairwise agreement in every run exactly when no two apps other than probe 0 have results for a transaction that probe 0 has none for |
| RepeatRun.HiddenDisagreement | run/repeat_executor.go:207-210 | otherwise there are apps with such numbers of results that agree as far as probe 0 has results and disagree beyond |
| Sampling.WeightedSample | compare/fuzz_corpus.go:116-132 | the key of the one position that the draw picks; the first key when the total is 0 |
| Sampling.TotalOfJoin | compare/fuzz_corpus.go:117-120 | the total of one weight is that weight, that of joined lists the sum of theirs |
| Sampling.SomePosition | compare/fuzz_corpus.go:125-131 | every draw below the total picks a position, so the final fallback is never reached, negative weights included |
| Sampling.OnlyPositiveDrawn | compare/fuzz_corpus.go:125-130 | a position without a positive weight is never drawn |
| Sampling.Proportional | compare/fuzz_corpus.go:115-132 | each position is picked by as many draws as its weight exactly when no weight is negative |
| Sampling.BuildWeightedKeys | compare/fuzz_corpus.go:79-104 | the registered keys in bytewise order, restricted to the configured ones if there are any, each with its configured weight, or 1 |
| Sampling.KeyShare | compare/fuzz_corpus.go:75-132 | over both functions: a message type is drawn as often as it was given weight, and one that is not registered or not configured never |
| Harness.RunStore | run/harness.go:105-163 | the loop over the blocks of a store |
| Harness.RunHarness | run/harness.go:50-198 | over the stores: one outcome for each block that ran without an error, in order, each with the index, store name, canary flag, verdict, findings, codes and hot keys of its block; the tallies of these; for each message type the number of patterns in the write sets of these blocks; the exit code told from the blocks that ran |
| Harness.ReportedInTurn | run/harness.go:78-144 | what is reported is one outcome for each block that ran without an error, in the order of the stores and of the blocks in them, and each outcome is that of its block |
| Harness.RecordedInRun | run/harness.go:125 | the patterns of a message type are those of the write sets of the blocks that ran |
| Harness.Counters.Add | run/harness.go:146-162 | each reported block counts in exactly one of the four tallies, and among the hot-key blocks if it reports any |
| Harness.FilterHotKeys | run/harness.go:137-143 | the reported hot keys; none when the threshold is not positive |
| Harness.HotOnlyExact | run/harness.go:138-142 | a hot key is reported exactly when at least that many transactions re-executed on it |
| Harness.IndicesIncrease | run/harness.go:78-144 | over every run the reported indices strictly increase |
| Harness.IndicesOfStores | run/harness.go:78-128 | an index is reported exactly for the blocks that ran without an error, as the numbers that earlier stores used up plus the place in the own store |
| Harness.WithinTotalExactly | run/harness.go:51-54 | the reported indices stay within the announced total exactly when these running sums do |
| Harness.AnnouncedBlocks | run/harness.go:51-54 | so they do when every store yields at most as many blocks as it announces |
| Harness.UnannouncedBlock | run/harness.go:105-128 | a single store that reports a block beyond its announced count passes the total; only a foreign implementation of the store interface could |
| Harness.TalliesAddUp | run/harness.go:153-162 | the four tallies sum to the number of reported blocks |
| Harness.ExitCodeMeans | report/cli.go:50-58 | the exit code is 1 exactly when some block of a canary store ran to Match, or the flag is set and some block of another store ran to Divergence; otherwise 0 |

## Left out

- Messages.MsgCanaryMapSet.Unmarshal: declared lengths that an int cannot hold past the cursor give the one outcome
  `LengthOverflow`; the source then panics or moves its cursor back.  The theorems of `Records` exclude that outcome.
- Messages.MsgCanaryBlockContextSet.Unmarshal: the same.
- Messages.MsgCanaryMapReadAndWriteResponse.Unmarshal: the same, for the lengths of skipped fields.
- Messages.SkipField: the same; `None` stands for a cursor that would wrap around.
- RoundTrip.StandardRoundTrip: states what the codec is meant to do; the source has no such `encodeVarint`.
- SnapshotDecoding.TrackerDecides: with pointers inside, the condition is sufficient, not necessary: a pointer to a
  number before a boolean, say, is told apart by the length of what is written.  Recursive Go types are types of the
  model only as far as they are unfolded.
- SnapshotExactness.TrackerDecidesExactly: says nothing about types with pointers inside, about map keys that are
  neither integers nor strings, or about strings and slices of 2^62 elements and more, which only a slice of empty
  structs could reach.
- SnapshotRendering.SnapshotRendered: says nothing about walks that meet a pointer twice; what these write instead is
  told by `SharedPointersCollide`.
- SnapshotWriter.Writer.SnapshotVal: interior pointers (a struct and its first field share an address) are separate
  addresses; reflection kinds, unsafe field access and the field filter `shouldSkipField` are part of the value; the
  depth warning is not modelled.
- FindingText.EventsTextDecides: the condition on the events is sufficient, not necessary: some texts with a separator
  inside a value can still be read back in one way only.
- Comparison.Run: the finding ID (a SHA-256 prefix of the finding's other fields) and the post-oracle hook are left
  out; a provider is the list of its answers.
- Harness.RunHarness: execution ratios (floating point), the coverage tracker, the text of messages to the error
  output and the header and footer of the report are left out; a verdict is Match or Divergence; closing executors and
  stores has no effect; a fuzz configuration with a negative number of blocks, whose announced count would be negative,
  is not a store of the model.
- RepeatRun.RepeatRunExecutor.Init: setting up the apps only succeeds or fails.
- RepeatRun.RepeatRunExecutor.RunBlock: transaction building and commits only succeed or fail; nonces, apps and the
  setting and unsetting of lifecycle observers are left out.
- Observer.BlockObserver.OnTxStart: negative transaction indices, which make the source panic, are left out.
- Observer.BlockObserver.OnKVWrite: the same.
- Observer.BlockObserver.OnTxEnd: the same; and a tracker's snapshot is its state: how a real tracker computes it is
  the subject of the snapshot modules.
- Observer.BlockObserver.TxWriteSet: negative transaction indices are left out.
- The messages `MsgCanaryMapReadAndWrite`, `MsgCanaryBlockContextRead` and `MsgCanaryBlockContextReadResponse`, and
  `MarshalTo`: they repeat the shapes of the three modelled messages, and the codec theorems hold for any list of
  fields.
- Mutexes: each guarded call is one atomic step.
- AST scanning in `detect/` and `lint/`, snapshot stores, app construction, the BlockSTM scheduler and the reporters'
  output formats: they depend on libraries that are not part of this model, or only format text.
