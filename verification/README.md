# A verified model of Continuwuity's core

Continuwuity is a Matrix homeserver written in Rust; this repository ships it together with a small
deployment tool in Python. The project models, in Dafny, the parts of it whose correctness is hardest
to see, and proves what they promise.

* **Database keys** (`Bytes`, `Unicode`, `Codec`, `KeyWriter`, `KeyReader`, `Cursors`). Keys are tuples written as
  records with the byte 0xFF between them. Integers are raw big-endian bytes that may contain 0xFF, and an
  absent option is an empty record. The writer and the reader are classes over their own fields; the
  theorems say exactly which tuples survive being written and read back, what skipping directives do, and
  which rows a prefix scan finds.
* **Graph walks** (`MissingEvents`, `AuthChain`). The breadth-first walk behind the federation endpoint
  for missing events, and the depth-first walk of an admin command that draws an auth chain, on every event
  graph, cyclic ones included.
* **Concurrent protocols** (`PrefixWatchers`, `WorkerPool`, `SendTransactions`). Each is a state machine
  whose runs are all interleavings; its theorems hold in every reachable state.
* **Schema migrations** (`KeyRepairs`, `ReceiptRepair`, `DoubleSeparatorRepair`, `PasswordSplit`,
  `MigrationTables`, `MigrationRunner`). Repair loops that may be cut after any write and are started again,
  and the runner of versioned and marked migrations around them, which writes to the same tables.
* **Hot reload** (`HotReload`). The developer-mode main loop over a stack of loaded modules.
* **Order and pages** (`KeyBackup`, `Decimal`, `PublicRooms`). Which of several uploaded session keys is
  kept, and the paging tokens of the public room directory.
* **Deployment configuration** (`EnvFile`, `Validators`, `Patterns`, `DeployConfig`, `Deployment`). What the
  validators accept, as recognisers that are proved equal to the regular expressions they are written with,
  the printers and parsers of the two configuration files, and the locked server name.

Some properties that the code or its documentation suggests are false as they stand. For these the
project has an input, or a family of inputs, that shows it, and proves when the property holds:

| suggested | fails | holds exactly if |
|---|---|---|
| a written key reads back | `Codec.EmptyStringLost`, `Codec.TopSeparatorLost`, `Codec.InnerBytesSwallow` | `Codec.RoundTrip` |
| a prefix query finds only matching rows | `Codec.PrefixAmbiguous`, `Codec.QueryMisses` | `Codec.QueriesExactIff` for a tuple type, `Codec.RecordsExactIff` for a record type; for single tuples `Codec.PrefixExact` is sufficient only |
| one event per transaction id | `SendTransactions.TwoRooms` | `SendTransactions.OneEventIff` |
| a retry gets its event | `SendTransactions.RetryLost`, `SendTransactions.RetryGetsOtherEvent` | `SendTransactions.RetryGetsEventIff`; that it is answered at all: `SendTransactions.RetryAnsweredIff` |
| a close that returned has drained the pool | `WorkerPool.SecondCloseReturnsEarly` | `WorkerPool.DrainedIff` |
| one repair pass removes all doubled separators | `DoubleSeparatorRepair.ThreeSeparators`, `DoubleSeparatorRepair.TripledStaysBad` | `DoubleSeparatorRepair.OnePassIsEnoughIff` |
| an interrupted repair of doubled separators can be repeated | `DoubleSeparatorRepair.TornRowIsLost` | `DoubleSeparatorRepair.CutConvergesIff`; across starts of the server, for the table when the repair is marked, `MigrationRunner.JoinedAtMarkIff` |
| every interrupted migration can be completed | a row or key that a needed migration panics on | `MigrationRunner.InterruptedRunsConverge` |
| the best uploaded key is stored | `KeyBackup.Hindered` | `KeyBackup.BestAlwaysWinsIff`; what is never replaced: `KeyBackup.NeverReplacedIff` |
| paging ends | `PublicRooms.LimitZeroNeverEnds` | `PublicRooms.PagingEndsIff` |
| an image update takes effect | `EnvFile.HiddenUpdate` | `EnvFile.UpdateEffect` |
| a stopped write leaves the two files in agreement | `Deployment.StoppedWriteDisagrees` | `Deployment.WriteAgreesIff` |

Where code and documentation disagree, the model follows the code:

* The documentation of `send` promises the same event id on a retry; after a to-device call that shares the
  transaction id the retry is refused (`SendTransactions.RetryLost`), and after a send to another room it can
  get the other event (`SendTransactions.RetryGetsOtherEvent`). The bound of one event per
  transaction id holds per room (`SendTransactions.OneEventIff`).
* A database newer than the supported schema version is not refused with an error but trips the final
  assertion of the migration (`MigrationRunner.WholeRun`).
* `close` on the pool joins the workers only in the call that took their handles
  (`WorkerPool.DrainedIff`).
* The `total` logged by the repair of referenced events is the last index, not the number of rows
  (`KeyRepairs.FixReferencedEvents`).
* The page limit of the room directory is said to be at most 100; no maximum is applied
  (`PublicRooms.GetPage`).

`dafny verify dfyconfig.toml` checks the whole project.

## Model

| member | source | states |
|---|---|---|
| Bytes.PrefixIsConvex | src/database/stream.rs:61-75 | the keys that extend a prefix form one interval of the byte order, with the prefix itself as lower bound |
| Bytes.BeRoundTrip | src/database/de.rs:349-360 | the number read from the big-endian bytes of v is v |
| Bytes.BeOrder | src/database/ser.rs:290-290 | byte order of fixed-width big-endian integers is numeric order |
| Bytes.Listing | src/database/stream.rs:61-75 | the keys of a table as a cursor lists them: each once, in increasing byte order |
| Bytes.Utf8HasNoSep | src/database/ser.rs:252-259 | no well-formed UTF-8 string (section 4 of RFC 3629) contains the separator byte |
| Unicode.ValidIff | src/database/de.rs:477-477 | the byte strings accepted as text are exactly the UTF-8 encodings of Unicode scalar values |
| Codec.RecordLen | src/database/de.rs:99-107 | the record at the front of the unread bytes: it has no separator in it and is followed by one or by the end |
| Codec.ScalarRoundTrip | src/database/de.rs:291-396 | each scalar is read back from its own bytes and consumes exactly them, whatever record follows, integers with 0xFF in them included |
| Codec.ValueRoundTrip | src/database/de.rs:278-289 | a faithful component, optional or not, is read back and consumes exactly its record |
| Codec.ValueLost | src/database/de.rs:278-289 | an unfaithful component is not read back, whatever follows it |
| Codec.DecodeFrom | src/database/de.rs:435-450 | from any record boundary, started or not, the reader recovers the remaining components if and only if each is faithful |
| Codec.RoundTrip | src/database/de.rs:21-40 | for every tuple type and tuple: decoding the encoding returns the tuple, passes the final check and trips no assertion if and only if every component is faithful (raw bytes last, no present empty string, no present integer with top byte 0xFF) and a 1-tuple is not written as nothing |
| Codec.OptionalIntegers | src/database/de.rs:278-289 | which present integers an optional record can carry: unsigned ones below 0xFF00000000000000, signed ones outside -2^56 to -1, and no others |
| Codec.EncodeInjective | src/database/ser.rs:318-328 | two different tuples of one type that survive reading have different bytes |
| Codec.EmptyStringLost | src/database/de.rs:278-289 | a present empty string is read back as an absent one |
| Codec.TopSeparatorLost | src/database/de.rs:278-289 | a present integer whose top byte is 0xFF does not survive |
| Codec.InnerBytesSwallow | src/database/de.rs:392-396 | raw bytes before another component swallow it, and the read fails as too short |
| Codec.IgnoreIsProjection | src/database/de.rs:82-105 | replacing separator-free positions by `Ignore`, or a tail by `IgnoreAll`, leaves all other decoded values unchanged, consumes the whole buffer and trips no assertion |
| Codec.StringsCanBeIgnored | src/database/de.rs:236-247 | string and optional-string records never contain the separator, so they may be ignored |
| Codec.PrefixExact | src/database/ser.rs:218-227 | where the components of query and key are faithful: the bytes of k components closed by `Interfix` are a prefix of a longer key of the same type if and only if the key's first k components are equal |
| Codec.RecordsExactIff | src/database/ser.rs:98-108 | two values of a type, each closed by a separator, never look alike if and only if the type is a plain string, integer or boolean, or an optional boolean |
| Codec.QueryMisses | src/database/ser.rs:218-227 | with any other type before the last component, some query of that type also finds a tuple that differs |
| Codec.QueriesExactIff | src/database/ser.rs:218-227 | all prefix queries on tuples of a type, of every length, are exact if and only if every component but the last has one of those types |
| Codec.PrefixAmbiguous | src/database/ser.rs:218-227 | without faithfulness a query for an absent number also matches a present one |
| KeyWriter.Serializer.RecordStart | src/database/ser.rs:98-103 | one separator before every record but the first, and the flag that remembers it |
| KeyWriter.Serializer.WriteSeparator | src/database/ser.rs:105-108 | appends exactly the separator, and is only used before the key is closed |
| KeyWriter.Serializer.SerializeScalar | src/database/ser.rs:252-302 | appends the bytes of the scalar and nothing else |
| KeyWriter.Serializer.SerializeElement | src/database/ser.rs:322-325 | one tuple element: separator if needed, then the record; `Interfix` closes the key |
| KeyWriter.Serializer.SerializeTuple | src/database/ser.rs:318-328 | the whole output is the records of the items with single separators between, and the flags and depth end as they should |
| KeyWriter.WrittenIsEncode | src/database/ser.rs:318-328 | what the writer puts out for plain values, built from its end, is the encoding the reader is proved against |
| KeyWriter.InterfixIsPrefixKey | src/database/ser.rs:218-227 | a query that ends in `Interfix` is the encoding closed by one separator, and it is a legal use of the writer |
| KeyReader.Deserializer.RecordNext | src/database/de.rs:99-107 | consumes the current record up to its separator and returns those bytes |
| KeyReader.Deserializer.RecordTrail | src/database/de.rs:138-142 | consumes and returns everything left |
| KeyReader.Deserializer.RecordStart | src/database/de.rs:124-133 | steps over one separator exactly if a record was started before, and says exactly when the debug assertion fires |
| KeyReader.Deserializer.RecordIgnore | src/database/de.rs:82-92 | skips one record inside a tuple, everything outside |
| KeyReader.Deserializer.DeserializePrim | src/database/de.rs:291-396 | value, error and consumed bytes of one scalar, on arbitrary bytes |
| KeyReader.Deserializer.DeserializeValue | src/database/de.rs:278-289 | an option is absent exactly if the buffer is used up or the next byte is a separator; otherwise the scalar |
| KeyReader.Deserializer.Finished | src/database/de.rs:57-71 | holds exactly if nothing, or one lone separator, is unread |
| KeyReader.Deserializer.NextElement | src/database/de.rs:439-450 | one element at a boundary: its outcome and the bytes it leaves |
| KeyReader.Deserializer.DeserializeTuple | src/database/de.rs:187-194 | the outcome of a whole read on arbitrary bytes is the one of the specification; the position stays inside the buffer; nested sequences panic |
| KeyReader.WriteThenRead | src/database/de.rs:21-40 | the writer object followed by the reader object gives the tuple back if and only if the tuple round trips |
| Cursors.State.InitFwd | src/database/stream.rs:61-75 | the cursor stands on the first key not below the start, or nowhere if there is none |
| Cursors.State.InitRev | src/database/stream.rs:77-91 | the cursor stands on the last key not above the start, or nowhere if there is none |
| Cursors.State.SeekFwd | src/database/stream.rs:93-101 | the first call after an initialisation stays put, the first call of a fresh cursor goes to the first row, later ones advance by one |
| Cursors.State.SeekRev | src/database/stream.rs:103-109 | the same backwards |
| Cursors.StreamPrefix | src/database/map/stream_prefix.rs:32-42 | a forward cursor started at a prefix and stopped at the first foreign key emits exactly the rows that extend the prefix, once each, in order |
| Cursors.ScanMatches | src/database/map/stream_prefix.rs:32-42 | in a table of tuples of one type a row extends the query key exactly if its tuple has the queried leading components |
| Cursors.StreamComponents | src/database/map/stream_prefix.rs:32-42 | scanning by leading components gives exactly the rows with those components, once each, in order |
| Cursors.StreamRev | src/database/stream.rs:77-109 | a backward cursor emits exactly the rows not above its start, in descending order |
| MissingEvents.WithinCountsHops | src/api/server/get_missing_events.rs:49-126 | the distance used below counts hops: an event is within n exactly if some path of at most n hops through passable events leads to it |
| MissingEvents.CloserIsDone | src/api/server/get_missing_events.rs:49-118 | every passable event closer than the front of the queue has been taken |
| MissingEvents.FrontDistance | src/api/server/get_missing_events.rs:49-118 | the hop count under which an event is first taken is its distance |
| MissingEvents.WalkAnswers | src/api/server/get_missing_events.rs:49-126 | when the queue is empty or the limit reached, the picked events are as the endpoint promises |
| MissingEvents.Reverse | src/api/server/get_missing_events.rs:125-126 | the reply is the picked events backwards |
| MissingEvents.GetMissingEvents | src/api/server/get_missing_events.rs:41-127 | terminates on every store; returns distinct eligible events (not latest, not earliest, held, of the room, not rejected), at most 50 and at most as many as asked for, fewer only if there are no more, with every strictly closer eligible event included and distances not increasing in the reply; an event is redacted exactly if the asking server may not see it; an error names a known event of another room that the walk was led to, and without that error no such event is named, unless the limit was reached first |
| MissingEvents.WalkStayed | src/api/server/get_missing_events.rs:71-76 | when the walk ended without the error, nothing of another room is named unless the limit was reached, and then nothing closer than a returned event |
| AuthChain.SortOk | src/admin/debug/commands.rs:241-246 | children are only rearranged, lowest depth first, then timestamp, then id |
| AuthChain.SortMeans | src/admin/debug/commands.rs:241-246 | of two children the earlier one has the lower depth, at equal depth the lower timestamp, and at equal timestamps no greater id |
| AuthChain.LowestOnTop | src/admin/debug/commands.rs:248-268 | of the children pushed on the stack one of the lowest depth ends on top, so that it is drawn next |
| AuthChain.PopCounts | src/admin/debug/commands.rs:183-188 | an event taken from the stack was not visited before, so the already-visited branch is never taken |
| AuthChain.DrawReferences | src/admin/debug/commands.rs:201-239 | each auth reference of the current event gets one edge, a number and, if it is new, one place among the children to follow or draw |
| AuthChain.HandleChildren | src/admin/debug/commands.rs:241-268 | the held new children go on the stack in sorted order, so that the lowest depth is next; missing ones are drawn |
| AuthChain.ShowAuthChain | src/admin/debug/commands.rs:121-272 | terminates on every store; draws each mentioned event exactly once with its own number, one edge per auth reference of each held reachable event, and nothing else; a node is rejected exactly if the event is, soft-failed exactly if it is that and not rejected, missing exactly if it is not held, and has the stored name; not found exactly if the root is not held |
| AuthChain.NodesMean | src/admin/debug/commands.rs:121-141 | in every drawing a node line tells rejected, soft-failed and missing events apart as the server knows them, and carries the number and name of its event |
| AuthChain.Finished | src/admin/debug/commands.rs:155-268 | the invariant of the walk with an empty stack is the finished drawing |
| PrefixWatchers.Watchers.Watch | src/database/watchers.rs:18-29 | joins the channel of a prefix or opens one, nothing else changes |
| PrefixWatchers.Watchers.Scan | src/database/watchers.rs:37-46 | exactly the watched prefixes of the key, the empty one and the whole key included |
| PrefixWatchers.Watchers.Fire | src/database/watchers.rs:48-55 | the listed prefixes that are still registered are signalled and forgotten; every send finds a receiver |
| PrefixWatchers.FireAllEffect | src/database/watchers.rs:48-55 | exactly the open channels on the listed prefixes are signalled, once, and exactly those entries leave |
| PrefixWatchers.RunExtends | src/database/watchers.rs:17-56 | the invariant excludes no interleaving: after any run, any enabled step is a run again |
| PrefixWatchers.NoLostWakeup | src/database/watchers.rs:17-56 | in every interleaving of watches, two-phase wakes and dropped futures: when a wake has returned, every future handed out before it began on a prefix of its key is signalled |
| PrefixWatchers.SignalsAreJustified | src/database/watchers.rs:31-55 | only keys that extend its prefix signal a future; a channel without sender was signalled, so awaiting it cannot fail; a live future's channel has a receiver, so the send cannot fail |
| WorkerPool.ServingCount | src/database/pool.rs:155-175 | with d full turns and r more workers, the first r queues have d + 1 workers and the others d |
| WorkerPool.SpawnUntil | src/database/pool.rs:140-175 | the number of workers reached, the shares of any two queues differ by at most one, and none is empty with at least as many workers as queues |
| WorkerPool.RunInv | src/database/pool.rs:102-234 | in every reachable state queues, workers and commands agree on where each command is, and closers only claim what is so |
| WorkerPool.SettledForever | src/database/pool.rs:311-317 | no step changes a refused, cancelled or answered command |
| WorkerPool.OneOutcome | src/database/pool.rs:225-317 | in every continuation of every run a refused, cancelled or answered command stays what it is, so that no command ever has two outcomes |
| WorkerPool.OutcomesAreTrue | src/database/pool.rs:325-400 | in every run a cancelled command was abandoned, an answered one was not, and a refused one met a closed queue |
| WorkerPool.FirstInFirstOut | src/database/pool.rs:225-317 | of two commands in a queue the earlier one stays in front until it is taken, in every continuation, so that the later one is never served first |
| WorkerPool.QueuesStayBounded | src/database/pool.rs:225-234 | in every run no queue holds more commands than its capacity |
| WorkerPool.Drained | src/database/pool.rs:403-415 | when the close that took the workers has returned, all queues are closed and empty, all workers have ended, and every command has its outcome except waiting submitters, who can only be refused or leave; every command that nobody abandoned was answered, or was refused, or waits to be refused |
| WorkerPool.WorkIsPossible | src/database/pool.rs:102-137 | while a close has not returned, some step of a worker or of that close is possible: no deadlock |
| WorkerPool.NothingAddsWork | src/database/pool.rs:102-137 | once a close has closed all queues, no step of anyone adds to what it must wait for |
| WorkerPool.WorkShrinks | src/database/pool.rs:286-317 | every step of a worker or of the close leaves strictly less to wait for |
| WorkerPool.CloseCanReturn | src/database/pool.rs:102-137 | from every reachable state each close can return by such steps alone |
| WorkerPool.SecondCloseReturnsEarly | src/database/pool.rs:102-137 | in every new pool a close that finds the workers taken can return while a command is still queued |
| WorkerPool.DrainedIff | src/database/pool.rs:102-137 | a close that returned guarantees closed and empty queues, in every run, if and only if it was the one that took the workers |
| SendTransactions.KeysAgree | src/service/transactions/mod.rs:135-159 | the key built by hand when recording is the serialized key used when looking up |
| SendTransactions.KeysDiffer | src/service/transactions/mod.rs:135-159 | two senders share a key if and only if user, transaction id and device id are the same, an empty device id counting as none |
| SendTransactions.UnseenIsUnused | src/api/client/send.rs:42-69 | under the room's lock an id that is not in the table has no event in the room |
| SendTransactions.RunInv | src/api/client/send.rs:42-107 | the invariant of locks, events, replies and empty records in every interleaving |
| SendTransactions.AtMostOnce | src/api/client/send.rs:42-107 | in every interleaving of sends, retries, aborts and to-device calls: at most one event per transaction key and room |
| SendTransactions.SameReply | src/api/client/send.rs:42-107 | if an id is used in one room, all successful replies name the same event, and it is in that room's timeline |
| SendTransactions.IncompatibleIsJustified | src/api/client/send.rs:50-63 | a send is told that its id belongs to another endpoint only if a to-device call used it |
| SendTransactions.CallsEnd | src/api/client/send.rs:50-107 | errors and records end a call, no step changes one that is over, and a call keeps its key and kind |
| SendTransactions.OverForever | src/api/client/send.rs:50-107 | a call that was answered, refused or ended stays so in every continuation and writes nothing more |
| SendTransactions.RetryGetsEventIff | src/api/client/send.rs:50-107 | from any state, every later send of the id is answered with a given event, in every continuation, if and only if that is the stored reply and no call can still change it: no pending to-device call, no send that has not found the reply, none about to record another event |
| SendTransactions.RetryGetsItsEvent | src/api/client/send.rs:50-107 | for an id used with one room and no to-device call so far, every retry gets the event of the first answer, in every continuation |
| SendTransactions.RetryGetsOtherEvent | src/api/client/send.rs:42-107 | an id sent to two rooms at once: with no to-device call pending, the retry in the first room can get the event of the second |
| SendTransactions.RetryAnsweredIff | src/api/client/to_device.rs:28-36 | with a reply in the table, every later send of the id is answered with some event, in every continuation, if and only if no to-device call with the id is between its look and its record |
| SendTransactions.RetryAnswered | src/api/client/send.rs:50-69 | after an answered send whose id no to-device call used so far, every retry is answered in every continuation; with the same event if and only if that is still stored and no other send is about to replace it |
| SendTransactions.TwoRooms | src/api/client/send.rs:42-107 | for any two rooms: one id sent to both at once can post two events and give two replies |
| SendTransactions.OneEventIff | src/api/client/send.rs:42-107 | over all runs that send an id only to given rooms, it posts at most one event, and all its replies name one event, if and only if there is at most one room |
| SendTransactions.RetryLost | src/api/client/to_device.rs:110-113 | a to-device call that looked before and records after a send overwrites its reply, and the retry is refused |
| KeyRepairs.CutKeepsMeaning | src/service/migrations.rs:582-622 | a pass cut after any number of writes leaves a table with the same repaired form |
| KeyRepairs.FullPass | src/service/migrations.rs:582-622 | an uninterrupted pass ends with exactly the repaired keys |
| KeyRepairs.InterruptedRepairConverges | src/service/migrations.rs:582-622 | after any number of interrupted passes a whole one gives the table that one uninterrupted pass would have given |
| KeyRepairs.BadKeyFixed | src/service/migrations.rs:597-610 | the separator goes exactly between the room id (without a dollar sign) and the event id |
| KeyRepairs.RepairKeepsPairs | src/service/migrations.rs:582-622 | a pair is in the repaired table exactly if it was there in either form, and its key decodes to it |
| KeyRepairs.RepairedArePairs | src/service/migrations.rs:582-622 | no repaired key is anything but the key of a room and event pair |
| KeyRepairs.FixReferencedEvents | src/service/migrations.rs:582-622 | the loop does the writes of the pass in order, stops at its budget or at a key it panics on, and counts as stated |
| ReceiptRepair.CountOrder | src/service/migrations.rs:624-661 | within a room, key order is the order of the counts, then of the users |
| ReceiptRepair.RoomIsContiguous | src/service/migrations.rs:624-661 | the rows of a room are neighbours in key order |
| ReceiptRepair.KeepsRunStarts | src/service/migrations.rs:636-655 | a row is kept if and only if it begins a run of equal room and user |
| ReceiptRepair.LowestCountFirst | src/service/migrations.rs:636-655 | every row belongs to a run whose first row has the lowest count |
| ReceiptRepair.KeepIdempotent | src/service/migrations.rs:624-661 | a second pass deletes nothing |
| ReceiptRepair.DropsAreCut | src/service/migrations.rs:636-655 | deleting the repetitions one by one and stopping after n is the cut pass |
| ReceiptRepair.RestartConverges | src/service/migrations.rs:624-661 | a pass cut after any number of deletions, then a whole pass, keeps what one whole pass keeps |
| ReceiptRepair.RestartsConverge | src/service/migrations.rs:624-661 | the same after any number of interrupted passes |
| ReceiptRepair.DedupReceipts | src/service/migrations.rs:624-661 | the table is left with exactly the kept rows and the repetitions whose deletion was lost; fixed plus kept is total |
| DoubleSeparatorRepair.FixedOfDoubled | src/service/migrations.rs:470-487 | removing the second of two separators undoes doubling the first, and the doubled key comes later in key order |
| DoubleSeparatorRepair.PassSays | src/service/migrations.rs:464-491 | what the table says about every key after the first n rows of a pass in key order |
| DoubleSeparatorRepair.FullRepair | src/service/migrations.rs:455-497 | a whole pass, whatever separators the keys have: every bad key gives its value to the repaired one and is gone, all else is as before |
| DoubleSeparatorRepair.OnePassIsEnoughIff | src/service/migrations.rs:455-497 | no bad key is left if and only if no key had three separators in a row |
| DoubleSeparatorRepair.CutIsTable | src/service/migrations.rs:483-487 | a cut after any write is a cut after a row, or between its deletion and its insertion |
| DoubleSeparatorRepair.CutConvergesIff | src/service/migrations.rs:455-497 | a whole pass after a cut gives what one whole pass would have given if and only if no key with three separators was reached and, if a row was torn, the original table has its value under the repaired key too |
| DoubleSeparatorRepair.TornIff | src/service/migrations.rs:483-487 | a cut between the two writes of a row changes nothing in the end if and only if the original table has the row's value under the repaired key too |
| DoubleSeparatorRepair.ThreeSeparators | src/service/migrations.rs:470-487 | a key with three separators in a row is still bad after its repair |
| DoubleSeparatorRepair.TripledStaysBad | src/service/migrations.rs:455-497 | a table with such a key is not clean after a whole pass |
| DoubleSeparatorRepair.TornRowIsLost | src/service/migrations.rs:483-487 | dying between the two writes of a table's only row loses it, and a later pass does not bring it back |
| DoubleSeparatorRepair.FixDoubleSeparators | src/service/migrations.rs:455-497 | the loop does the writes of the pass and panics exactly on a key without separator |
| PasswordSplit.SplitKeepsUsers | src/service/migrations.rs:852-890 | no user is lost by the split, local password rows are untouched, exactly the local users stay, and a second split changes nothing |
| PasswordSplit.CutKeepsMeaning | src/service/migrations.rs:861-882 | a pass cut after any number of writes leaves tables with the same split |
| PasswordSplit.PassSettles | src/service/migrations.rs:861-882 | a pass without a remote user that has a password leaves split tables |
| PasswordSplit.RestartsConverge | src/service/migrations.rs:852-890 | after any number of interrupted passes a whole one gives the split of the original tables |
| PasswordSplit.UserTables.SplitPasswords | src/service/migrations.rs:861-882 | the loop does the writes of the pass, counts the moved users, and panics exactly on a remote user with a password |
| MigrationTables.OthersUntouched | src/service/migrations.rs:455-890 | a migration, cut after any write, changes no other repair's table, except that the members' migration works on the joined table |
| MigrationTables.JobCut | src/service/migrations.rs:455-890 | a repair that does not panic, cut after any write: it still does not panic, its result stays the same unless a row was torn, and done to its end it has nothing left to do |
| MigrationTables.PanicStays | src/service/migrations.rs:455-890 | a repair that panics, cut after any write, panics again: what it panics on is never removed |
| MigrationRunner.MigrateForward | src/service/migrations.rs:90-265 | wherever a start is cut, after any single write: the version never decreases, no marker is lost, and each new marker or early version bump comes after its job |
| MigrationRunner.PanicsIff | src/service/migrations.rs:90-265 | an uninterrupted start panics if and only if a migration that is needed, by marker and version, would panic on the original tables |
| MigrationRunner.PanicsMean | src/service/migrations.rs:455-890 | when that is: a joined key without separator before its repair is marked, a referenced key without separator that is not text with a dollar sign before its repair is marked or below version 17, or a remote user with a password before the split is marked |
| MigrationRunner.MigrateAdvances | src/service/migrations.rs:90-265 | wherever a start is cut, for every repair but that of doubled separators: the table of one that is not needed is untouched; else its repaired form is still the same, and once the repair is no longer needed the table is in that form; one that panics goes on to do so |
| MigrationRunner.WholeRun | src/service/migrations.rs:90-265 | what an uninterrupted start comes to on any database: refused below version 11, a panic exactly if a needed migration panics, completed up to version 19, a failed assertion above |
| MigrationRunner.CompletedIsCurrent | src/service/migrations.rs:60-265 | from any version 11 to 19, any markers and any tables, after any number of starts cut after any write: a start that completes has the version and the markers of a new database, each new marker after its job |
| MigrationRunner.InterruptedRunsConverge | src/service/migrations.rs:60-265 | and the next uninterrupted start does complete if and only if no needed migration would have panicked on the original tables |
| MigrationRunner.InterruptedRepairsConverge | src/service/migrations.rs:90-265 | when a start completes, after any interrupted ones, each repaired table other than the joined one is what one uninterrupted repair makes of the original, or untouched if the repair was not needed |
| MigrationRunner.WhatRuns | src/service/migrations.rs:90-265 | when a start completes, after any interrupted ones, exactly those migrations were logged that were due at the outset: a numbered one if the version was lower, a marked one without its marker, and the two repairs of referenced events and read receipts whenever the version was below 17 |
| MigrationRunner.RepairedTables | src/service/migrations.rs:160-186 | from any version and any markers a completed start leaves referenced events and read receipts repaired if the version was below 17 or the marker absent and untouched otherwise, and the passwords split exactly if that was not marked |
| MigrationRunner.StartKeepsJoinedIff | src/service/migrations.rs:483-487 | as long as the members' migration does not get at the table: a start keeps what the joined table is to become if and only if it did not die between the two writes of a row, or the table it began with has that value under the repaired key too |
| MigrationRunner.JoinedAtMarkIff | src/service/migrations.rs:131-142 | over any number of starts: at the moment the repair is marked the joined table is what one uninterrupted repair would have made of the original if and only if every start was harmless in that sense; nothing that was lost comes back |
| MigrationRunner.JoinedSurvivesIff | src/service/migrations.rs:90-265 | where the members' migration is not needed, the same for the table at the end of a start that completes |
| MigrationRunner.MembersComeLast | src/service/migrations.rs:499-580 | after a start that completes the joined table is the repaired one as the members' migration corrects it, if that was needed |
| MigrationRunner.FurtherRunDoesNothing | src/service/migrations.rs:90-265 | a database in that state is left alone by every further run |
| MigrationRunner.Database.RunRepair | src/service/migrations.rs:455-890 | the loops of the repairs do the writes, and panic as, the program says |
| MigrationRunner.Database.Fixup | src/service/migrations.rs:115-256 | one named migration: its work, then its marker and its log entry, exactly if it is unmarked, or is one of the two repeated repairs and the version is below 17; nothing changes otherwise; no marker if it panics |
| MigrationRunner.Database.Numbered | src/service/migrations.rs:101-113 | one numbered migration: its work, then the new version, exactly if the version is below |
| MigrationRunner.Database.MigrateDatabase | src/service/migrations.rs:90-265 | the procedure, not interrupted, is the program the theorems are about |
| HotReload.Stale | src/main/mods.rs:141-151 | the lowest replaced module with everything below it intact, or the read error of the lowest module that is not intact |
| HotReload.RestartThresh | src/main/mods.rs:153-158 | the threshold is the service module, position 1 |
| HotReload.Server.Open | src/main/mods.rs:94-110 | loaded modules stay a prefix of the list and only grow; it succeeds exactly if each missing module loads, and then all are loaded |
| HotReload.Server.FindStale | src/main/mods.rs:141-151 | the loop finds the lowest replaced module of the stack, or the read error before it |
| HotReload.Server.Run | src/main/mods.rs:41-92 | an expectation fails exactly if no module is loaded, or the run symbol is found but nothing is running and nothing was to be started; the exact conditions of success, failed symbol lookups included; after a round that succeeds services are live exactly if the server reloads and the modules at positions 0 and 1, database and service, are loaded and intact; after a failure exactly as far as it got |
| HotReload.Server.Close | src/main/mods.rs:112-134 | all modules if forced, else exactly the replaced ones at the top; the stack stays a prefix |
| HotReload.Server.AsyncMain | src/main/mod.rs:120-148 | over every sequence of rounds: no expectation fails, at each loop head the server is started exactly if no services exist, the stack is always a prefix, and a non-forced unload with unchanged files never takes the database or service module from live services; a clean end has nothing loaded and nothing running |
| KeyBackup.KeyBackups.AddSessionKey | src/api/client/backup.rs:193-284 | the exact conditions of failure and of each error (version, a missing field that was needed, no backup); otherwise the slot holds the new key exactly if it is strictly better or the slot was empty; no other slot changes |
| KeyBackup.KeyBackups.AddKey | src/service/key_backups/mod.rs:145-167 | stores the key and a new etag exactly if the backup exists |
| KeyBackup.Put | src/api/client/backup.rs:210-280 | one upload never leaves a worse key |
| KeyBackup.MissingGivesWay | src/api/client/backup.rs:218-262 | a stored key without `is_verified` gives way to every verified one; one without `first_message_index` or `forwarded_count` gives way to every upload that agrees with it so far and has any value below the largest |
| KeyBackup.BestKeyWins | src/api/client/backup.rs:210-280 | over any sequence of uploads, incomplete and malformed ones included, the stored key is the earliest of minimal rank among the uploads that were answered |
| KeyBackup.CompleteKeysAnswer | src/api/client/backup.rs:210-280 | uploads with complete fields are always answered, so for them the minimum is over all uploads |
| KeyBackup.NeverWorse | src/api/client/backup.rs:210-280 | further uploads never worsen the stored rank |
| KeyBackup.OrderDoesNotMatter | src/api/client/backup.rs:210-280 | the final rank of complete uploads does not depend on their order |
| KeyBackup.Hindered | src/api/client/backup.rs:218-266 | for every stored key with a malformed field, a better complete upload that fails |
| KeyBackup.GivesWayIff | src/api/client/backup.rs:218-266 | a stored key gives way to every better complete upload if and only if none of its fields is malformed |
| KeyBackup.BestAlwaysWinsIff | src/api/client/backup.rs:210-280 | whatever complete keys follow the first upload, the earliest of the best of all is stored, if and only if no field of the first is malformed |
| KeyBackup.LaterUploadsFailIff | src/api/client/backup.rs:218-226 | every upload after the first fails, whatever is uploaded, if and only if the verified field of the first is malformed |
| KeyBackup.NeverReplacedIff | src/api/client/backup.rs:210-280 | a first key is never replaced if and only if it has the best rank there is, or a malformed field where only that or a lower field could still decide |
| Decimal.UnsignedRoundTrip | src/api/client/directory.rs:246-249 | a printed number is read back exactly if it is in range |
| Decimal.UnsignedIff | src/api/client/directory.rs:246-249 | a text is read as n exactly if n is in range and the text is the numeral of n, after zeros and after at most one plus sign |
| PublicRooms.ListingIsStableSort | src/api/client/directory.rs:303-303 | the sort keeps all rooms, puts most members first, and leaves the rooms of each size in the order they had |
| PublicRooms.ListingMeans | src/api/client/directory.rs:269-303 | what is paged holds each room that passes the filter as often as the directory does and no other room, most members first |
| PublicRooms.ListingKeepsOrder | src/api/client/directory.rs:269-303 | of two rooms of equal size that pass the filter one stands before the other exactly if it does so in the directory |
| PublicRooms.GetPage | src/api/client/directory.rs:231-325 | the page of the filtered and sorted rooms, ten unless a limit is given, the refusal of a bad token, and the panic when the next position overflows, for every request |
| PublicRooms.PageMeans | src/api/client/directory.rs:305-325 | a page holds the rooms at consecutive positions from its start, as many as asked for and there are; it has a next token exactly if it is full, which leads behind it, and a backward token exactly if something is before, which leads one page back; the estimate is the number of all rooms listed |
| PublicRooms.TokenIff | src/api/client/directory.rs:237-253 | a token is accepted exactly if it is the letter n or p and a number up to the machine word, and starts the page at that number or one page before it |
| PublicRooms.TokenRoundTrip | src/api/client/directory.rs:237-253 | a token reads back as the position it was made from, a backward one as one page before it |
| PublicRooms.ChainPage | src/api/client/directory.rs:309-316 | the k-th page reached by next tokens starts at k times the limit |
| PublicRooms.PagingCoversAll | src/api/client/directory.rs:231-316 | the end, which every chain comes to with a limit of at least one, is reached after exactly floor(n / limit) + 1 pages, and the pages hold the whole listing once, in order |
| PublicRooms.PagingGoesOn | src/api/client/directory.rs:231-316 | a chain that has not ended can be followed and has at most floor(n / limit) pages |
| PublicRooms.FollowToEnd | src/api/client/directory.rs:231-316 | with a limit of at least one, every chain of pages can be followed to an end |
| PublicRooms.PagingEndsIff | src/api/client/directory.rs:231-316 | following next tokens from the start comes to an end if and only if the limit is not zero |
| PublicRooms.PreviousPage | src/api/client/directory.rs:311-311 | the backward token of a page gives the page before it, and only the first page has none |
| PublicRooms.PreviousFrom | src/api/client/directory.rs:250-252 | from any position the page before ends where this one starts exactly if the position is at least one limit in |
| PublicRooms.LimitZeroNeverEnds | src/api/client/directory.rs:313-316 | with limit zero the next token leads to the same empty page for ever |
| EnvFile.SplitUnlines | cinquain/lib/config.py:78-78 | written lines are split back into the same lines |
| EnvFile.LinesOfEnded | cinquain/lib/config.py:78-78 | a file whose lines end in a line feed, a carriage return or both has the same lines |
| EnvFile.EntryOfLine | cinquain/lib/config.py:79-84 | a written line is read as its name and its value |
| EnvFile.EntryIff | cinquain/lib/config.py:79-84 | a line is an entry exactly if, without the white space around it, it is a name, an equals sign and the value |
| EnvFile.StripDrops | cinquain/lib/config.py:79-79 | the white space at both ends of a text is dropped, and nothing else |
| EnvFile.ReadEnv | cinquain/lib/config.py:73-85 | the dictionary read from a file: the last entry for each name wins, comments and other lines are skipped, a missing file is empty |
| EnvFile.UpdateLines | cinquain/lib/update_image.py:25-33 | every line that starts with the name is replaced, or one is added at the end |
| EnvFile.UpdateEffect | cinquain/lib/update_image.py:23-34 | for every file: no other name changes, and the image takes effect if and only if no line starts with its name or its last entry is on a line that does |
| EnvFile.HiddenUpdate | cinquain/lib/update_image.py:27-33 | an indented later entry hides the new value |
| Validators.DomainIsFixed | cinquain/lib/config.py:29-42 | an accepted domain is accepted again unchanged, is plain printable text and has no quote |
| Validators.DomainAcceptedIff | cinquain/lib/config.py:29-42 | an input is accepted as a domain exactly if, stripped and in lower case, it is that domain after an optional scheme and before an optional port 443, any dots and an optional path |
| Validators.DomainFromAddress | cinquain/lib/config.py:29-42 | `https://d/path`, `http://d`, `d:443` and `d.` are accepted as `d`, for every domain d and every printable path |
| Validators.EmailIsFixed | cinquain/lib/config.py:45-49 | an accepted address is accepted again unchanged |
| Validators.ImageIsFixed | cinquain/lib/config.py:52-56 | an accepted image reference is accepted again unchanged, lower-casing of digests included |
| Validators.StackIsFixed | cinquain/lib/config.py:59-63 | an accepted stack name is accepted again unchanged |
| Validators.TimezoneIsFixed | cinquain/lib/config.py:66-70 | an accepted time zone is accepted again unchanged |
| Validators.LevelIsFixed | cinquain/lib/config.py:130-132 | an accepted log level is accepted again unchanged |
| Validators.IntIsFixed | cinquain/lib/config.py:120-125 | a printed port or count is read back as the number |
| Patterns.DomainIff | cinquain/lib/config.py:18-18 | the domains are exactly the strings of 4 to 253 characters that the regular expression for domains matches |
| Patterns.EmailIff | cinquain/lib/config.py:19-19 | the addresses are exactly the strings of 3 to 254 characters that the regular expression for addresses matches |
| Patterns.ImageIff | cinquain/lib/config.py:20-20 | the image references are exactly the strings of 3 to 512 characters that the regular expression for images matches, host, port, path, tag and digest included |
| Patterns.StackIff | cinquain/lib/config.py:21-21 | the stack names are exactly what the regular expression matches |
| Patterns.TimezoneIff | cinquain/lib/config.py:22-70 | the time zones are exactly what the regular expression matches and has no two dots in a row |
| DeployConfig.Validated | cinquain/lib/config.py:118-144 | every configuration that is built satisfies all field conditions |
| DeployConfig.MissingValues | cinquain/lib/config.py:106-144 | without a domain or an address nothing is built; every other missing value gets its default: image, proxy image, stack cinquain, time zone UTC, ports 80 and 443, retention 7, level info |
| DeployConfig.DomainAndAddressSuffice | cinquain/lib/config.py:106-144 | a valid domain and address alone are accepted: the defaults pass all validators |
| DeployConfig.NumbersAcceptedIff | cinquain/lib/config.py:120-129 | ports and retention are accepted exactly within 1 to 65535 and 1 to 365 and with two different ports, and are then those of the configuration |
| DeployConfig.EnvOfLines | cinquain/lib/config.py:146-164 | the written lines are clean and say exactly the value of each variable |
| DeployConfig.EnvSays | cinquain/lib/config.py:146-164 | a reader of the written environment file finds the twelve variables by their names, each with the value of its setting |
| DeployConfig.ConfigRoundTrip | cinquain/lib/config.py:73-164 | reading the environment text of a validated configuration and validating the values gives the same configuration |
| Deployment.TomlNamesDomain | cinquain/lib/config.py:166-182 | reading the written homeserver configuration line by line, the `server_name` of its global section is the domain |
| Deployment.TomlSaysGlobal | cinquain/lib/config.py:166-176 | a reader of the written text finds the server name, the address and port, registration off and federation on in the global section |
| Deployment.TomlSaysPaths | cinquain/lib/config.py:166-176 | and the database path and the source of client addresses |
| Deployment.TomlSaysWellKnown | cinquain/lib/config.py:178-182 | in the delegation section: clients are sent to the domain, servers to the domain with the https port, and the support page and address are those of the configuration |
| Deployment.Root.WriteConfig | cinquain/lib/config.py:185-196 | refused exactly if locked to another domain, with both files unchanged; the files after being stopped before either replacement, or after both |
| Deployment.Root.UpdateImage | cinquain/lib/update_image.py:10-35 | the file after an update, and the exact conditions of its errors |
| Deployment.UpdatedEnvText | cinquain/lib/update_image.py:23-34 | updating the image in a written file gives, byte for byte, the file of the configuration with that image |
| Deployment.OnlyImageChanges | cinquain/lib/update_image.py:10-35 | after any number of updates, accepted or not, the file is that of the same configuration with the last accepted image |
| Deployment.DomainStaysLocked | cinquain/lib/config.py:185-196 | once the lock and both files name a domain, they do so after any run of writes and updates, each stopped at any point |
| Deployment.WriteAgreesIff | cinquain/lib/config.py:185-196 | from files that agree, a write leaves them in agreement if and only if it is not stopped between the two replacements with a new domain that no lock refuses |
| Deployment.StoppedWriteDisagrees | cinquain/lib/config.py:185-196 | without a lock, a write of another domain stopped between the two replacements leaves the files with two domains |

## Left out

- JSON, CBOR and `RawValue` branches of the codec, maps and structs: they delegate to other libraries.
- Sequences that are not tuples, top-level scalars, nested tuples, and the 8-, 16- and 32-bit integers and characters, which have no reader: they have no round trip to state.
- Bounded output buffers, and the saturation of the reader's counters at the machine word.
- The codec without debug assertions: an assertion that fires is an outcome of the model; where the theorems show that none fires the two builds agree.
- The database engine, the asynchronous runtime, locks and channels: a sorted snapshot, FIFO channels that drain after being closed, and mutual exclusion are assumed.
- Room access checks, room versions and failing redaction or serialisation in `get_missing_events`; visibility and rejection are given with each event, and the store is a fixed snapshot.
- The text layout of the auth-chain drawing: a node is a number, an id, a name and a status.
- Codec.PrefixExact: for single tuples faithfulness is sufficient, not necessary; the exact condition is proved for types (`Codec.QueriesExactIff`).
- Worker panics, the busy counter, thread affinity and queue selection by processor.
- SendTransactions.AtMostOnce: event ids are taken to be fresh at each append, and a call is not cancelled between the append and the end of `build_and_append_pdu`, because the timeline service is not part of this model.
- The members' migration (`retroactively_fix_bad_data_from_roomuserid_joined`): its writes to the joined table are an unknown function of that table, and its other tables are not modelled.
- The tables of the remaining migrations: each of those is one step in the log of `MigrationRunner`.
- The media check at start and the reports about forbidden names after the migrations.
- The lifecycle flags of src/core/server.rs; a failed lookup of the start symbol counts as a failed start.
- The bulk routes of key backups, which overwrite without comparing, and the etag panic of `get_count_etag`.
- Remote directories, the search filter itself (any predicate on rooms), and the building of room summaries.
- Lower-casing beyond ASCII is any function that agrees with it on ASCII; decimal digits outside ASCII, and port values that are neither text nor whole numbers, are not modelled.
- TOML beyond section headers, comments and plain strings: the reader in `Deployment` knows no other values and no escapes.
- File modes and temporary files of atomic writes: a replacement happens or does not.
- HTTP routing, authentication, logging, the web panel and the shell scripts.
