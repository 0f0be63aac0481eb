# Verified model of the hpcperfstats ingest, copy and configuration cores

hpcperfstats receives monitor payloads over AMQP, archives them per host, and later copies its
`host_data` hypertable between database versions. This project models the parts of it whose
correctness spans many functions and many interleavings, and proves what those parts are for.

* `AckProtocol`, `AckSafety`, `AckPaths`: the listend daemon's deliver / archive / acknowledge protocol as a state
  machine. Broker, consume sessions, archive threads and deferred callbacks take separate steps; every
  assignment of `bind` and every field read of an archive thread is its own step, so that all
  interleavings are runs. The invariants hold in every state of every run. Delivery tags belong to the
  channel that delivered them, as basic.ack in section 1.8.3.13 of the AMQP 0-9-1 reference says.
* `DigitNames`, `EpochDirectory`, `ArchiveWriter`: archive rotation over hard links, the digit-link
  cache, digit-name probing and the kept append descriptor, as a class whose methods change a directory
  of names and inodes (POSIX.1-2017 `link()`, `unlink()`, `write()` with O_APPEND, `open()` with O_TRUNC).
  Any call may raise, and `os.path.exists` answers False when its `stat` does. Where the result depends on
  which call did, a `World` says so, and holds the bytes that land before a write raises, the clock and the
  sample seconds found in files.
* `DurableAcks`: the protocol on top of the archive. Archive events append a body to the files, and count
  as archived exactly when the append returned.
* `ReorderOrder`, `ReorderWorker`: the host-affine archive worker, its heaps, forced drain and in-flight
  counter.
* `ConsumeWindow`, `GreedyWindows`: the rolling ten-minute counters with pruned deques, and the rate
  analyzer's non-overlapping sum over the reports they produce.
* `ChunkTables`, `ChunkCopy`, `ChunkRun`, `ChunkFleet`: the live chunk copy beside concurrent writers:
  signatures, skip-by-count, slice resync, the state record, the fold over completed workers, and all of it
  together for a table of many chunks over many runs.
* `IniText`, `IniParser`, `IniRewrite`, `IniReading`, `IniMeaning`, `IniTheorems`, `IniConverse`,
  `IniInstance`, `IniLaws`: the ini rewriter and the strict `configparser` it relies on, from text to text.
* `RouteAllowlist`: the reduction of Django route templates to nginx prefixes.
* `SortedSets`: a set as a sequence in ascending order, for any total order.
* `Wrappers`: option and outcome types; an `Outcome` is a returned value or a raised exception.

Code that updates state in place is a class or a method with loops, proved against a specification
function; what the code is for is then stated as lemmas about that function. Which calls raise, which counts
are cancelled, which clock readings a drain gets and when the stop event is seen are inputs, so contracts say
when a method returns and not only what it returns. In `ChunkCopy`, `Writers` stands for any commits of
other sessions between two statements, to the source and to the other chunks of the target. `hide` at the
head of a proof keeps definitions that the proof does not need out of it.

Two host parsers, the host-to-worker map, the analysis of timestamps inside payloads and numeric
equality of texts are parameters or arbitrary values, so the results hold for any of them.

## Where the code does less than its comments say

* `os.path.exists(current)` answers False when its `stat` raises (hpcperfstats/listend.py:1075). A `$` append
  then skips the unlink, and `open(current, "wb")` truncates the inode that `current` shares with its digit
  epoch, acknowledged payloads included. `LosesIff` gives the exact condition under which a payload is
  lost: `exists` missed a `current`, no call before the write raised, and what `current` held is not a prefix
  of what is written. `AppendMonitorPayload` states the same if-and-only-if for each append, `AppendAll`
  accounts for every payload of a run, and `FailedExistsLosesPayload` is a run that loses one.
* The kept writer's size is taken to be 0 when `fstat` raises (hpcperfstats/listend.py:971-975). A returned
  offset is right exactly when its `ExactHold` holds: a reused writer's kept size is the length of the file,
  or a newly opened file was empty or `fstat` answered. `AppendAll` shows that exactly those results name
  their payload's true place, that their ranges read back at the end unless lost, and that the hold of a
  reused writer is exact exactly when that writer's last opening was. `FailedFstatMisreads` is a run that returns a
  wrong offset.
* The idle report counts events from both ends of its window (hpcperfstats/listend.py:2703-2730), while
  the analyzer treats reports a full window apart as disjoint. `SeamCountsTwice` gives the case,
  `ClosedHoldsTwiceIff` says exactly which events are counted twice, and `ClosedTotalsBalance` by how much
  the sum and the truth differ.
* Equal row counts skip a chunk before any signature is compared
  (scripts/pg18_host_data_chunk_copy.py:1346). After an UPDATE the target may keep a stale row,
  and the record of the skip is believed from then on: `EqualCountsMissAnUpdate`. `SkipIsRightIff` and
  `SkipRecordFitsIff` give the exact condition.
* A run without a state file that raises halfway, or any run that is killed, leaves the record of an earlier run
  in place (scripts/pg18_host_data_chunk_copy.py:1489-1507). `InterruptedCopyLies` is the case in which it lies: after
  the DELETE the record matches as before. `InterruptedRecordIff` shows that the record is safe, whatever part
  of the source is left, exactly when it did not match before the copy or the source chunk was empty;
  `UnrecordedPass` and `Pass` say the same of each run, and `Passes` when the doubt ends.
* Pruning the deques is invisible only while the clock does not step back; `ClockStepBackLosesAnEvent`
  gives an instance and `PrunedTotals` the exact condition.
* The ini rewriter keeps effective values for examples that are `Tidy`, a condition on the example
  alone. `ChangedExactly` names the options that change then, and `TidyIff` shows the condition exact,
  provided each registry option has some printable value other than its default: an untidy example has a site
  file whose output cannot be read, or in which a documented value of the site's own has grown, or which sets
  a registry option where the rewriter did not place it. The last case, a side door, is a
  line such as `Host = x` or `host : x`, which names a registry option without being seen as its
  documentation. It need not change an effective value (`SideDoorCanBeHarmless`); for examples without such lines
  `EffectiveValuesIff` states the equivalence for effective values.
  `DocumentedAboveTheFirstHeader`, `StrayLineJoinsTheValue` and `StrayLineNeverSettles` are the plainest
  failures. The shipped hpcperfstats.ini.example has the tidy form: headers first, commented or single-line
  options at the margin, no indented lines.
* A route template whose converter starts in the middle of a segment is not matched by its own prefix;
  `OwnPrefixMatchesIff` gives the exact condition and `MidSegmentConverterIsRejected` an instance.

## Model

| member | source | states |
|---|---|---|
| `AckSafety.NoMessageLost` | hpcperfstats/listend.py:2594-2700 | In every state of every run each published message is ready at the broker, unacknowledged on a live connection, or archived |
| `AckSafety.GenerationSafety` | hpcperfstats/listend.py:2080-2217 | Every ack or nack a run performs is performed on the channel that delivered its tag, and never for a tag the broker does not know |
| `AckSafety.SettledOnceAfterArchive` | hpcperfstats/listend.py:2220-2280 | No delivery is settled twice; an ack runs only for a message archived in the state before it; whatever left the broker is archived |
| `AckPaths.UndisturbedItemIsAcked` | hpcperfstats/listend.py:2220-2280 | The guards are not in the way: a queued item whose session stays bound can be archived and acked by eight enabled steps |
| `AckPaths.UndisturbedItemIsRequeued` | hpcperfstats/listend.py:2220-2280 | The counterpart for a failed archive: the item is nacked on the channel that delivered it and its message is ready again |
| `AckPaths.SyncDeliveryIsAcked` | hpcperfstats/listend.py:2594-2700 | A delivery handled on the I/O thread is archived and then acked |
| `AckPaths.SyncDeliveryIsRequeued` | hpcperfstats/listend.py:2594-2700 | Or nacked, and its message is ready again |
| `AckPaths.BindCompletes` | hpcperfstats/listend.py:181-201 | What other threads see of `bind`, assignment by assignment: connection, channel, generation, reconnect flag |
| `AckPaths.CallbackSettlesIff` | hpcperfstats/listend.py:1681-1712 | A deferred callback settles its delivery exactly when connection and generation are those read and no reconnect is wanted; otherwise only the item goes |
| `AckPaths.DecideSchedulesIff` | hpcperfstats/listend.py:1629-1678 | A verdict is scheduled exactly when the snapshot has connection and channel, no reconnect, the stamped generation and a usable connection |
| `AckSafety.StepKeepsInv` | hpcperfstats/listend.py:2543-2700 | Every enabled step keeps the broker, generation, custody, history and archive invariants |
| `AckSafety.RunKeepsInv` | hpcperfstats/listend.py:2543-2700 | The invariants hold in every state of every run |
| `AckSafety.CallbackChannel` | hpcperfstats/listend.py:1681-1712 | A deferred callback that is not stale holds the connection and channel that delivered its item |
| `AckSafety.BindWriteKeepsToken` | hpcperfstats/listend.py:181-201 | No single assignment of `bind` makes an item of an older generation look current |
| `AckSafety.ReadKeepsToken` | hpcperfstats/listend.py:1629-1678 | Reading one session field at a time never mixes generations unnoticed |
| `AckSafety.DecideKeepsToken` | hpcperfstats/listend.py:2080-2116 | What passes the snapshot guard is the origin's connection and channel while the session is stable |
| `AckSafety.EnqueuedTokenOk` | hpcperfstats/listend.py:2574-2591 | The generation stamped on a queued item is that of the session that delivered it |
| `AckSafety.BrokerKeptByClose` | hpcperfstats/listend.py:1265-1304 | Losing a connection takes away exactly the deliveries of its channels and makes exactly their messages ready again |
| `AckSafety.BrokerKeptByCloseChannel` | hpcperfstats/listend.py:1265-1304 | The same for a channel closed while its connection lives on |
| `AckSafety.BrokerKeptByDeliver` | hpcperfstats/listend.py:2594-2700 | A delivery moves exactly one message from ready to unacknowledged, under a key neither in use nor ever settled |
| `AckSafety.SettleKeepsBroker` | hpcperfstats/listend.py:2080-2217 | Settling an owed delivery moves exactly its own message, to nowhere on ack and to ready on nack, unless its channel is gone; then nothing moves. Its tag is never unknown |
| `AckSafety.CustodyKept` | hpcperfstats/listend.py:2543-2700 | Every step keeps each delivery in the hands of at most one thread, and what was settled in nobody's |
| `AckSafety.ArchiveKeptByToken` | hpcperfstats/listend.py:2220-2280 | Archive threads ack only what they have archived |
| `AckSafety.ArchiveKeptBySession` | hpcperfstats/listend.py:2594-2700 | The synchronous path acks only what it has archived |
| `DurableAcks.Daemon.Append` | hpcperfstats/listend.py:2220-2280 | The body of a message is filed for its own host exactly when the append returns |
| `DurableAcks.Daemon.Advance` | hpcperfstats/listend.py:2220-2280 | One event of the protocol; an archive event succeeds exactly when its append returned |
| `DurableAcks.Daemon.Run` | hpcperfstats/listend.py:2594-2700 | After any events, with the system answering in any way, each published message is ready, or unacknowledged on a live connection, or readable in its host's archive, or truncated by a `$` append; none is truncated while `exists` answers; whatever left the broker is of the last two kinds |
| `DigitNames.DecimalRoundTrip` | hpcperfstats/listend.py:460-512 | The digit name of an epoch reads back as the epoch |
| `DigitNames.DecimalInjective` | hpcperfstats/listend.py:460-512 | Different epochs have different digit names |
| `DigitNames.DecimalIsCanonical` | hpcperfstats/listend.py:460-512 | A digit name has no leading zero |
| `EpochDirectory.DurableKept` | hpcperfstats/listend.py:1019-1157 | A payload's range survives any evolution of its directory |
| `EpochDirectory.UpwardProbeSucceedsIff` | hpcperfstats/listend.py:460-512 | Probing upward from a positive start succeeds exactly when fewer than 10,000 of the 10,000 candidates belong to other inodes |
| `EpochDirectory.ProbeStops` | hpcperfstats/listend.py:460-512 | Whichever calls raise, the probe returns the first candidate not passed over if it can be taken, raises if not, and gives up at the first non-positive one or after its attempts |
| `EpochDirectory.QuietProbe` | hpcperfstats/listend.py:460-512 | With no call raising it finds the first usable name |
| `EpochDirectory.SeenIsLinked` | hpcperfstats/listend.py:406-457 | What the cache or the scan sees is a digit link; with no call raising, every digit link is seen |
| `EpochDirectory.UnlinkEvolves` | hpcperfstats/listend.py:1076-1089 | Unlinking a hard-linked `current` loses no archived inode |
| `EpochDirectory.LinkEvolves` | hpcperfstats/listend.py:460-512 | Binding a usable digit name removes and rebinds nothing |
| `EpochDirectory.OverwriteEvolvesIff` | hpcperfstats/listend.py:1091-1092 | Truncating an existing `current` and writing loses no byte exactly when the old content is a prefix of the new |
| `EpochDirectory.OverwriteLosesIff` | hpcperfstats/listend.py:1091-1092 | The payloads lost are those of the truncated inode whose range now reads otherwise |
| `EpochDirectory.AllDurableIff` | hpcperfstats/listend.py:1091-1092 | Every payload the directory holds survives exactly when the old content is a prefix of the new |
| `ArchiveWriter.HostChangeKeepsConsistency` | hpcperfstats/listend.py:1019-1157 | Replacing one host's directory by an evolved one keeps every other worker's writer and every receipt good |
| `ArchiveWriter.KeptWriteKeepsConsistency` | hpcperfstats/listend.py:892-1016 | Appending on the kept descriptor keeps all writers in agreement and adds one durable receipt at the true offset |
| `ArchiveWriter.ExactKept` | hpcperfstats/listend.py:892-1016 | Kept sizes stay exact when no worker gains drift |
| `ArchiveWriter.StruckReceiptIff` | hpcperfstats/listend.py:1075-1092 | Which payloads a `$` append costs |
| `ArchiveWriter.LosesIff` | hpcperfstats/listend.py:1075-1092 | A `$` append can cost a payload exactly when `exists` missed `current`, the file was opened, and its content is not rewritten |
| `ArchiveWriter.WrittenIff` | hpcperfstats/listend.py:1004-1016 | A write puts in the payload, or after a raise as much of its beginning as has landed |
| `ArchiveWriter.HoldIff` | hpcperfstats/listend.py:892-960 | When a kept writer is reused, and when there is none |
| `ArchiveWriter.QuietClose` | hpcperfstats/listend.py:1075-1089 | With no call raising, `current` is closed exactly when it is linked or a usable name is found downwards from its first sample second |
| `ArchiveWriter.QuietNaming` | hpcperfstats/listend.py:1091-1101 | With no call raising, the new segment is named exactly when fewer than 10,000 of the upward names belong to others |
| `ArchiveWriter.FailedFstatMisreads` | hpcperfstats/listend.py:971-975 | A run of the archive: once `fstat` raises on reopening a non-empty file, the returned offset is 0 and the payload lies elsewhere |
| `ArchiveWriter.FailedExistsLosesPayload` | hpcperfstats/listend.py:1075-1092 | A run of the archive: an append that returned can no longer be read back after a `$` append whose `exists` missed `current` |
| `ArchiveWriter.Archive.RememberDigitEpochLink` | hpcperfstats/listend.py:385-403 | The cache names the path with the inode it is bound to, or is unchanged when the `stat` raised |
| `ArchiveWriter.Archive.CurrentIsHardlinkedToDigitEpoch` | hpcperfstats/listend.py:406-457 | True exactly when a call that did not raise shows a digit link; what stays cached names an epoch of `current`'s inode |
| `ArchiveWriter.Archive.LinkCurrentToUniqueDigitEpoch` | hpcperfstats/listend.py:460-512 | The answer is that of the probe, for any calls that raise; it binds that one name, or changes nothing |
| `ArchiveWriter.Archive.EnsureCurrentHardlinkedToTimestamp` | hpcperfstats/listend.py:515-554 | Binds to `current` one usable digit name, at or below its first sample second and below the cutoff; otherwise raises with the directory unchanged |
| `ArchiveWriter.Archive.OpenSticky` | hpcperfstats/listend.py:971-975 | Whether the writer opens, and that it is open on the inode of `current` with the file's length as size, or 0 when `fstat` raised |
| `ArchiveWriter.Archive.StickyAppendSampleBytes` | hpcperfstats/listend.py:892-1016 | Returns exactly when no call raised; the payload is filed at the end of the file, and the returned offset is that place exactly when the hold was exact; the lag of a kept size is set by an opening and carried along by reuse |
| `ArchiveWriter.Archive.CloseCurrent` | hpcperfstats/listend.py:1076-1089 | Closes exactly when a digit link is seen, or made and then seen, and the unlink does not raise; the path is known exactly when the `stat` of it answered; path and size are those of the closed inode |
| `ArchiveWriter.Archive.CloseIfSeen` | hpcperfstats/listend.py:1075-1089 | Returns exactly when there was no `current`, or `exists` missed it, or it could be closed |
| `ArchiveWriter.Archive.WriteCurrent` | hpcperfstats/listend.py:1091-1092 | A new file on an unused inode, or the old inode with exactly what was written |
| `ArchiveWriter.Archive.OpenSegment` | hpcperfstats/listend.py:1091-1101 | `current` holds the payload and a usable digit name at or above its first sample second, or the wall clock without one; its inode is fresh unless there was a `current`, which is then truncated; returns exactly when the write went through and the probe found the name |
| `ArchiveWriter.Archive.Rotate` | hpcperfstats/listend.py:1067-1111 | Returns exactly when it comes to writing, the write goes through and a name is found; it leaves a record exactly when it closed a segment whose epoch it knows, and the record describes that segment; the directory evolves exactly when the append does not truncate what it fails to see |
| `ArchiveWriter.Archive.AppendMonitorPayload` | hpcperfstats/listend.py:1019-1157 | Exactly when a payload returns, for samples and `$` payloads alike; other hosts are untouched and the directory evolves exactly unless a `$` append truncates what `exists` missed; lost are exactly the payloads truncated; a return records exactly one receipt, at the returned offset exactly when the hold was exact |
| `ArchiveWriter.Archive.AppendAll` | hpcperfstats/listend.py:1019-1157 | Over any sequence of payloads no digit name is removed or rebound; lost are exactly the payloads that a later append truncates, and every other one is durable; each returned range with an exact hold reads its payload back at the end unless lost; a reused hold is exact exactly when its writer's last opening was |
| `ReorderWorker.HeapPushSorted` | hpcperfstats/listend.py:2283-2305 | Pushing keeps a heap in key order, which every step of the worker carries along |
| `ReorderWorker.PairInKeyOrder` | hpcperfstats/listend.py:2283-2305 | A held item and its successor leave as they arrived, or swapped if inverted |
| `ReorderWorker.StreamsAfterOrdered` | hpcperfstats/listend.py:2362-2396 | A push and drain keeps every host's stream a swap of adjacent inverted pairs, and moves no untimed item |
| `ReorderWorker.Worker.ArchiveInflightAdd` | hpcperfstats/listend.py:2007-2022 | The counter moves by delta, floored at 0, and says whether the floor was used |
| `ReorderWorker.Worker.PopLeast` | hpcperfstats/listend.py:2362-2396 | What leaves a heap is the item with the least key, and the others stay |
| `ReorderWorker.Worker.DrainHost` | hpcperfstats/listend.py:2362-2396 | A lone item that is neither forced nor due at the clock reading stays; otherwise the whole heap leaves in key order |
| `ReorderWorker.Worker.HandleOrdered` | hpcperfstats/listend.py:2415-2459 | The first timestamped item of a host is held exactly while it is not due; a second one makes both leave at once, swapped exactly when inverted |
| `ReorderWorker.Worker.Run` | hpcperfstats/listend.py:2308-2459 | What each host flushes is exactly what its own gets and clock readings say, whatever the other hosts do; every popped item is flushed exactly once, only inverted pairs are swapped, and the counter's floor is never used |
| `ReorderWorker.PairMeetsWithinTheHold` | hpcperfstats/listend.py:2362-2396 | Two consecutive items of a host leave swapped exactly when they are inverted and meet before the first is a second old, neither at its arrival nor at a timeout in between |
| `ReorderWorker.WaitsUntilDue` | hpcperfstats/listend.py:2397-2415 | Without a further item of its host an item waits exactly until a timeout finds it due |
| `ReorderOrder.ReorderingRemovesInversions` | hpcperfstats/listend.py:2308-2459 | Reordering never adds an inversion and removes one whenever it changes a stream |
| `ReorderOrder.SortedStreamUnchanged` | hpcperfstats/listend.py:2308-2459 | A stream in chronological order leaves unchanged |
| `ReorderOrder.SameItems` | hpcperfstats/listend.py:2308-2459 | Streams that agree host by host hold the same items equally often |
| `ConsumeWindow.PrunedTotals` | hpcperfstats/listend.py:1139-1150 | Totals over pruned deques are the full ones exactly when nothing pruned is in the window |
| `ConsumeWindow.TotalsCountEvents` | hpcperfstats/listend.py:2703-2730 | Each message and each unlink of the last 600 seconds counts exactly once |
| `ConsumeWindow.BytesAddUp` | hpcperfstats/listend.py:2703-2730 | The bytes are the sum of those of the unlinks in the window |
| `ConsumeWindow.PushMessage` | hpcperfstats/listend.py:1139-1150 | Recording and pruning keeps the message deque a suffix that lacks only events too old to matter |
| `ConsumeWindow.PushUnlinks` | hpcperfstats/listend.py:1139-1150 | The same for the unlink deque |
| `ConsumeWindow.Window.Record` | hpcperfstats/listend.py:1139-1150 | Both deques gain the event and lose exactly the front older than the cutoff |
| `ConsumeWindow.Window.ConsumeWindowTotals` | hpcperfstats/listend.py:2703-2730 | The three totals equal those of the full history for any query no earlier than the last event |
| `ConsumeWindow.ClockStepBackLosesAnEvent` | hpcperfstats/listend.py:1139-1150 | A clock that steps back makes pruning visible |
| `GreedyWindows.NonoverlappingListendWindowTotals` | scripts/measure_pipeline_ingest_rate.py:1209-1255 | The loop sums the kept samples, or all of them when one has no timestamp |
| `GreedyWindows.KeptAreSeparated` | scripts/measure_pipeline_ingest_rate.py:1245-1255 | Kept samples are pairwise at least a window apart |
| `GreedyWindows.KeptIff` | scripts/measure_pipeline_ingest_rate.py:1245-1255 | A sample is kept exactly when a full window has passed since the last kept one before it, if there is one |
| `GreedyWindows.KeptIsLargest` | scripts/measure_pipeline_ingest_rate.py:1245-1255 | No larger pairwise separated choice exists among time-ordered samples |
| `GreedyWindows.KeptTotalsAreBounded` | scripts/measure_pipeline_ingest_rate.py:1209-1255 | When each report counts the half-open window before it, kept counts and bytes never exceed the true totals |
| `GreedyWindows.ReportsCountMultiplicities` | scripts/measure_pipeline_ingest_rate.py:1209-1255 | A sum of reports counts each event once per window that holds it |
| `GreedyWindows.ClosedHoldsTwiceIff` | hpcperfstats/listend.py:2703-2730 | Closed windows count an event twice exactly when it fell on a kept report whose successor came one window later |
| `GreedyWindows.ClosedTotalsAreBounded` | hpcperfstats/listend.py:2703-2730 | With listend's closed windows the totals are bounded when no event fell on such a seam |
| `GreedyWindows.ClosedBalance` | hpcperfstats/listend.py:2703-2730 | Counted weight plus missed weight is true weight plus weight on seams |
| `GreedyWindows.ClosedTotalsBalance` | hpcperfstats/listend.py:2703-2730 | So for the analyzer's sums: kept total plus what no kept window holds equals true total plus what fell on a seam |
| `GreedyWindows.ListendReportsClosedWindows` | hpcperfstats/listend.py:2703-2730 | The monitor's totals are reports over closed windows |
| `GreedyWindows.SeamCountsTwice` | scripts/measure_pipeline_ingest_rate.py:1209-1255 | One unlink on the seam of two kept reports is counted twice |
| `ChunkTables.RecordRecognised` | scripts/pg18_host_data_chunk_copy.py:873-948 | A verified chunk's own record is recognised exactly when no counter moved, and as insert-only exactly when no other counter moved |
| `ChunkTables.InsertsOnlyIff` | scripts/pg18_host_data_chunk_copy.py:497-545 | A record passes as insert-only exactly when its bounds are the chunk's and only the two insert counters may differ |
| `ChunkTables.SkipIsRightIff` | scripts/pg18_host_data_chunk_copy.py:1343-1349 | A skip on equal counts is right exactly when the target holds no row the source lacks |
| `ChunkTables.SliceCounts` | scripts/pg18_host_data_chunk_copy.py:550-595 | The grouped counts are the sizes of the bins, for every bin |
| `ChunkTables.MismatchedBins` | scripts/pg18_host_data_chunk_copy.py:627-633 | The bins with different counts, all of them, in order |
| `ChunkTables.MismatchedSlicesAreExact` | scripts/pg18_host_data_chunk_copy.py:598-633 | The windows are sorted, disjoint, inside the chunk and cover exactly the rows of differing bins |
| `ChunkTables.EqualCountsEqualBin` | scripts/pg18_host_data_chunk_copy.py:598-633 | A target that is part of the source has equal contents in every bin with equal counts |
| `ChunkTables.ResyncOfMismatchedIsEnough` | scripts/pg18_host_data_chunk_copy.py:1383-1435 | Every source row a partial target lacks lies in a mismatched window |
| `ChunkCopy.ChangesCompose` | scripts/pg18_host_data_chunk_copy.py:457-499 | Writes seen through the counters compose, and stay insert-only exactly when both parts are |
| `ChunkCopy.RecordSurvivesWriters` | scripts/pg18_host_data_chunk_copy.py:873-917 | No write of the source breaks a record |
| `ChunkCopy.UnchangedIsInSync` | scripts/pg18_host_data_chunk_copy.py:873-917 | A record that matches the current signature means the target equals the source |
| `ChunkCopy.BehindRecordIsHarmless` | scripts/pg18_host_data_chunk_copy.py:1489-1507 | A record whose signature is behind the source's cannot lie, whatever an interrupted copy left |
| `ChunkCopy.InterruptedRecordIff` | scripts/pg18_host_data_chunk_copy.py:1361-1366 | An interrupted copy leaves a record honest, whatever is left in the range, exactly when it did not match before or the source chunk was empty |
| `ChunkCopy.InterruptedCopyLies` | scripts/pg18_host_data_chunk_copy.py:1361-1366 | With the range deleted and the COPY raised, the record of a synced chunk lies and is believed |
| `ChunkCopy.NewRecordFits` | scripts/pg18_host_data_chunk_copy.py:919-948 | The record written after a pass keeps its promise |
| `ChunkCopy.SkipRecordFitsIff` | scripts/pg18_host_data_chunk_copy.py:1343-1349 | The record written by a skip on equal counts keeps its promise exactly when the target holds no row the source lacks |
| `ChunkCopy.EqualCountsMissAnUpdate` | scripts/pg18_host_data_chunk_copy.py:1343-1349 | After one UPDATE of a synced chunk with an honest record the counts match, and the record that the skip writes is believed though the target is stale |
| `ChunkCopy.ExaminedRecordFits` | scripts/pg18_host_data_chunk_copy.py:919-948 | The record of any examination that returned keeps its promise, given only what the examination did to its own range |
| `ChunkCopy.LateSignatureLies` | scripts/pg18_host_data_chunk_copy.py:1343-1349 | A signature read after the copy would record a lie as soon as one insert came between |
| `ChunkCopy.ChunkLink.CopyWindow` | scripts/pg18_host_data_chunk_copy.py:1361-1366 | Beside other workers on the table, the window ends up deleted, or holding exactly a snapshot of the source, exactly as the statements raise; rows outside stay |
| `ChunkCopy.ChunkLink.CopyWindows` | scripts/pg18_host_data_chunk_copy.py:1361-1366 | All windows up to the first statement that raises; returns true exactly when none does |
| `ChunkCopy.ChunkLink.ResyncWindows` | scripts/pg18_host_data_chunk_copy.py:1383-1435 | The plan is exactly: the whole chunk, or after answered slice queries the mismatched slices, or a raise; the slices cover every source row that is missing |
| `ChunkCopy.ChunkLink.CountBoth` | scripts/pg18_host_data_chunk_copy.py:1343-1349 | A skip is decided exactly when, unless forced, both counts are known and equal; it is right exactly when the range held no stale row |
| `ChunkCopy.ChunkLink.CopyAndRecount` | scripts/pg18_host_data_chunk_copy.py:1359-1381 | Returns exactly when every statement and count went through and a verified count agrees; the copy lies between the source before and the source now |
| `ChunkCopy.ChunkLink.CopyOneChunk` | scripts/pg18_host_data_chunk_copy.py:1304-1381 | Reports the signature read first exactly when the chunk was found, and skips and returns exactly when it should; target rows stay part of the source at every outcome; a return with no later write leaves target equal to source; a verified copy equals the source at a moment of the call |
| `ChunkCopy.ChunkLink.Pass` | scripts/pg18_host_data_chunk_copy.py:1489-1507 | When a record is believed, replaced or dropped, and what it then holds: the next run recognises it if nothing was written. Beside insert-only writers a run keeps the record honest, also when it raises; killed, it leaves the record honest exactly unless that matched at the start, nothing was written since, and the range is not the source; a run that examines the chunk repairs a record that lies |
| `ChunkCopy.ChunkLink.UnrecordedPass` | scripts/pg18_host_data_chunk_copy.py:1489-1507 | A run without a state file leaves an earlier record honest exactly unless it matched at the start, nothing was written since, and the range is not the source; a run that returns leaves it honest |
| `ChunkCopy.ChunkLink.Passes` | scripts/pg18_host_data_chunk_copy.py:1513-1541 | After any number of runs, with or without a state file, a matching record means target equals source, unless one without it raised, or one was killed, while the record matched, and no run has examined the chunk since |
| `ChunkRun.FoldReflects` | scripts/pg18_host_data_chunk_copy.py:1489-1507 | The final state differs from the initial one on finished chunks only, with exactly the records they earned |
| `ChunkRun.CompletionOrderDoesNotMatter` | scripts/pg18_host_data_chunk_copy.py:1438-1510 | Any two completion orders end with the same state and summary |
| `ChunkRun.RepeatedChunkDependsOnOrder` | scripts/pg18_host_data_chunk_copy.py:1438-1510 | With a chunk finished twice the order would matter |
| `ChunkRun.EveryChunkIsCounted` | scripts/pg18_host_data_chunk_copy.py:1438-1510 | Each counter is the number of chunks with its outcome; together they count every chunk once; the rows are those of the chunks that did not fail |
| `ChunkRun.EverySaveReflectsThePrefix` | scripts/pg18_host_data_chunk_copy.py:1501-1507 | There is one save per completion, each reflecting exactly the chunks finished by then |
| `ChunkRun.RunChunkCopies` | scripts/pg18_host_data_chunk_copy.py:1438-1510 | The loop computes the fold, the saves, and counters that say how many chunks came to each outcome; fewer than one worker raises and changes nothing |
| `ChunkRun.SplitIsAPartition` | scripts/pg18_host_data_chunk_copy.py:1513-1541 | Every chunk lands on one side; a chunk is left out exactly when its record has its bounds and its current signature |
| `ChunkRun.SideIsInOrder` | scripts/pg18_host_data_chunk_copy.py:1513-1541 | Each side lists exactly the positions of its chunks, in their order |
| `ChunkRun.SplitUnchanged` | scripts/pg18_host_data_chunk_copy.py:1513-1541 | The loop computes the two sides in order |
| `ChunkFleet.OnlyTheOwnerMovesARange` | scripts/pg18_host_data_chunk_copy.py:1438-1484 | However workers on disjoint chunks interleave on one table, a chunk's range moves only by its own worker |
| `ChunkFleet.ReadyToExamine` | scripts/pg18_host_data_chunk_copy.py:1438-1484 | A chunk of an honest state meets what its examination demands whenever its worker gets to it |
| `ChunkFleet.ExaminationStands` | scripts/pg18_host_data_chunk_copy.py:1438-1484 | What an examination did still holds at the end of the run, after later inserts and the other workers |
| `ChunkFleet.RunStaysHonest` | scripts/pg18_host_data_chunk_copy.py:1438-1510 | After a run the state folded in any completion order is honest for every chunk of the table |
| `ChunkFleet.RunsStayHonest` | scripts/pg18_host_data_chunk_copy.py:1438-1510 | The same after any number of runs over any selections of chunks, for instance from a table never copied (`FreshFleetIsHonest`) |
| `ChunkFleet.UnexaminedChunksAreInSync` | scripts/pg18_host_data_chunk_copy.py:1513-1541 | Whatever a `--changed-only` run then leaves out of its examination equals its source |
| `IniParser.ParsedIsPrintable` | scripts/rewrite_hpcperfstats_ini.py:93-115 | Every value of a parsed file can be written back, and no section sets an option twice |
| `IniParser.ParseIniText` | scripts/rewrite_hpcperfstats_ini.py:93-115 | The reading loop computes the parse, raising as the strict parser does |
| `IniLaws.CommentsSayNothing` | scripts/rewrite_hpcperfstats_ini.py:93-115 | A line whose first character that is not blank is `#` or `;` changes nothing |
| `IniLaws.OtherLinesSaySomething` | scripts/rewrite_hpcperfstats_ini.py:93-115 | Every other line with something on it does |
| `IniLaws.BlankLines` | scripts/rewrite_hpcperfstats_ini.py:93-115 | A blank line belongs to the open value and to nothing else |
| `IniLaws.DeeperLinesContinue` | scripts/rewrite_hpcperfstats_ini.py:93-115 | A line indented deeper than the open option continues its value |
| `IniLaws.SectionHeaderIff` | scripts/rewrite_hpcperfstats_ini.py:93-115 | What a section header looks like |
| `IniLaws.OptionLineIff` | scripts/rewrite_hpcperfstats_ini.py:93-115 | What an option line looks like, and its name and value |
| `IniLaws.MarginLines` | scripts/rewrite_hpcperfstats_ini.py:93-115 | A header or option line opens what it names, or fails if that is there already or it is neither |
| `IniRewrite.CollectSiteValues` | scripts/rewrite_hpcperfstats_ini.py:240-270 | The loop computes the site values and the dropped options |
| `IniRewrite.SiteValuePicks` | scripts/rewrite_hpcperfstats_ini.py:240-270 | Exactly the registry options some section sets have a value: the registry section's, else the first |
| `IniLaws.DroppedIff` | scripts/rewrite_hpcperfstats_ini.py:240-270 | Dropped are exactly the options outside the registry, in the order of the file |
| `IniRewrite.RewriteFromExample` | scripts/rewrite_hpcperfstats_ini.py:292-356 | The line loop computes the rewritten text, the dropped and the missing options |
| `IniLaws.RewrittenIsBlocks` | scripts/rewrite_hpcperfstats_ini.py:292-356 | What each line of the example becomes: continuations of an active value go, what documents nothing is copied, the first documenting line is filled in, later ones stay if they are comments |
| `IniLaws.MissingIff` | scripts/rewrite_hpcperfstats_ini.py:292-356 | Reported missing are exactly the required options without a value whose first documenting line is active, in order |
| `IniLaws.EffectiveValueIff` | scripts/rewrite_hpcperfstats_ini.py:359-385 | The effective value is that of the winning entry, unless its stripped text is the default or the two are equal as numbers; then, or without an entry, the default |
| `IniLaws.RewrittenSays` | scripts/rewrite_hpcperfstats_ini.py:292-356 | The rewritten file sets a documented option in exactly one place to exactly the winning value, unless that says what the default says; then nowhere |
| `IniReading.PrintedOptionReadsBack` | scripts/rewrite_hpcperfstats_ini.py:273-289 | A printed option, with all its lines, reads back as one entry with the same value |
| `IniLaws.PrintedAs` | scripts/rewrite_hpcperfstats_ini.py:273-289 | A value is printed behind ` = ` without trailing blanks, its further lines indented by two |
| `IniReading.ActiveLineForm` | scripts/rewrite_hpcperfstats_ini.py:71-73 | What an active option line looks like |
| `IniLaws.ActiveOptionIff` | scripts/rewrite_hpcperfstats_ini.py:71-72 | Exactly which lines set an option |
| `IniLaws.CommentedOptionIff` | scripts/rewrite_hpcperfstats_ini.py:71-72 | Exactly which lines show one as a comment |
| `IniLaws.DocumentedIff` | scripts/rewrite_hpcperfstats_ini.py:325-332 | A line documents a registry option that it sets or shows |
| `IniLaws.IndentedIff` | scripts/rewrite_hpcperfstats_ini.py:325-327 | A continuation line starts with a space or a tab and has something on it |
| `IniMeaning.ReadPlacement` | scripts/rewrite_hpcperfstats_ini.py:292-356 | What replaces a documented option reads back as nothing or as one entry with the right value |
| `IniMeaning.OutputMeans` | scripts/rewrite_hpcperfstats_ini.py:292-356 | Reading the output fails nowhere and finds every option set in at most one place, to what its line placed |
| `IniTheorems.ChangedExactly` | scripts/rewrite_hpcperfstats_ini.py:440-468 | For a tidy example the changed options are exactly those with a value of their own that the example does not document |
| `IniTheorems.RewritePreservesMeaning` | scripts/rewrite_hpcperfstats_ini.py:359-385 | A site file whose own settings are documented keeps every effective value not reported missing |
| `IniTheorems.RewriteIsIdempotent` | scripts/rewrite_hpcperfstats_ini.py:292-356 | Rewriting the rewritten file onto the same example yields the same text |
| `IniTheorems.DocumentedAboveTheFirstHeader` | scripts/rewrite_hpcperfstats_ini.py:292-356 | An option documented above the first header makes the output unreadable |
| `IniTheorems.StrayLineJoinsTheValue` | scripts/rewrite_hpcperfstats_ini.py:292-356 | An indented line below a commented default becomes part of the site's value |
| `IniTheorems.StrayLineNeverSettles` | scripts/rewrite_hpcperfstats_ini.py:292-356 | And every further rewrite adds one more copy of that line |
| `IniConverse.TidyIff` | scripts/rewrite_hpcperfstats_ini.py:292-356 | An example is tidy exactly when every site's output can be read and sets each registry option where it was placed, to that value, and nowhere else |
| `IniConverse.UntidyBreaks` | scripts/rewrite_hpcperfstats_ini.py:292-356 | Every untidy example has a site whose output fails to read, spoils an own documented value, or sets an option behind the rewriter's back |
| `IniConverse.UntidyLosesAValue` | scripts/rewrite_hpcperfstats_ini.py:440-468 | Without side doors some site's effective values change otherwise than they should |
| `IniConverse.EffectiveValuesIff` | scripts/rewrite_hpcperfstats_ini.py:440-468 | Without side doors an example is tidy exactly when for every site only values without a place in the example change |
| `IniInstance.HypothesesAreMet` | scripts/rewrite_hpcperfstats_ini.py:292-356 | The hypotheses of the ini theorems hold together of a small registry, site and example |
| `IniInstance.ConverseHypothesesAreMet` | scripts/rewrite_hpcperfstats_ini.py:292-356 | So can the hypotheses of the converse |
| `IniInstance.SideDoorCanBeHarmless` | scripts/rewrite_hpcperfstats_ini.py:292-356 | An untidy example with a side door that changes no effective value for any site |
| `RouteAllowlist.FirstConverter` | services-conf/write_nginx_api_route_allowlist_include.py:51-52 | The leftmost converter, if there is one |
| `RouteAllowlist.ConverterAtIff` | services-conf/write_nginx_api_route_allowlist_include.py:21 | What a converter is: `<`, at least one character that is not `>`, and `>` |
| `RouteAllowlist.OwnPrefixMatchesIff` | services-conf/write_nginx_api_route_allowlist_include.py:35-58 | When a template's prefix matches a URL of that template |
| `RouteAllowlist.AllowedIff` | services-conf/write_nginx_api_route_allowlist_include.py:35-94 | A URI is let through exactly when the literal text of some `api/` template lies below it; every other one is rejected |
| `RouteAllowlist.LexLeIff` | services-conf/write_nginx_api_route_allowlist_include.py:94 | The order of the result in so many words |
| `RouteAllowlist.MinimalPrefixesMatchTheSame` | services-conf/write_nginx_api_route_allowlist_include.py:61-94 | Keeping the minimal prefixes changes the answer for no URI, and none of them can be spared |
| `RouteAllowlist.KeepUncovered` | services-conf/write_nginx_api_route_allowlist_include.py:61-94 | Shortest first, dropping what a kept prefix covers, leaves exactly the minimal prefixes |
| `RouteAllowlist.LocationPrefixesFromApiTemplates` | services-conf/write_nginx_api_route_allowlist_include.py:61-94 | The loops return exactly the minimal generated prefixes in code point order, none below another, which match exactly the URIs above the literal text of an `api/` template |
| `RouteAllowlist.OnlyTheApiTemplatesMatter` | services-conf/write_nginx_api_route_allowlist_include.py:61-94 | Order, duplicates and other templates do not matter |
| `RouteAllowlist.SegmentTemplatesAreCovered` | services-conf/write_nginx_api_route_allowlist_include.py:35-94 | Every URL of a template whose converters start a segment is matched |
| `RouteAllowlist.MidSegmentConverterIsRejected` | services-conf/write_nginx_api_route_allowlist_include.py:35-58 | A converter inside a segment is not matched by its own prefix |

## Left out

- AckSafety.NoMessageLost: the archive is one set of messages here; that a message lies in its own host's files is stated by `DurableAcks.Daemon.Run`.
- DurableAcks.Daemon.Run: an append is one step of the joint run; a lock makes it one for its host, and other hosts' files are not touched.
- Deliveries without a consume session, which fall back to a module-wide connection and generation, are not modelled.
- Sockets, pika internals, the RabbitMQ management interface, Valkey writes, process titles, signals and logging.
- The live database ingest pool, its pause and resume, reconnect backoff growth and the two host parsers, whose code is elsewhere.
- Other programs that read or delete epoch files, lock timeouts and stale lock files; a lock is mutual exclusion per host.
- Crashes of the machine: what has been written stays written.
- ArchiveWriter.Archive.EnsureCurrentHardlinkedToTimestamp: the first sample second found in the file is a parameter.
- ReorderWorker.HeapPushSorted: a heap is kept as its sorted sequence; the layout of the binary heap is not modelled, only that `heappop` takes the least key.
- ReorderWorker.Worker.DrainAll: at a timeout the hosts are drained in any order, so what one host flushes relative to another is not described.
- ChunkFleet.RunStaysHonest: runs with a state file beside insert-only writers; a chunk not finished is one not touched, so a run killed halfway is the subject of `ChunkCopy.ChunkLink.Passes` alone.
- SQL text, psycopg, dump files, compression, and counter resets; the counters reflect every committed change.
- Rows of the source need not have distinct keys in the model, so a COPY never fails on one.
- IniParser.ParseIniText: the name of the unused default section is not treated specially, lower-casing is that of ASCII letters, white space is that of ASCII, and lines end at `\n` only.
- IniTheorems.RewriteIsIdempotent: for tidy examples only; which untidy ones settle is not described, beyond those of `StrayLineNeverSettles`.
- IniConverse.EffectiveValuesIff: for examples without side doors; with one, whether an effective value changes depends on the value it sets, as `SideDoorCanBeHarmless` shows.
- Renamed options, permissions, backups and the command line of the rewriter; `ChangedExactly` holds for any site whose values can be printed, migrated ones included.
- GreedyWindows.NonoverlappingListendWindowTotals: window lengths and instants are whole units of time.
- Regular expressions over log lines, medians, rates, ETA texts and the decision ladder of the rate analyzer.
- Rendering of the nginx include and the other daemons, watchers and scripts, which would add only easier members.
