# Verified model of the Meridian Redis bridge

The bridge keeps Redis deployments in several regions in step. A primary logs every write in a
segmented write-ahead log before executing it, streams the log to followers, and each follower
replays it and persists a watermark once per batch. Relays log what they receive and serve it on.
This project models that path from end to end and proves what holds of it, over all inputs, all
runs and all interleavings. Where the code does not do what its comments promise, the exact
condition under which it does is proved instead, next to an input that shows the gap.

`dafny verify dfyconfig.toml` checks everything.

## How it is organised

| files | what they hold |
|---|---|
| `Bytes`, `Varint`, `Decimal` | bytes, 64-bit arithmetic, `encoding/binary` varints, `strconv` integers |
| `RecordIO`, `RecordStream` | the record codec as a parser of whole streams; the growing buffered reader over arbitrary chunks, proved to compute it |
| `WalModel`, `WalReading`, `WalSizes`, `WalRecovery`, `WalTearing`, `Wal` | the segmented log as values and the flat history it stands for; reads; when segments are rolled; crashes and reopening; appends behind a torn record; the `WAL` object |
| `Protobuf` | one concrete encoding of entries |
| `Streaming`, `Progress` | `Subscribe` against concurrent appends and rolls, one step at a time; that it gets there |
| `Store`, `Normalize`, `Spelling`, `NormalizeTheorems`, `TimeIndependence` | the Redis commands that carry deadlines; the rewriting of relative deadlines, and by the letters of each command; when it keeps a command's meaning |
| `Dispatch`, `Follower`, `Server` | writes on the primary, replay of a batch, the watermark, acks |
| `Replaying`, `Redelivery`, `Replication`, `Draining`, `Stalling`, `Relay`, `RelayProgress` | replaying, once and twice; the primary, stream and follower as one state machine; that the follower gets there; followers that stop for good; relay chains of any depth, and that they catch up |
| `Cluster`, `RedisStalling`, `RedeliveryExact` | the same for Redis: which writes converge, which commands stop a follower, which may be redelivered |
| `Simulation`, `Bridge`, `EndToEnd`, `Quiescence` | what the methods do as paths of that machine; the machines joined; what holds from the bytes of the log to the follower's store; that the whole comes to rest |
| `Resp`, `RespExact`, `Reply` | commands on the wire, and exactly what is read as one; replies on the wire and a RESP2 reader for them |

The main theorems, hardest first:

* `EndToEnd.QuiescentConverged` and `EndToEnd.Converges` speak of the whole path: writes appended byte by byte to
  segments that roll, a subscriber that reads those files meanwhile, the stream and the follower. They rest on a
  refinement (`Bridge.StepRefines`) of the replication machine.
* `Quiescence.ConvergenceIsReachable` says that this state is always within reach: what the machines may not do
  wrong they also can do. `Progress.SubscriberCatchesUp`, `Draining.Drain` and
  `RelayProgress.EveryRelayCanCatchUp` say it of the parts.
* `Replication.Convergence`, `Replication.RestartedReplay`, `Replication.WatermarkSafety` and
  `Replication.AckBound` speak of every run of that machine, whatever is written, with sends, deliveries,
  replay, drops, failures, follower crashes and reordered acks. It takes any backend. `Cluster` instantiates
  it with Redis, and `Cluster.WritesExact` says by its arguments which writes the log stands for.
* `Stalling.StallExact` and `RedisStalling.RedisStallExact` say exactly which entries no follower ever gets past.
* `RedeliveryExact.IdempotentExact` and `RedeliveryExact.CompanyExact` say exactly which commands may be executed
  twice, by themselves and in any company.
* `Streaming.StreamIsContiguous` and `Streaming.NoLostWakeUp` speak of every interleaving of a subscriber with
  appends, rolls and a half-written last record.
* `Relay.RelaysRepeatThePrimary` speaks of relays in any topology that changes at every reconnect.
* `WalRecovery.CrashThenReopen` joins durability, recovery, reading and later appends;
  `WalRecovery.SurvivesExact` and the lemmas of `WalTearing` say exactly what is lost.
* `NormalizeTheorems.NormalizationExact` and `TimeIndependence.TimeIndependenceExact` are if-and-only-if
  statements over every argument list.

The checksum is an arbitrary function to four bytes. The entry encoding is arbitrary too, as long
as it inverts on the entries at hand; `Protobuf.MessagesAreStorable` shows that the protobuf encoding does.
Statements about clocks take a lower bound `t0`, which may be any time before the run: what Redis accepts
at some clock of 1970 alone does not count.

## Where the code and its comments differ

* A reopened log takes its next seq from the newest file alone (internal/wal/wal.go:145-163). If that file
  holds no whole record and does not start at seq 1, numbering restarts at 1: `WalRecovery.RecoveryExact`,
  `WalRecovery.RestartAfterRoll`.
* A torn tail is not cut off before appending resumes (internal/wal/wal.go:147). For every cut, and also
  where numbering has restarted, the next append is swallowed by the torn record, makes the log impossible
  to open, or is read as part of a mixture, and lengths and checksum decide which:
  `RecordIO.BehindTornExact`, `WalTearing.TornTailSwallowsAppend`, `WalTearing.TornTailBlocksReopen`,
  `WalTearing.TornTailMixes`.
* "Every op is idempotent" (internal/sync/watermark.go:25-28, internal/sync/follower.go:160-163) is true of
  every modelled command by itself but APPEND of something: `RedeliveryExact.IdempotentExact`. It is not what
  redelivery needs, which repeats sequences: a SET NX behind a PEXPIREAT is harmful although each is idempotent
  (`Redelivery.SetNxNotHarmless`). Sequences of absolute commands are harmless (`Cluster.HarmlessRedelivery`), and
  no other command can join them: `RedeliveryExact.CompanyExact`. `RedeliveryExact.AppendHarm` is a run in which
  harm is done.
* A null or error reply counts as a failed replay (internal/sync/follower.go:170-172), and the entry is
  delivered again for ever unless some later try succeeds. On Redis that is so exactly for commands that are
  malformed, have an amount that Redis no longer takes, or are a SET whose condition is not met:
  `Stalling.StallExact`, `RedisStalling.RedisStallExact`. Clients can bring it about, with a SET XX on a missing
  key (`RedisStalling.MissedXx`) or with a PX amount so large that its deadline wraps (`RedisStalling.LongPx`).
* Normalisation (internal/proxy/dispatch.go:341-344) changes the meaning of SET NX with a deadline (a
  PEXPIREAT is logged although nothing was set), of amounts Redis rejects and of deadlines that overflow;
  `SET k` makes it index out of range. `NormalizeTheorems.NormalizationExact` has the exact condition.
* The forwarded path does not normalise (internal/proxy/dispatch.go:298-317), so its log stands for exactly
  the commands that read no clock from then on: `Cluster.WritesExact`, `TimeIndependence.ClockFreeExact`,
  `Cluster.ForwardedExpire`.
* A relay renumbers what it logs (internal/proxy/dispatch.go:484, internal/wal/wal.go:202) and the replay loop reads
  the new number (internal/sync/follower.go:173). Out of lockstep, ahead of its watermark or behind it, its
  log remains a prefix exactly if the batch repeats the entries that should come there:
  `Relay.LockstepExact`.
* Append's comment says the entry is written durably. An entry survives every crash if and only if its
  record has been synced, and outside sync mode one that was appended may be lost:
  `WalRecovery.SurvivesExact`, `WalRecovery.AppendMayBeLost`.

## Model

| member | source | states |
|---|---|---|
| `Varint.PutGet` | internal/wal/recordio.go:30-34 | every uint64 length is decoded from its encoding, whatever bytes follow |
| `Varint.PrefixIncomplete` | internal/wal/recordio.go:131-136 | every strict prefix of an encoded length reads as incomplete, never as a value or an overflow |
| `Varint.DecidedIsStable` | internal/wal/recordio.go:114-138 | once the decoder has decided, more buffered bytes never change the decision |
| `Varint.GetBounded` | internal/wal/recordio.go:115-118 | a decoded length is always a uint64 |
| `Varint.Glued` | internal/wal/recordio.go:114-138 | a length cut short and followed by another one is read as one value put together from both, or overflows, exactly as stated |
| `Decimal.PrintParse` | internal/proxy/dispatch.go:392-392 | printing and parsing an int64 round-trips |
| `Decimal.ParseIntInRange` | internal/proxy/dispatch.go:374-374 | the value used when the parse error is dropped is always an int64 |
| `Decimal.ParsePrinted` | internal/proxy/dispatch.go:374-374 | every whole number in decimal is read exactly if it fits an int64, and otherwise the nearest int64 stands beside the error |
| `Decimal.ParsePlus` | internal/proxy/dispatch.go:403-403 | the same behind a plus sign |
| `Decimal.ParseMinus` | internal/proxy/dispatch.go:426-426 | the same behind a minus sign |
| `Decimal.ParseNothing` | internal/proxy/dispatch.go:426-429 | nothing at all, or a byte that is no digit at the front, is a syntax error |
| `Decimal.ParseJunk` | internal/proxy/dispatch.go:426-429 | so is anything but digits behind the first ones |
| `RecordIO.FrameParses` | internal/wal/recordio.go:29-42 | a written record is read back with its exact width, whatever follows |
| `RecordIO.FrameEndsInChecksum` | internal/wal/recordio.go:38-41 | the last four bytes written are the four bytes of the body's checksum in order |
| `RecordIO.ChangedBodyExact` | internal/wal/recordio.go:124-129 | a record whose body was changed reads as a mismatch if and only if the checksums differ |
| `RecordIO.ChangedBodyStopsScan` | internal/wal/recordio.go:49-67 | wherever it stands, what is before it is delivered and the scan ends in the checksum error |
| `RecordIO.HugeLengthPanics` | internal/wal/recordio.go:117-122 | a length that is not a Go int makes the reader panic as soon as three bytes follow |
| `RecordIO.PrefixTorn` | internal/wal/recordio.go:110-138 | every nonempty strict prefix of a record reads as torn, not as an error |
| `RecordIO.FramesThen` | internal/wal/recordio.go:49-67 | a scan delivers written records in order and then continues with whatever lies behind them |
| `RecordIO.WholeIsMaximal` | internal/wal/recordio.go:44-48 | the reference count of records wholly before a cut is the largest such count |
| `RecordIO.TornTail` | internal/wal/recordio.go:49-67 | for any bodies and any cut, the scan ends without error after exactly the bodies whose records lie wholly before the cut |
| `RecordIO.BehindTornExact` | internal/wal/recordio.go:110-139 | for every cut of a record, inside its length too, a record behind it and whatever follows are invisible if and only if cut and lengths leave the torn one short; otherwise a mixture is delivered if and only if its checksum happens to fit, and the scan fails if not |
| `RecordStream.AppendRecord` | internal/wal/recordio.go:29-42 | three writes add exactly one record |
| `RecordStream.Reader.Compact` | internal/wal/recordio.go:82-86 | moving the window to the front keeps the window |
| `RecordStream.Reader.Grow` | internal/wal/recordio.go:87-91 | doubling the buffer keeps the window and leaves room |
| `RecordStream.Reader.ReadMore` | internal/wal/recordio.go:81-106 | one pass of the fill loop keeps window plus unread source, for any chunk the source delivers |
| `RecordStream.Reader.Ensure` | internal/wal/recordio.go:80-108 | buffers n bytes exactly if the stream still has them; distinguishes end of file from a truncated record; the stream is unchanged |
| `RecordStream.Reader.ReadLength` | internal/wal/recordio.go:114-137 | decodes the length at the head of the stream, however it is split over reads, and steps over it |
| `RecordStream.Reader.ReadRecord` | internal/wal/recordio.go:110-139 | returns what the pure parser finds in the whole remaining stream and leaves the rest |
| `RecordStream.Scan` | internal/wal/recordio.go:49-67 | for every stream, every chunking and every callback, the same callback state and outcome as a fold over the pure parser's records |
| `WalModel.RollKeeps` | internal/wal/wal.go:169-190 | a roll keeps the history, seals the old segment with the right endSeq and leaves everything synced |
| `WalModel.SyncKeeps` | internal/wal/wal.go:225-242 | an fsync keeps the history and leaves everything synced |
| `WalModel.WriteKeeps` | internal/wal/wal.go:202-210 | one more record in the active file is one more entry, numbered next, in the history |
| `WalModel.AppendKeeps` | internal/wal/wal.go:194-223 | Append extends the flat history by exactly the numbered entry, with or without a roll; in sync mode all is on disk afterwards |
| `WalSizes.RollsExact` | internal/wal/wal.go:208-215 | an append rolls if and only if its record brings the active file to the limit |
| `WalSizes.SizesExact` | internal/wal/wal.go:194-223 | in every reachable log a sealed file has reached the limit with its last record and not before, and the active file has not; with a limit that is not positive every append seals its file |
| `WalReading.FileReads` | internal/wal/wal.go:264-275 | reading a file that ends in a torn record extends the answer by the query over its entries |
| `WalReading.UndecodableHidesRest` | internal/wal/wal.go:338-346 | a whole record that does not decode hides the rest of its file from reads, without an error |
| `WalReading.SegmentReads` | internal/wal/wal.go:260-276 | reading or skipping a segment carries the query from the history before it to the history after it |
| `WalReading.ReadAgreesWithHistory` | internal/wal/wal.go:254-279 | ReadFrom over segments equals the first m entries with seq at least f of the flat history |
| `WalReading.QueryIsSlice` | internal/wal/wal.go:251-254 | on a history this is the contiguous slice from f on |
| `WalReading.RunKeeps` | internal/wal/wal.go:169-242 | every sequence of appends and flusher ticks keeps log and flat history in agreement |
| `WalReading.ReachableReads` | internal/wal/wal.go:169-279 | in every log reachable from an empty directory, with any segment size and flush mode, reads agree with the flat append history |
| `WalRecovery.CutLayout` | internal/wal/wal.go:335-346 | cutting the newest file anywhere leaves the layout of a prefix of the history |
| `WalRecovery.CrashLosesOnlyASuffix` | internal/wal/wal.go:169-223 | in every flush mode a crash loses only a suffix: nothing sealed, nothing synced |
| `WalRecovery.CrashMayLoseTheRest` | internal/wal/wal.go:211-220 | the bound is tight: for every valid log there is a crash that leaves exactly the synced entries |
| `WalRecovery.SurvivesExact` | internal/wal/wal.go:192-223 | an entry can be read after every crash and reopen if and only if its record was synced |
| `WalRecovery.AppendMayBeLost` | internal/wal/wal.go:216-220 | outside sync mode a first append that does not roll is lost by some crash after it returned |
| `WalRecovery.CrashInTheMiddle` | internal/wal/wal.go:202-210 | so does a crash in the middle of writing a record; synced earlier entries survive |
| `WalRecovery.SyncModeSurvives` | internal/wal/wal.go:211-220 | in sync mode every entry whose Append returned survives any crash, also when it rolled |
| `WalRecovery.TickSecures` | internal/wal/wal.go:225-242 | a tick of the flusher secures every append before it, in every mode |
| `WalRecovery.LoadIndexes` | internal/wal/wal.go:119-143 | loading rebuilds endSeq of every sealed segment correctly and never fails on a cut log |
| `WalRecovery.ReopenedReads` | internal/wal/wal.go:101-165 | a reopened log reads as the history in its files |
| `WalRecovery.RecoveryExact` | internal/wal/wal.go:145-163 | the recovered nextSeq is right if and only if there is no file, the newest has a whole record, or it starts at seq 1; otherwise it is 1 |
| `WalRecovery.UndecodableBlocksOpen` | internal/wal/wal.go:134-140 | a whole record that does not decode, in any file, makes the log impossible to open |
| `WalRecovery.ChangedBodyBlocksOpen` | internal/wal/wal.go:153-156 | so does a record whose body was changed, if the checksum tells |
| `WalRecovery.CrashThenReopen` | internal/wal/wal.go:101-165 | after crash and reopen the log reads as a prefix holding all that was synced; all later appends are numbered on from it if and only if the next seq is known, and if the cut is also between records the log reads as the prefix extended by them |
| `WalTearing.CrashEndsTorn` | internal/wal/wal.go:145-165 | after any crash inside a record, whether or not numbering restarts, the reopened log ends in part of the record of the first entry lost |
| `WalTearing.TornTailSwallowsAppend` | internal/wal/wal.go:145-152 | if cut and lengths leave the torn record short, Append takes a seq, rolls or not, but reads then do not return the entry |
| `WalTearing.TornTailSwallowsRun` | internal/wal/wal.go:194-223 | nor do they after any further appends and ticks without a roll that leave it short |
| `WalTearing.TornTailBlocksReopen` | internal/wal/wal.go:153-156 | otherwise, unless the checksum happens to fit, the log cannot be opened again |
| `WalTearing.TornTailMixes` | internal/wal/wal.go:335-346 | and if it fits, the file delivers a body made of both records |
| `WalRecovery.RestartAfterRoll` | internal/wal/wal.go:145-163 | an append that fills its segment, then a reopen: seq 1 is next again |
| `Wal.WAL.ScanLastSeq` | internal/wal/wal.go:349-359 | the seq of the last intact record and how the scan ended |
| `Wal.WAL.ListDirectory` | internal/wal/wal.go:101-117 | the files in increasing id order, each once |
| `Wal.IncreasingUnique` | internal/wal/wal.go:117-117 | that order is the only one |
| `Wal.WAL.LoadFiles` | internal/wal/wal.go:119-143 | succeeds exactly if every sealed file scans; endSeq is the last seq found |
| `Wal.WAL.RecoverNextSeq` | internal/wal/wal.go:145-163 | nextSeq from the newest file alone |
| `Wal.WAL.LoadSegments` | internal/wal/wal.go:101-165 | computes the recovery function on the sorted directory, error cases included |
| `Wal.WAL.RollLocked` | internal/wal/wal.go:169-190 | the new state is the roll of the old |
| `Wal.WAL.WriteRecord` | internal/wal/wal.go:202-210 | the new state is the old with one record written by the codec |
| `Wal.WAL.Append` | internal/wal/wal.go:194-223 | the new state is the append of the old, the seq returned is the old nextSeq whatever the entry carried, and every channel is signalled |
| `Wal.WAL.ReadFrom` | internal/wal/wal.go:254-279 | on every valid log the answer is the first maxBatch entries from fromSeq of its history |
| `Wal.WAL.Notify` | internal/wal/wal.go:283-289 | registers one empty channel and leaves the others |
| `Wal.WAL.NotifyAllLocked` | internal/wal/wal.go:291-298 | every channel ends up signalled; none blocks |
| `Wal.WAL.MinSeq` | internal/wal/wal.go:362-367 | 0 without segments; 1 on every valid log |
| `Protobuf.MarshalRoundTrip` | proto/meridian.proto:7-11 | every entry is decoded from its encoding, negative timestamps included |
| `Protobuf.MarshalledBytes` | proto/meridian.proto:7-11 | the bytes of one entry, written out |
| `Protobuf.FieldNumbers` | proto/meridian.proto:7-11 | the fields are numbers 1, 3 and 4 |
| `Protobuf.MessagesAreStorable` | internal/wal/wal.go:327-346 | so all entries the codec can carry meet the assumption made on the encoding |
| `Streaming.VisitCovers` | internal/wal/wal.go:260-277 | scanning a segment while it is appended to, sealed or half-written, or skipping it by the index, gives exactly the answer over the entries it covers |
| `Streaming.StepKeeps` | internal/sync/server.go:83-115 | every step of appender and subscriber keeps the invariant |
| `Streaming.StreamIsContiguous` | internal/sync/server.go:95-109 | in every interleaving the concatenated batches are the entries f, f + 1, ... each once, in order |
| `Streaming.SentBatchContinues` | internal/sync/server.go:104-108 | each batch starts at the stream's next seq, and the next one right behind its last |
| `Streaming.NoLostWakeUp` | internal/sync/server.go:110-115 | a subscriber waiting on an empty channel has sent every entry whose append has completed |
| `Progress.SubscriberCatchesUp` | internal/sync/server.go:95-115 | from every state of a run with no append in progress, steps of the subscriber alone lead to one in which it waits and has sent exactly the entries from f on |
| `Progress.AppendCanEnd` | internal/wal/wal.go:205-222 | an append in progress can always be completed, and signals the subscriber |
| `Progress.EveryCutIsReachable` | internal/wal/wal.go:327-333 | while an append is in progress any part of its record may be in the file |
| `Progress.AppendCompletes` | internal/wal/wal.go:194-223 | an append can always be made when none is in progress |
| `Normalize.NormalizeSet` | internal/proxy/dispatch.go:365-395 | the option loop computes the scan, with dropped parse errors and wrap-around |
| `Normalize.NormalizeExpireCommand` | internal/proxy/dispatch.go:421-450 | the copying loop keeps every option |
| `Normalize.Normalized` | internal/proxy/dispatch.go:345-363 | the whole rewriting, by command name |
| `Spelling.NamesExact` | internal/proxy/dispatch.go:349-361 | which words, in any letter case, are which commands, in both directions |
| `Spelling.OptionsExact` | internal/proxy/dispatch.go:370-388 | the same for the options |
| `Spelling.SpelledSet` | internal/proxy/dispatch.go:365-395 | SET with EX, PX, EXAT or PXAT n becomes SET and PEXPIREAT at now + n * 1000, now + n, n * 1000 or n |
| `Spelling.SpelledSetWithFlag` | internal/proxy/dispatch.go:387-392 | NX, XX, KEEPTTL and GET are kept, any other word is dropped |
| `Spelling.SpelledSetEx` | internal/proxy/dispatch.go:397-419 | SETEX and PSETEX become SET and PEXPIREAT at now + n * 1000 or now + n |
| `Spelling.SpelledExpire` | internal/proxy/dispatch.go:421-450 | EXPIRE, PEXPIRE, EXPIREAT and PEXPIREAT become PEXPIREAT at now + n * 1000, now + n, n * 1000 or n, with their options |
| `Spelling.SpelledOtherwise` | internal/proxy/dispatch.go:359-362 | every other command is logged as it is |
| `NormalizeTheorems.SetExact` | internal/proxy/dispatch.go:365-395 | SET keeps its meaning on every store if and only if it is left alone, or Redis accepts it with a deadline and without NX |
| `NormalizeTheorems.SetExExact` | internal/proxy/dispatch.go:397-419 | the same for SETEX and PSETEX: exactly if the amount is unreadable or Redis accepts command and deadline |
| `NormalizeTheorems.ExpireExact` | internal/proxy/dispatch.go:421-450 | the same for the EXPIRE family with its options: exactly unless a readable amount is not canonical or overflows |
| `NormalizeTheorems.NormalizationExact` | internal/proxy/dispatch.go:345-450 | for every argument list and clock, the logged entries do to every store what the command does if and only if the command is safe |
| `NormalizeTheorems.KeptFlagsMatch` | internal/proxy/dispatch.go:387-388 | on options Redis accepts, exactly the ones without an amount are kept |
| `TimeIndependence.TimeIndependenceExact` | internal/proxy/dispatch.go:341-450 | every logged entry is a fixed point at every other clock if and only if it is not a SET left alone although EX or PX decides its deadline |
| `TimeIndependence.FinalIsClockFree` | internal/proxy/dispatch.go:326-328 | a command normalisation never changes runs the same at every clock |
| `TimeIndependence.LoggedClockFree` | internal/proxy/dispatch.go:326-328 | so the log of settled commands is time-independent |
| `TimeIndependence.ClockFreeExact` | internal/proxy/dispatch.go:296-317 | a command runs the same at every clock from t0 on, on every store, if and only if it has no relative deadline that Redis acts on at t0; and at every clock whatever if and only if this is so for t0 = 0 |
| `Dispatch.Dispatcher.ClientWrite` | internal/proxy/dispatch.go:325-339 | all normalised commands are appended in order, then the original command is executed |
| `Dispatch.Dispatcher.ForwardedWrite` | internal/proxy/dispatch.go:298-317 | the raw command is appended, then executed |
| `Dispatch.WriteExtendsLog` | internal/proxy/dispatch.go:329-338 | whatever rolls a write causes, the log on disk stands for the old history followed by the logged commands, and reads accordingly |
| `Replaying.ReplayConcat` | internal/sync/follower.go:164-174 | replay composes |
| `Redelivery.StartingOverIsHarmless` | internal/sync/watermark.go:24-28 | per key: on the way to a result, starting over with absolute effects still leads to it |
| `Redelivery.ReplayActs` | internal/sync/follower.go:164-174 | replaying absolute commands acts on each key as their composed effect |
| `Redelivery.RedeliveryHarmless` | internal/sync/watermark.go:24-28 | for absolute commands, re-executing earlier ones before going on does not change the outcome, on every store |
| `Redelivery.AbsoluteIsRestartable` | internal/sync/watermark.go:24-28 | so a log of absolute commands may be restarted anywhere, any number of times |
| `Redelivery.AbsoluteIsClockFree` | internal/sync/watermark.go:24-28 | absolute commands run the same at every clock |
| `Redelivery.AppendNotHarmless` | internal/sync/follower.go:160-163 | an APPEND delivered twice shows |
| `Redelivery.SetNxNotHarmless` | internal/sync/follower.go:160-163 | a PEXPIREAT and a SET NX, each idempotent, delivered twice show |
| `Follower.EntriesReplay` | internal/sync/follower.go:164-174 | entries below the wanted seq are skipped without effect, the others executed once each, in order |
| `Follower.BatchReplays` | internal/sync/follower.go:164-179 | a batch that overlaps what was applied ends with the watermark at its last seq, or where it was |
| `Follower.NoBackendSucceeds` | internal/proxy/dispatch.go:488-490 | a node without a backend applies every batch, and its watermark moves to the batch's end |
| `Follower.SuccessExact` | internal/sync/follower.go:164-174 | with a backend, entries are applied without failure if and only if every executed command answers Done |
| `Follower.Watermark.Set` | internal/sync/watermark.go:81-112 | never moves backwards; if the file cannot be replaced nothing changes; file and field agree |
| `Follower.Watermark.NextSeq` | internal/sync/watermark.go:66-77 | the seq asked for is one past what a restart finds in the durable file |
| `Follower.Node.Apply` | internal/proxy/dispatch.go:482-492 | relay append with renumbering, then execution; null and error replies fail |
| `Follower.Node.ApplyWholeBatch` | internal/sync/follower.go:164-179 | the loop computes the batch function; on failure the watermark stays |
| `Replication.RunInv` | internal/sync/follower.go:60-179 | the invariant of log, stream, follower, trace and acks holds in every reachable state, whatever is written |
| `Replication.FollowerReplaysLog` | internal/sync/follower.go:164-179 | without crashes and failures, if the entries applied run the same at every clock, the follower's store is the log replayed up to its watermark |
| `Replication.Convergence` | internal/proxy/dispatch.go:325-339 | if moreover each write's log stands for it, the store is the primary's once the follower has caught up |
| `Replication.RestartedReplay` | internal/sync/follower.go:160-179 | with any crashes and failures, if the entries ever executed can be redelivered, the store is a single replay whenever the current replay has reached the highest seq ever executed |
| `Replication.WatermarkSafety` | internal/sync/follower.go:164-179 | in every run all entries up to the watermark were applied successfully, without gaps, first applications in seq order |
| `Replication.AckBound` | internal/sync/follower.go:142-158 | in every run, under any delay, reordering and repetition, the recorded position is the largest ack received, at most the watermark, and every ack is below nextSeq |
| `Draining.Drain` | internal/sync/follower.go:128-139 | what has been sent can be received, applied and persisted, if the commands answer |
| `Draining.AckArrives` | internal/sync/follower.go:142-158 | at any time an ack can bring the server's record to the watermark |
| `Draining.LostStreamResumes` | internal/sync/follower.go:96-115 | at any time the stream can be lost with all on it, and is asked for again from the watermark |
| `Draining.FailuresStartOver` | internal/sync/follower.go:128-139 | the replay can fail at any entry, before or after it was executed, and the follower can crash; it starts over from the watermark |
| `Draining.AcksInAnyOrder` | internal/sync/server.go:59-69 | any ack that was sent may arrive next, and again |
| `Stalling.StallExact` | internal/sync/follower.go:164-174 | in every run and over any backend, from t0 on an idle follower can get past its next entry if and only if some number of executions of it from then on, from the store it has, ends in success |
| `Stalling.RefusedEntryStalls` | internal/sync/follower.go:164-174 | before an entry its store refuses from t0 on, watermark and store stay as they are in every continuation |
| `Cluster.WritesExact` | internal/proxy/dispatch.go:298-339 | when no clock is before t0, the log of a write stands for it if and only if the arguments meet a stated condition, for client and forwarded writes alike |
| `Cluster.ForwardedExpire` | internal/proxy/dispatch.go:298-317 | a forwarded EXPIRE is logged raw, and a follower that replays it later gets another deadline |
| `Cluster.RedisConvergence` | internal/proxy/dispatch.go:325-339 | convergence on Redis for every run without crashes and failures whose writes meet that condition |
| `Cluster.HarmlessRedelivery` | internal/sync/watermark.go:24-28 | on Redis, if the entries ever executed are absolute commands, any crashes and failures are harmless once the replay has caught up with itself |
| `RedisStalling.RefusalExact` | internal/sync/follower.go:170-172 | which commands a store refuses at every clock from t0 on: if and only if malformed, with an amount not taken at t0, or a SET whose condition is not met |
| `RedisStalling.PassableExact` | internal/sync/follower.go:170-172 | every other modelled command succeeds by the second try |
| `RedisStalling.RedisStallExact` | internal/sync/follower.go:164-174 | from t0 on an idle follower never gets past its next entry, in any continuation, if and only if its store refuses the command |
| `RedisStalling.RefusedCommandStalls` | internal/sync/follower.go:164-174 | then neither its watermark nor its store ever changes again |
| `RedisStalling.MissedXx` | internal/proxy/dispatch.go:325-339 | a SET XX on a missing key is logged faithfully and refused |
| `RedisStalling.LongPx` | internal/proxy/dispatch.go:378-394 | a SET with the largest PX amount wraps, is logged as it is, and every store refuses it from clock 1 on |
| `RedeliveryExact.IdempotentExact` | internal/sync/watermark.go:24-28 | executing a modelled command twice is executing it once, on every store and at every clock, if and only if it is not an APPEND of something |
| `RedeliveryExact.CompanyExact` | internal/sync/watermark.go:24-28 | every log of absolute commands and a given one can be redelivered if and only if that one is absolute too |
| `RedeliveryExact.AppendHarm` | internal/sync/follower.go:160-179 | a run with one APPEND and one crash in which the replay has caught up with itself and the stores differ |
| `Simulation.WriteIsPath` | internal/proxy/dispatch.go:298-339 | a write as the dispatcher does it is a path of the replication machine with the same appends and the same store |
| `Simulation.BatchIsPath` | internal/sync/follower.go:164-179 | so is the replay of a batch, successful or not, with the same store and durable watermark |
| `Bridge.StepRefines` | internal/sync/server.go:71-116 | every step of the joined system, down to bytes of a record, refines a step of the replication machine or none |
| `Bridge.SendRefines` | internal/sync/server.go:95-109 | a batch read from the files is the batch of those seqs of the log |
| `EndToEnd.Converges` | internal/sync/follower.go:96-140 | in every run without crashes and failures whose writes meet the condition, an idle follower's store is what the files hold, replayed up to its watermark, and once caught up the primary's store |
| `EndToEnd.WatermarkIsSafe` | internal/sync/follower.go:164-179 | watermark safety of every run over the files, crashes and failures included |
| `EndToEnd.AcksAreBounded` | internal/sync/follower.go:142-158 | no ack is ever ahead of the watermark or of what the files hold |
| `EndToEnd.RedeliveryIsHarmless` | internal/sync/follower.go:160-179 | harmless redelivery of absolute commands, from the files |
| `EndToEnd.QuiescentIsCaughtUp` | internal/sync/server.go:95-115 | when the subscriber waits on an empty channel and nothing is on the way, the follower has applied every entry there is |
| `EndToEnd.QuiescentConverged` | internal/sync/server.go:71-116 | and then its store is the primary's |
| `Quiescence.RestIsReachable` | internal/sync/server.go:71-116 | from every state of a smooth run with no write in progress, if the commands answer, the system can come to rest with the primary as it was |
| `Quiescence.EveryNodeStep` | internal/sync/follower.go:60-92 | whatever can happen to the follower in the replication machine can happen to it in the joined one |
| `Quiescence.ConvergenceIsReachable` | internal/sync/follower.go:60-92 | and then the follower's store is the store the primary has |
| `Quiescence.WriteCompletes` | internal/proxy/dispatch.go:325-339 | a write can always be made when none is in progress: all its records reach the files, then it is executed |
| `Relay.RelayKeepsNumber` | internal/proxy/dispatch.go:482-492 | in lockstep, renumbering gives an entry the number it has |
| `Relay.LockstepBatch` | internal/sync/follower.go:164-179 | in lockstep a batch succeeds without a backend always, with one if and only if every command answers Done, and then log and watermark are at its end |
| `Relay.RelaysRepeatThePrimary` | internal/sync/follower.go:96-103 | in relay graphs of any depth and any choice of upstream, whatever is logged, each relay's log is a prefix of the primary's with the same seqs and nextSeq is watermark + 1 at batch boundaries; if the log runs the same at every clock, its store is that prefix replayed |
| `Relay.LockstepExact` | internal/sync/follower.go:164-179 | for a relay ahead of its watermark, behind it or in lockstep, and any log: after the next batch its log is still a prefix if and only if the batch repeats what should come there |
| `RelayProgress.EveryRelayCanCatchUp` | internal/sync/follower.go:96-140 | from every point of every run, every node can be brought to the primary's whole log |
| `RelayProgress.LinksMayChange` | internal/sync/follower.go:96-117 | at any time a stream can be cut, and an idle node can turn to any other |
| `Server.Server.Ack` | internal/sync/server.go:59-69 | the largest ack per follower, the others untouched; the lag does not wrap if and only if the ack is at most nextSeq |
| `Resp.RoundTrip` | internal/resp/resp.go:61-113 | an encoded command of any bytes is read back and nothing behind it is touched |
| `Resp.PipelinedRoundTrip` | internal/resp/resp.go:61-113 | so is any sequence of commands |
| `Resp.InlineRoundTrip` | internal/resp/resp.go:115-122 | an inline line of words with one space between them is read as those words |
| `RespExact.FieldsExact` | internal/resp/resp.go:115-122 | every line is its fields with white space around and between them: none is empty, none holds white space, none is missing |
| `RespExact.InlineExact` | internal/resp/resp.go:69-72 | words separated, preceded and followed by any runs of white space are read as exactly those words |
| `RespExact.LineExact` | internal/resp/resp.go:104-113 | a line is read if and only if it has no LF and CR and LF follow |
| `RespExact.LineErrors` | internal/resp/resp.go:104-111 | exactly when the end of input or a protocol error is reported |
| `RespExact.LengthExact` | internal/resp/resp.go:80-90 | a header is read if and only if it is its type, a number that is not too small, CR and LF |
| `RespExact.BulkExact` | internal/resp/resp.go:80-98 | a bulk string is read if and only if a header, so many bytes and any two more are there |
| `RespExact.ArrayExact` | internal/resp/resp.go:74-100 | an array is read as a command if and only if its count is positive and so many bulk strings follow |
| `RespExact.EncodedBytes` | internal/resp/resp.go:197-206 | the bytes of one command, written out |
| `Resp.EncodeCommand` | internal/resp/resp.go:197-206 | the buffer loop computes the encoding |
| `Resp.Reader.Line` | internal/resp/resp.go:104-113 | through the next LF, which must follow a CR; errors included |
| `Resp.Reader.Bulk` | internal/resp/resp.go:80-98 | one bulk string; the two bytes behind it are dropped unseen |
| `Resp.Reader.Command` | internal/resp/resp.go:61-101 | computes the reading function and leaves exactly its rest |
| `Reply.WriteReply` | internal/proxy/dispatch.go:517-559 | the recursive writer emits exactly the rendering of value and error |
| `Reply.ReplyRoundTrip` | internal/proxy/dispatch.go:517-559 | a RESP2 reader recovers the image of every reply tree, consumes exactly its bytes and leaves the next reply |
| `Reply.ErrorFramingExact` | internal/proxy/dispatch.go:518-526 | an error reply is framed correctly if and only if its text has no CRLF |
| `Reply.ErrorBytes` | internal/proxy/dispatch.go:522-526 | an error text is sent as it is if and only if it starts with an upper-case word; otherwise "ERR " goes before it |
| `Reply.NullBytes` | internal/proxy/dispatch.go:519-521 | the bytes of a null reply |
| `Reply.StatusBytes` | internal/proxy/dispatch.go:531-535 | only OK, PONG and QUEUED are simple strings |
| `Reply.ItemBytes` | internal/resp/resp.go:150-169 | the bytes of numbers, flags and bulk strings, written out |
| `Reply.ArrayBytes` | internal/resp/resp.go:177-181 | the bytes of an array, written out |

## Left out

- Full sync, snapshot hand-off and load-balancer mode: a direct follower asks for seq 1 or later and segments are never deleted, so this path is not reached here.
- Write forwarding over gRPC and its reply encoding: replies are flattened to strings, with no faithful round trip to prove.
- I/O errors: a failed write that consumes a seq, errors from Read other than end of file, a segment file that is missing when it is opened for reading.
- Wrap-around of uint64 sequence numbers.
- Segment file names and their parsing, directory fsync, and two segments with the same id sharing one file after numbering has restarted.
- Case folding and white space beyond ASCII in command names, options and inline commands; allocation limits for announced lengths.
- Scanning one segment file is one step of the streaming machine, at the moment the reader sees its end (the look at the index before it is a step of its own); rolling, signalling and completing an append are one step.
- Passing of time: a deadline that has passed removes nothing, and an EXPIRE into the past keeps the key. The backend executes a write at the clock value used to normalise it.
- Redis commands outside SET, SETEX, PSETEX, the EXPIRE family, PERSIST, DEL and APPEND are an arbitrary deterministic function of the store.
- Primary crashes in the replication theorems: a follower can read an entry before it is synced. Loss at the primary is covered by the recovery theorems alone.
- More than one direct follower in one machine: followers do not influence the primary or one another.
- Relay.RelaysRepeatThePrimary: the primary's own store is not part of that machine, and a relay reads its upstream's log as the flat log that log stands for.
- RedeliveryExact.CompanyExact: not for an EXPIREAT or PEXPIREAT whose deadline is the last int64, which no other deadline exceeds.
- Quiescence.RestIsReachable: that rest is within reach, not that a scheduler gets there; fairness is not modelled.
- Unknown protobuf fields.
- RedisStalling.RedisStallExact: commands outside the set are covered by Stalling.StallExact alone, since an arbitrary function may succeed after any number of tries.
- Authentication, command routing, configuration, metrics and backoff: each is a table lookup or a counter, with no state shared with the log or the replication path.
