# Haoma: verified models of the daemon's and the streamers' cores

Haoma's daemon keeps several small state machines whose bugs would show only under rare interleavings, and its call
streamers keep buffers whose accounting is easy to get slightly wrong. This project models those cores in Dafny and
proves what they promise. Code that changes state in place is a class or an array method with the source's own loops;
each such method is tied to a specification function, and the lemmas about whole runs are proved of these functions.

| files | what is modelled |
|---|---|
| `Bytes` | byte strings, their order, big-endian numbers |
| `OutboxKeys`, `OutboxModel`, `OutboxStore`, `OutboxWorker`, `OutboxProtocol`, `OutboxOrphans` | the outbox: key layout, transactions, the store, the worker's pass, all interleavings, and due keys that outlive their row |
| `Inbox`, `Delivery`, `Xport` | the receiver's inbox and message handler, and outbox and inbox joined by a lossy network |
| `JitterModel`, `JitterBuffer` | the jitter buffer as a refinement of one flat sample sequence, and the playout scaler |
| `BencodeModel`, `Bencode` | bencoding ("bencoding" section of BEP 3): printer, untyped parser, raw skipper, and the streaming code |
| `FrameQueue`, `FrameRuns` | the queue of the newest frames and its loss report, per call and over whole runs |
| `RegistryModel`, `Registry` | the peer registry and its address index |
| `RouteBook`, `CircuitProtocol` | automatic circuit renewal, sequentially and between interleaved lock regions |
| `FetchModel`, `FetchWorker`, `StagingModel`, `Staging` | resumable file fetches and the staging directory |
| `Kademlia`, `Candidates`, `Lookup`, `Routing` | ids and the XOR metric ("Routing Table" section of BEP 5), lookups, the routing table |
| `PairWords` | entropy as words of eleven bits |
| `Framing` | the media frame on the wire, both readers, and the pass-through copy (modules `Framing` and `FrameIo`) |
| `AttemptLimiter` | the limiter of destroy proofs |
| `Preimages` | the bytes hashed for an envelope and signed for a mutable item ("Signature Verification" section of BEP 44) |

## Where the code does less than one might expect

Each of these is shown by a concrete input or state, beside the exact condition under which the property holds or, for times,
the bound that is reached.

* A kick that moves a row a pass has loaded orphans a due key for good (`OutboxOrphans.KickBehindPassOrphansDueKey`,
  `OutboxOrphans.OrphansStay`); kicks are safe exactly when they move none (`OutboxProtocol.KickSafeIff`). Going by the
  clock is enough unless a pass's listed id is taken afresh (`OutboxProtocol.TimedRunIsRun`,
  `OutboxProtocol.InsertTimedIff`, `OutboxOrphans.ReusedIdOrphansDueKey`).
* A row due at time zero keeps its due key (`OutboxOrphans.EpochRowOrphansDueKey`, `OutboxOrphans.AdvanceKeepsIff`).
* Two concurrent deletes of one inbox id with a redelivery in between break the id index
  (`Inbox.DoubleDeleteBreaksIndex`, `Inbox.DeleteKeepsIff`).
* A crash between storing and announcing swallows the announcement (`Inbox.CrashSwallowsAnnouncement`); over every run an
  entry is lost exactly when a crash finds it there (`Delivery.LostIffCrashFinds`, `Delivery.NothingLostIff`,
  `Delivery.AnnouncedAsStoredIff`, `Delivery.SentMeansAnnounced`).
* Adding or importing over a record with other addresses, and overlaying an address that is retired or somebody else's,
  break the address index (`RegistryModel.AddKeepsIff`, `RegistryModel.ImportKeepsIff`, `RegistryModel.OverlayKeepsIff`,
  `RegistryModel.OverlayOfRetiredAddressIsSweptAway`).
* Without a grace period a rotation forgets an older onion of the peer (`Registry.Registry.RotateOwnOnion`).
* A decision held up for the whole window renews under an old tag (`CircuitProtocol.LateDecisionRenewsOldTag`,
  `CircuitProtocol.UnmovedRenewsCurrentTag`): the tag is current exactly if nobody renewed in between
  (`CircuitProtocol.TagIsCurrentIff`).
* The worker ignores a failed truncation after a 416 and then records a spoiled file as ready
  (`FetchModel.FailedTruncationSpoilsFile`); a completed request leaves the offered file exactly when the count in hand
  was the part file's length or a 200 answered a nonzero count (`FetchModel.CompleteIsGoodIff`,
  `FetchModel.AttemptsGoodIff`, `FetchModel.RunKeepsIff`).
* A drop cut short can leave a ready row without its file (`Staging.DropCutShort`, `Staging.DropCutShortKeepsIff`).
* The raw skipper takes values the parser refuses (`BencodeModel.SkipTakesMoreThanParse`,
  `BencodeModel.ParseIffCanonical`).
* A stale clock reading shortens the cool-off of destroy proofs by its age (`AttemptLimiter.StaleReadingShortensCooloff`,
  `AttemptLimiter.WrongProofsTakeTime`).
* A pop that answers that the queue is closed takes the loss record with it, so a push after the close would come out with
  that loss unreported (`FrameQueue.ClosedAnswerForgetsLoss`). A report covers all that was lost since the last successful
  pop exactly when no such answer had dropped a frame in between (`FrameRuns.ReportCoversIff`,
  `FrameRuns.ReportedMsIff`); a reader that pushes first and then closes, as the daemon's does, never meets this
  (`FrameRuns.ReportsReachBack`).
* A known address takes a new id where it is, so a node can sit in a bucket that is not its own
  (`Routing.MoveMisplacesNode`, `Routing.RenameKeepsBucketsIff`).
* Bit counts that are no multiple of eleven can run off the end of the entropy (`PairWords.Words.EncodeWords`).
* Fields of 2^32 bytes and more collide in the authenticated bytes (`Preimages.LongFieldsCollide`,
  `Preimages.MacInputDeterminesEnvelope`).

## What is assumed

* A store transaction is one atomic step; iterators yield keys in byte order. Clocks, random numbers, the network, and
  the results of foreign code are parameters. Hash functions are uninterpreted.
* Outbox: times are positive 64-bit nanoseconds; a kick's write moves no row that a running pass has loaded, for which
  it is enough that it is not older than a running pass and that no id a pass has listed and not loaded is enqueued
  afresh for that pass's destination with a later time; one worker per destination and one collection at a time.
* Delivery: text envelopes between two honest daemons; an id is never used for two envelopes; one delete at a time; only
  this peer's acknowledgements count.
* Circuit renewal: one clock that never goes back; the peer is not forgotten.
* Fetching: one running fetch per message and one token per message; writes and truncations happen whole or not at all.
* Attempt limiter: the guard is unchanged and no right proof arrives. Only the bound on the whole span assumes a clock that
  does not go back between locks.

## Model

| member | source | states |
|---|---|---|
| OutboxKeys.KeyBytesInjective | backend/internal/outbox/outbox.go:956-973 | two keys of any of the four families with the same bytes are the same key, so no family overwrites another |
| OutboxKeys.DueKeyOrder | backend/internal/outbox/outbox.go:960-969 | for nonnegative times the byte order of due keys is order by time and then by id |
| OutboxKeys.ScanSeesOneFamily | backend/internal/outbox/outbox.go:225-267 | a prefix scan of rows, of due keys or of one state sees that family and nothing else |
| Bytes.TimestampOrder | backend/internal/outbox/outbox.go:960-969 | eight-byte big-endian times compare as numbers while they are not negative |
| OutboxModel.InsertKeeps | backend/internal/outbox/outbox.go:123-162 | inserting a row with its due and state key keeps rows and index keys in agreement and touches no other row |
| OutboxModel.AdvanceKeeps | backend/internal/outbox/outbox.go:175-223 | advancing from the stored snapshot moves exactly that row, its one state key and its due key, and keeps the agreement |
| OutboxModel.KickKeeps | backend/internal/outbox/outbox.go:366-415 | a kick moves exactly the listed rows that still wait beyond its time, each once, marks them kicked, and keeps the agreement |
| OutboxModel.GcKeeps | backend/internal/outbox/outbox.go:424-474 | deleting the rows read as expired removes exactly those rows with their state keys and leaves no index key behind |
| OutboxModel.ProcessKeeps | backend/internal/outbox/outbox.go:827-954 | whatever the outcome of a send, the row becomes exactly its successor and the agreement holds |
| OutboxModel.SendErrIff | backend/internal/outbox/outbox.go:827-877 | after a failed send the row is put back at now plus the backoff if and only if its unkicked attempts, this one included, are fewer than MaxAttempts and it is younger than the age limit, and otherwise is failed and given up; after a 401 it is failed at once |
| OutboxModel.SendOkIff | backend/internal/outbox/outbox.go:879-923 | an answered send makes the row sent unless the answer does not verify; then the row is put back if and only if such answers are fewer than the limit |
| OutboxModel.EnqueueIs | backend/internal/outbox/outbox.go:123-162 | a known id is left alone, and a new envelope becomes a row due now with no attempts |
| OutboxModel.MigrateIs | backend/internal/outbox/migrate.go:24-103 | a legacy entry becomes a row due now with its attempts and its time in nanoseconds, unless its id is known or missing |
| OutboxModel.VictimIff | backend/internal/outbox/outbox.go:417-456 | a row is collected a week after it was sent and thirty days after it failed |
| OutboxStore.Store.Enqueue | backend/internal/outbox/outbox.go:123-162 | refuses an empty id and an id already there, and otherwise stores a fresh row due now |
| OutboxStore.Store.Load | backend/internal/outbox/outbox.go:164-173 | answers the stored row, or none |
| OutboxStore.Store.Advance | backend/internal/outbox/outbox.go:175-223 | the store afterwards is the advance transaction of the snapshot, key by key, also when the snapshot is stale |
| OutboxStore.Store.ScanDue | backend/internal/outbox/outbox.go:225-267 | the scan that stops at the first later key lists exactly the due enqueued rows, in due order |
| OutboxStore.Store.ListDue | backend/internal/outbox/outbox.go:225-267 | the rows listed are exactly the stored enqueued rows due by now, in due order |
| OutboxStore.ScanIsDueOrder | backend/internal/outbox/outbox.go:225-267 | a byte-order scan of due keys is in time order, so nothing due follows the first key beyond now |
| OutboxStore.Store.KickScan | backend/internal/outbox/outbox.go:325-364 | the first phase of a kick finds exactly the waiting rows of the matching destinations |
| OutboxStore.Store.KickWrite | backend/internal/outbox/outbox.go:366-415 | the second phase reads each row again, moves those still waiting, and answers exactly these |
| OutboxStore.Store.GcScan | backend/internal/outbox/outbox.go:424-455 | the first phase of a collection finds exactly the rows past their retention |
| OutboxStore.Store.GcWrite | backend/internal/outbox/outbox.go:456-474 | the second phase deletes row and state keys of the rows read before |
| OutboxStore.Store.HandleSendErr | backend/internal/outbox/outbox.go:827-877 | the stored row in its own fields: failed at once on 401, put back at now plus the backoff while counted attempts and age allow it, and otherwise failed and given up; kicked attempts do not count |
| OutboxStore.Store.HandleSendOk | backend/internal/outbox/outbox.go:879-923 | the stored row in its own fields: sent unless the answer does not verify, then put back until there are too many such answers |
| OutboxStore.Store.Migrate | backend/internal/outbox/migrate.go:24-103 | migrates entry by entry and counts the entries that have an id |
| OutboxStore.Store.MigrateEntry | backend/internal/outbox/migrate.go:79-96 | an entry becomes a row due now unless its id has a row already, which then stays as it is |
| OutboxStore.MigrationKeepsEntries | backend/internal/outbox/migrate.go:24-103 | every legacy entry with an id ends up in the outbox, no row that was there changes, and every new row comes from an entry |
| OutboxStore.FilterDest | backend/internal/outbox/outbox.go:709-717 | picks the rows of one destination in order |
| OutboxStore.OrderPass | backend/internal/outbox/outbox.go:719-741 | puts the never-tried rows first |
| OutboxStore.PassIsStablePermutation | backend/internal/outbox/outbox.go:709-741 | a pass takes each due row of its destination exactly once, never-tried rows first, and both groups in due order |
| OutboxWorker.PassKeeps | backend/internal/outbox/outbox.go:743-772 | a pass attempts each row of its queue once, from the very row stored, and leaves every other row alone |
| OutboxWorker.QueueIs | backend/internal/outbox/outbox.go:709-741 | the queue of a pass holds exactly the due rows of the destination, each once |
| OutboxWorker.QueueInOrder | backend/internal/outbox/outbox.go:709-741 | in a pass rows never tried come first, and in each group those due earlier |
| OutboxWorker.Worker.ProcessRow | backend/internal/outbox/outbox.go:799-825 | sent once more exactly when a renewed circuit cut it and the worker is not stopping, and the outcome that counts is recorded |
| OutboxWorker.Worker.DrainDest | backend/internal/outbox/outbox.go:743-772 | gate, hold, listing and attempts in turn: the due rows of the destination, untried ones first and otherwise in due order, each once, all of them unless the worker stops before |
| OutboxStore.DoublingBackoff | backend/internal/outbox/outbox.go:985-997 | the delay is 30 s doubled for each attempt after the first, at most one hour |
| OutboxStore.Jitter | backend/internal/outbox/outbox.go:999-1009 | jitter moves a delay by at most a fifth |
| OutboxProtocol.StepKeepsInv | backend/internal/outbox/outbox.go:123-223 | each step of enqueueing, migration, a pass, a kick that moves no loaded row, or a collection keeps agreement of rows and keys and the currency of all loaded rows |
| OutboxProtocol.RunKeepsInv | backend/internal/outbox/outbox.go:325-474 | over every interleaving whose kicks move no loaded row, each row has exactly its state key, an enqueued row exactly its due key, a finished row none, and rows loaded by passes equal the stored ones |
| OutboxProtocol.RunsFromStart | backend/internal/outbox/outbox.go:123-474 | the same, with the counting bounds, from any store whose rows and keys agree, the empty one included |
| OutboxProtocol.KickSafeIff | backend/internal/outbox/outbox.go:366-415 | a kick keeps the invariant if and only if it moves no row that a running pass has loaded |
| OutboxProtocol.ClockMakesKicksHarmless | backend/internal/outbox/outbox.go:325-415 | a kick whose time is not before that of any running pass moves no loaded row |
| OutboxProtocol.InsertTimedIff | backend/internal/outbox/outbox.go:123-162 | that stays so after an enqueue if and only if the new row does not take, at a later time, an id that a pass of its destination has listed and not loaded |
| OutboxProtocol.TimedRunIsRun | backend/internal/outbox/outbox.go:325-415 | so over every run whose kicks go by the clock and whose new rows take no listed id, all of the above holds |
| OutboxOrphans.AdvanceKeepsIff | backend/internal/outbox/outbox.go:175-223 | recording an attempt at a fresh row keeps rows and keys in agreement if and only if the row was not due at time zero |
| OutboxOrphans.EpochRowOrphansDueKey | backend/internal/outbox/outbox.go:175-223 | whatever the outcome, the due key of a row enqueued at time zero outlives the attempt |
| OutboxOrphans.KickBehindPassOrphansDueKey | backend/internal/outbox/outbox.go:366-415 | a kick that moves the row a pass is about to advance to an earlier time leaves a due key beside a sent row |
| OutboxOrphans.OrphansStay | backend/internal/outbox/outbox.go:175-223 | such a key survives every sequence of transactions that work from stored rows, until the id is made due at that very time again |
| OutboxOrphans.ReusedIdOrphansDueKey | backend/internal/outbox/outbox.go:123-162 | the condition on listed ids is needed: a run from the empty store, with kicks going by the clock, that ends in an orphaned due key |
| OutboxProtocol.NoLostUpdate | backend/internal/outbox/outbox.go:743-772 | the row a pass is about to advance is the stored row with its keys, so no update by anybody else is overwritten |
| OutboxProtocol.CountedAfter | backend/internal/outbox/outbox.go:827-954 | an attempt adds one to the attempts; a failed one adds one to the counted attempts unless the row was kicked |
| OutboxProtocol.RunKeepsLife | backend/internal/outbox/outbox.go:827-954 | 0 <= kicked attempts <= attempts, counted attempts of an enqueued row at most MaxAttempts-1 plus its bad answers, and these below their limit, over every run |
| OutboxProtocol.FinishedRowsStay | backend/internal/outbox/outbox.go:175-223 | nothing changes a sent or failed row; only a collection that read it removes it |
| OutboxProtocol.CountedIsUnkicked | backend/internal/outbox/outbox.go:827-877 | while a row stays enqueued its counted attempts grow by exactly its unkicked attempts |
| OutboxProtocol.FinitelyManyAttempts | backend/internal/outbox/outbox.go:827-954 | an enqueued row survives fewer unkicked attempts than the two limits add up to, however the parts interleave |
| OutboxProtocol.StaysEnqueuedIff | backend/internal/outbox/outbox.go:827-877 | over every interleaving a row whose attempts all fail while it is young stays enqueued throughout if and only if its unkicked attempts stay below MaxAttempts |
| Inbox.StoreKeeps | backend/cmd/haomad/inbox.go:57-84 | the transaction keeps entries and id index in agreement, stores an id once until it is deleted, and forgets nothing stored |
| Inbox.PublishKeeps | backend/cmd/haomad/inbox.go:88-90 | the announcement that follows keeps every stored entry accounted for: announced once, about to be, or lost |
| Inbox.PutKeeps | backend/cmd/haomad/inbox.go:47-92 | without a crash a put stores and announces at once |
| Inbox.CrashSwallowsAnnouncement | backend/cmd/haomad/inbox.go:57-92 | after a crash between the two the redelivered envelope is accepted and not announced |
| Inbox.DeleteKeepsIff | backend/cmd/haomad/inbox.go:132-182 | deleting an entry keeps the agreement if and only if the entry is still there or no entry has that id |
| Inbox.DoubleDeleteBreaksIndex | backend/cmd/haomad/inbox.go:132-182 | two deletes of one id with a redelivery in between leave an entry without its index key |
| Inbox.DeleteCounts | backend/cmd/haomad/inbox.go:132-182 | a delete keeps storings equal to removals plus what is indexed |
| Delivery.NetStepKeeps | backend/internal/xport/server.go:108-251 | with requests and responses lost, repeated and reordered and the peer crashing at will, every step keeps: acknowledged means stored, and sent means acknowledged |
| Delivery.NetRunKeeps | backend/internal/outbox/outbox.go:799-923 | the same over every run |
| Delivery.SentMeansDeliveredOnce | backend/internal/outbox/outbox.go:799-923 | a row is sent only after the peer stored that very envelope; the peer stores an id once until it is deleted; everything stored is announced exactly once unless a crash comes in between |
| Delivery.LostIffCrashFinds | backend/cmd/haomad/inbox.go:57-92 | an entry is lost over a run if and only if a crash finds it stored and not yet announced |
| Delivery.NothingLostIff | backend/cmd/haomad/inbox.go:57-92 | nothing is lost over a run if and only if no crash finds anything still to be announced |
| Delivery.AnnouncedAsStoredIff | backend/cmd/haomad/inbox.go:57-92 | over every run an entry is announced as often as it was stored if and only if it is not about to be announced and no crash found it so |
| Delivery.SentMeansAnnounced | backend/internal/outbox/outbox.go:799-923 | a sent envelope none of whose entries is about to be announced or was found so by a crash has been announced; while the peer has removed no entry of that id this is an if and only if |
| Inbox.Mailbox.Put | backend/cmd/haomad/inbox.go:47-92 | an id in the index is accepted and not stored again; otherwise entry and index key are written together |
| Inbox.Mailbox.Delete | backend/cmd/haomad/inbox.go:132-182 | removes the entry of that id and its index key and no other entry |
| Inbox.Mailbox.HandleMessage | backend/internal/xport/server.go:151-249 | every reply in terms of the request: the inbox takes an envelope exactly when it was verified and is neither a control answer nor for the responder, and it is acknowledged only then |
| JitterModel.PlayFront | streams/common/jitter_buffer.cpp:184-196 | taking samples off the first frame is dropping them from the front of the flat sequence |
| JitterModel.FadesNeverAmplify | streams/common/jitter_buffer.cpp:39-55 | a fade changes only the last or first fadeSamples samples and makes none louder |
| JitterModel.FadesAreRamps | streams/common/jitter_buffer.cpp:39-55 | the gain falls to nothing or rises to one in equal steps over the faded samples |
| JitterModel.QuietIff | streams/common/jitter_buffer.cpp:13-18 | a frame is quiet exactly when the mean of its squares lies below the square of the level |
| JitterModel.SumSqAdds | streams/common/jitter_buffer.cpp:13-18 | the sum of squares is additive and of one sample its square |
| JitterModel.DropFrameIs | streams/common/jitter_buffer.cpp:68-94 | dropping a frame touches no other than its neighbours, which are faded out and in |
| JitterModel.MsBracket | streams/common/media_meter.h:14-16 | whole milliseconds: as many as are complete and not one more |
| JitterModel.MsBelowIff | streams/common/media_meter.h:14-16 | comparing milliseconds is comparing samples |
| JitterModel.DropIsCut | streams/common/jitter_buffer.cpp:68-94 | dropping a frame cuts one block out of the flat sequence and fades the two edges |
| JitterModel.CutIsThinned | streams/common/jitter_buffer.cpp:68-94 | after a cut each sample left is a sample that was there, in order, and no louder |
| JitterModel.ThinnedTrans | streams/common/jitter_buffer.cpp:68-94 | cuts compose |
| JitterModel.CountersAreHonest | streams/common/jitter_buffer.cpp:275-280 | the millisecond counters never claim more than was dropped, and less than one millisecond too little for each drop |
| JitterBuffer.PlcFramesForGap | streams/common/jitter_buffer.cpp:20-24 | conceals at most three frames and never past the frame received |
| JitterBuffer.PlayoutScaler.TargetRateFor | streams/common/playout_scaler.cpp:9-15 | 1 up to the slack, the maximum from the hard cap on, and a straight line in between |
| JitterBuffer.PlayoutScaler.Update | streams/common/playout_scaler.cpp:17-25 | moves the rate to its target if the step allows, else by the whole step |
| JitterBuffer.TowardsIsLargest | streams/common/playout_scaler.cpp:17-25 | no change of the rate within the step comes nearer to the target |
| JitterBuffer.Buffer.DropOneFramePreferringQuiet | streams/common/jitter_buffer.cpp:68-94 | drops the first quiet frame, or the front one when forced, and reports exactly its unplayed samples |
| JitterBuffer.Buffer.EnforceHardCap | streams/common/jitter_buffer.cpp:96-101 | afterwards the samples held are less than the cap plus a millisecond; nothing is dropped when they were so before, and otherwise the last drop was needed |
| JitterBuffer.Buffer.RunCatchup | streams/common/jitter_buffer.cpp:133-163 | a frame is taken out exactly when catch-up runs or may start, the queue is deeper than the target, the gap has passed, and a frame is quiet or the wait for one is over; never more than one |
| JitterBuffer.Buffer.HoldShrinks | streams/common/jitter_buffer.cpp:122-126 | the deeper the queue the shorter the hold: all of it up to the slack, none from the hard cap on |
| JitterBuffer.Buffer.GapShrinks | streams/common/jitter_buffer.cpp:128-131 | the deeper the queue the shorter the gap between drops: all of it with no excess |
| JitterBuffer.Buffer.HoldIsLine | streams/common/jitter_buffer.cpp:122-126 | between slack and cap the hold is the whole milliseconds on a straight line |
| JitterBuffer.Buffer.GapIsQuotient | streams/common/jitter_buffer.cpp:128-131 | the gap is the whole milliseconds of the full gap divided by one plus the excess over the cap, and not below its least |
| JitterBuffer.Buffer.MaybeUpdateTarget | streams/common/jitter_buffer.cpp:57-66 | every ten seconds the target becomes 80 ms plus twice the jitter, within its limits |
| JitterBuffer.Buffer.Push | streams/common/jitter_buffer.cpp:165-182 | the samples held stay below the cap plus a millisecond, what is held is thinned and in order, the books balance, within the cap a frame goes exactly when catch-up takes one, the target is renewed every ten seconds, and the rate moves towards its own |
| JitterBuffer.Buffer.AdvanceFront | streams/common/jitter_buffer.cpp:184-196 | drops that many samples of the flat sequence |
| JitterBuffer.Buffer.SampleAt | streams/common/jitter_buffer.cpp:198-207 | reads the flat sequence, silence beyond its end |
| JitterBuffer.Buffer.Pop | streams/common/jitter_buffer.cpp:209-260 | unscaled it returns and removes exactly the front samples; scaled it reads along the cursor and reports what it removed plus less than one rate step |
| JitterBuffer.InterpolateIsMean | streams/common/jitter_buffer.cpp:238-252 | a read between two samples is their mean, weighted by nearness |
| JitterBuffer.Buffer.SetJitterMs | streams/common/jitter_buffer.cpp:262-262 | sets the jitter the next target is computed from |
| JitterBuffer.Buffer.Clear | streams/common/jitter_buffer.cpp:264-273 | empties the buffer, counts what it held as cleared, and prefills again |
| JitterBuffer.Buffer.TakeCounters | streams/common/jitter_buffer.cpp:275-280 | answers and resets the counters, which never claim more than was dropped |
| JitterBuffer.Buffer.BooksBalance | streams/common/jitter_buffer.cpp:165-182 | every sample ever pushed was played, dropped, cleared, or is still to be played, and the counters add up the drops |
| BencodeModel.IntTextIff | backend/internal/bencode/decode.go:170-182 | the texts of integers that are accepted are exactly the printed ones: no leading zero, no minus zero, no plus |
| BencodeModel.LengthIff | backend/internal/bencode/decode.go:184-199 | the length prefixes accepted are exactly the printed numbers |
| BencodeModel.DecodeIntIsIntOf | backend/internal/bencode/decode.go:611-635 | the 64-bit scan with its big-number fallback reads every integer text at its value |
| BencodeModel.ParseInt64Is | backend/internal/bencode/decode.go:611-635 | the 64-bit reading is the number where that fits and out of range only where it does not |
| BencodeModel.SortedUnique | backend/internal/bencode/encode.go:122-198 | a set of keys has one strictly sorted listing |
| BencodeModel.ParsePrinted | backend/internal/bencode/decode.go:583-703 | parsing a printed value, whatever follows, gives the value and leaves what follows |
| BencodeModel.ParsedIsPrinted | backend/internal/bencode/decode.go:583-703 | whatever the parser reads is the printed form of the value it answers |
| BencodeModel.DecodeIffEncoded | backend/internal/bencode/decode.go:583-703 | bytes decode to a value if and only if they are its encoding and its strings are within the limit |
| BencodeModel.EncodingsAreSelfDelimiting | backend/internal/bencode/encode.go:122-229 | no encoding is a prefix of another |
| BencodeModel.SkipPrinted | backend/internal/bencode/decode.go:457-505 | the raw skipper stops exactly at the end of a printed value |
| BencodeModel.SkipAgreesWithParse | backend/internal/bencode/decode.go:457-505 | where the parser reads a value the skipper takes exactly its bytes |
| BencodeModel.ParseIffCanonical | backend/internal/bencode/decode.go:457-505 | the parser reads a value if and only if the skipper takes one in whose raw text integers and length prefixes are canonical, strings within the limit, and dictionary keys strictly rising strings, each with a value |
| BencodeModel.SkipTakesMoreThanParse | backend/internal/bencode/decode.go:457-505 | inputs the skipper takes and the parser refuses: an integer that is no number, and an integer where a key must stand |
| Bencode.Decoder.ReadUntil | backend/internal/bencode/decode.go:91-99 | buffers everything before the separator and consumes the separator |
| Bencode.Decoder.ParseValueInterface | backend/internal/bencode/decode.go:583-609 | the streaming parser answers the parse of the rest, leaves the cursor and the offset behind it and the buffer empty |
| Bencode.Decoder.ParseIntInterface | backend/internal/bencode/decode.go:611-635 | an integer, or a panic exactly when its text is not a printed one |
| Bencode.Decoder.ParseStringInterface | backend/internal/bencode/decode.go:648-659 | a string, or a panic exactly when its prefix is wrong, it is too long or the input ends |
| Bencode.Decoder.ParseListInterface | backend/internal/bencode/decode.go:695-703 | a list up to its end mark |
| Bencode.Decoder.ParseDictInterface | backend/internal/bencode/decode.go:661-693 | a dictionary with strictly rising keys up to its end mark |
| Bencode.Decoder.ReadOneValue | backend/internal/bencode/decode.go:457-505 | consumes one raw value and appends exactly its bytes to the buffer; an end mark consumes nothing |
| Bencode.Encoder.ReflectValue | backend/internal/bencode/encode.go:142-191 | appends the encoding of an integer, string, list or dictionary, dictionaries by sorted key |
| Bencode.Marshal | backend/internal/bencode/encode.go:45-63 | the bytes are the encoding of the value |
| Bencode.Unmarshal | backend/internal/bencode/decode.go:34-69 | answers the decoding of the bytes under the length limit |
| Bencode.Encoder.WriteString | backend/internal/bencode/encode.go:79-85 | the text goes out whole through the scratch buffer |
| FrameQueue.EveryFrameOnce | backend/internal/proxy/newestframes.go:42-56 | the frames that left are those delivered and those lost, none twice |
| FrameQueue.KeepName | backend/internal/proxy/newestframes.go:89-137 | the record of the first loss survives whatever comes and goes |
| FrameQueue.Queue.Push | backend/internal/proxy/newestframes.go:42-56 | the span stays within 2 s, only frames more than 2 s older than the new one are evicted, and the first eviction since the last answer is remembered |
| FrameQueue.Queue.Interleave | backend/internal/proxy/newestframes.go:89-137 | the same for whatever happens during a wait |
| FrameQueue.Queue.DropStale | backend/internal/proxy/newestframes.go:89-137 | drops exactly what is too old and names the first frame lost since the last answer, evicted or dropped |
| FrameQueue.Queue.PopBatch | backend/internal/proxy/newestframes.go:89-137 | delivers the next frames in order, none older than maxAge and as many as fit, and reports in whole milliseconds the media time and age from the first frame lost since the last answer, also when it was lost before or during a wait; a frame is lost only when it is too old or outlived; what was pushed and closed during its waits is accounted for |
| FrameQueue.ClosedAnswerForgetsLoss | backend/internal/proxy/newestframes.go:131-133 | with a push after the close, what a pop dropped before it answered that the queue is closed is in no later report |
| FrameQueue.ReportIsFirstLoss | backend/internal/proxy/newestframes.go:89-137 | the reported milliseconds are those from the first lost frame to the first delivered one, and zero when none was lost |
| FrameQueue.ReportIsMs | backend/internal/proxy/newestframes.go:115-118 | the reported numbers are the whole milliseconds of the media time and of the age |
| FrameQueue.DueMeans | backend/internal/proxy/newestframes.go:42-137 | what the promises on losses and span come to: a frame is lost only when it is older than maxAge or two seconds older than the newest |
| FrameRuns.ReachesBackIff | backend/internal/proxy/newestframes.go:89-137 | over every run of pushes, closes and pops the queue remembers losses back to the last successful pop if and only if no answer that the queue is closed had dropped a frame since |
| FrameRuns.ReportCoversIff | backend/internal/proxy/newestframes.go:89-137 | a report covers every frame lost since the last successful pop if and only if no answer that the queue is closed had dropped a frame in between |
| FrameRuns.ReportedMsIff | backend/internal/proxy/newestframes.go:115-118 | for media whose frames are a millisecond apart or more the reported numbers themselves are those since the last successful pop exactly then |
| FrameRuns.ClosedIsFinal | backend/internal/proxy/manager.go:534-570 | when nothing is pushed once the queue is closed, nothing comes out after an answer that it is closed |
| FrameRuns.ReportsReachBack | backend/internal/proxy/manager.go:534-570 | so every report gives, in whole milliseconds, the media time and age from the first frame lost since the last successful pop |
| FrameRuns.RunDelivers | backend/internal/proxy/newestframes.go:42-137 | over every run what came out is what was pushed, in order, less the frames lost and those still queued |
| RegistryModel.ImportKeepsIff | backend/internal/peers/invite.go:85-163 | an import keeps index and records in agreement if and only if it overwrites no record holding an address the invite leaves out; a fresh id always does |
| RegistryModel.AddressesFreed | backend/internal/peers/invite.go:85-163 | after the displaced peers are retired none of the invited addresses belongs to anybody else |
| RegistryModel.RetireOneMore | backend/internal/peers/invite.go:85-163 | displaced peers may be retired in any order |
| RegistryModel.OverlayKeepsIff | backend/internal/peers/registry.go:272-315 | an overlay keeps the agreement if and only if the peer already knows the address or nobody holds it |
| RegistryModel.OverlayIs | backend/internal/peers/registry.go:272-315 | the address moves to the front, the others keep their order, and nothing else changes; a retired peer is left alone |
| RegistryModel.CollapseIs | backend/internal/peers/registry.go:317-374 | only the retained address stays known; the others are kept until now plus the grace period, or leave the index at once |
| RegistryModel.RetiredPeerIs | backend/internal/peers/registry.go:540-593 | a retired peer keeps its id and no address, key or secret |
| RegistryModel.OverlayOfRetiredAddressIsSweptAway | backend/internal/peers/registry.go:376-435 | overlaying an address in its own grace period ends with a known address that the index no longer finds |
| RegistryModel.CollapseKeeps | backend/internal/peers/registry.go:317-374 | a collapse to one address, with or without a grace period, keeps the agreement |
| RegistryModel.SweepKeeps | backend/internal/peers/registry.go:376-435 | a sweep removes exactly the expired addresses from record and index |
| RegistryModel.RetireKeeps | backend/internal/peers/registry.go:546-593 | a retired peer holds no address and the index none of its addresses |
| RegistryModel.RemoveKeeps | backend/internal/peers/registry.go:84-117 | a removed peer is gone with all its addresses |
| RegistryModel.AddKeepsIff | backend/internal/peers/registry.go:48-67 | adding a record, which displaces nobody, keeps the agreement if and only if its known addresses are nobody else's and every other address is held by it exactly when the overwritten record held it |
| RegistryModel.SweepOneMore | backend/internal/peers/registry.go:376-435 | peers may be swept in any order |
| RegistryModel.RunKeeps | backend/internal/peers/registry.go:48-593 | over every run of these operations the index names a peer for an address exactly when that peer holds it, and a retired peer holds none |
| RegistryModel.RunsFromEmpty | backend/internal/peers/registry.go:48-593 | so from the empty registry on |
| Registry.Registry.Add | backend/internal/peers/registry.go:48-67 | refuses an invalid record; otherwise writes it and its index keys over whatever was there |
| Registry.Registry.Import | backend/internal/peers/invite.go:85-163 | refuses a malformed invite; otherwise retires and reports the displaced peers and stores the new one |
| Registry.Registry.OverlayPeerAddress | backend/internal/peers/registry.go:272-315 | moves or adds the address in front; a retired peer is refused and an address already in front changes nothing |
| Registry.Registry.CollapsePeerAddress | backend/internal/peers/registry.go:317-374 | keeps one address; the others go into their grace period or at once |
| Registry.Registry.SweepPeer | backend/internal/peers/registry.go:384-429 | one peer of the sweep: exactly the expired addresses go, and are counted |
| Registry.Registry.SweepRetiredAddrs | backend/internal/peers/registry.go:376-435 | the whole sweep: every listed peer loses exactly its expired addresses, and the total is how many those are |
| Registry.Registry.RetireInTxn | backend/internal/peers/registry.go:546-593 | retires a peer in place, once |
| Registry.Registry.Remove | backend/internal/peers/registry.go:84-117 | removes a peer and its index keys |
| Registry.Registry.ByAddress | backend/internal/peers/registry.go:135-144 | finds the peer that holds an address, and none only when no peer does |
| Registry.Registry.RotateOwnOnion | backend/internal/peers/registry.go:481-538 | the new onion replaces the old one, which stays as predecessor until now plus the grace period, or is handed back; no onion is lost if and only if there is a grace period or no other predecessor |
| Registry.OnionsAre | backend/internal/peers/registry.go:481-538 | the onions of a record are its present one and the one before; none is lost when all are recorded or handed back |
| RouteBook.RouteBook.Failed | backend/cmd/haomad/circuit_renew.go:186-198 | counts a failure exactly when its tag is current and nothing was answered since it started |
| RouteBook.RouteBook.Begin | backend/cmd/haomad/circuit_renew.go:211-230 | takes the mark unless another decision has it or the window is not over, and sees a burst exactly when another peer was decided on a moment ago |
| RouteBook.RouteBook.Renew | backend/cmd/haomad/circuit_renew.go:245-256 | ends the generation, forgets its answers and opens the next window |
| RouteBook.RouteBook.Arm | backend/cmd/haomad/circuit_renew.go:264-272 | a renewal by hand only moves the window later |
| RouteBook.RouteBook.NoteAnswered | backend/cmd/haomad/circuit_renew.go:152-168 | an answer from one of the peer addresses is noted under its tag and clears the counters |
| RouteBook.RouteBook.CutDue | backend/cmd/haomad/circuit_renew.go:234-243 | a request may be cut only under the current tag and soon after its first answer |
| RouteBook.RouteBook.Tagged | backend/cmd/haomad/circuit_renew.go:138-146 | the tag handed out names the present generation |
| RouteBook.RouteBook.StillDue | backend/cmd/haomad/circuit_renew.go:200-209 | due while the tag is current and nothing was answered since the start |
| RouteBook.AnswerThenFailure | backend/cmd/haomad/circuit_renew.go:152-209 | after an answer from an address of the peer under the current tag a failure of the same tag is due if and only if the answer came no later than the request was started |
| RouteBook.RenewsIff | backend/cmd/haomad/circuit_renew.go:509-577 | all that an uninterrupted decision looks at before it renews, in the fields themselves |
| RouteModel.BurstIff | backend/cmd/haomad/circuit_renew.go:220-226 | a burst is another peer deciding less than thirty seconds ago |
| RouteBook.RouteBook.Inbound | backend/cmd/haomad/circuit_renew.go:170-174 | notes the time, and nothing for a forgotten peer |
| RouteBook.RouteBook.Release | backend/cmd/haomad/circuit_renew.go:258-262 | takes the mark off |
| RouteBook.RouteBook.Forget | backend/cmd/haomad/circuit_renew.go:176-184 | a forgotten peer has the initial state from then on |
| RouteBook.RouteBook.StartManual | backend/cmd/haomad/circuit_renew.go:274-285 | one hand renewal of a peer at a time |
| RouteBook.RouteBook.EndManual | backend/cmd/haomad/circuit_renew.go:287-291 | ends it |
| RouteBook.RouteBook.Decide | backend/cmd/haomad/circuit_renew.go:509-588 | renews exactly when every gate is open, moves to its own goroutine exactly on a burst or without a recent word from the peer, counts a failure exactly when it is due and not moved, and leaves no mark behind |
| CircuitProtocol.StepKeeps | backend/cmd/haomad/circuit_renew.go:186-272 | every step of any number of interleaved decisions keeps the invariant |
| CircuitProtocol.RunKeeps | backend/cmd/haomad/circuit_renew.go:509-588 | over every run the invariant holds and generations only grow |
| CircuitProtocol.AtMostOneDecider | backend/cmd/haomad/circuit_renew.go:211-262 | the mark is on exactly while one decision holds it, never two, and its holder can always go on |
| CircuitProtocol.RenewalsAreApart | backend/cmd/haomad/circuit_renew.go:211-256 | any two renewals of a peer are at least three minutes apart |
| CircuitProtocol.DueIffUnanswered | backend/cmd/haomad/circuit_renew.go:186-209 | over every run a failure is found due if and only if its tag is current and the last answer under it since the last renewal came no later than the start |
| CircuitProtocol.NoRenewalIfAnswered | backend/cmd/haomad/circuit_renew.go:509-577 | over every run whoever renews had found its failure due, and again if it had moved, with no answer under its tag after the start of its request |
| CircuitProtocol.AloneDecidesAsWhole | backend/cmd/haomad/circuit_renew.go:509-588 | lock region by lock region, a decision that nobody interrupts ends, and renews exactly as the whole decision does |
| CircuitProtocol.MovedRenewsCurrentTag | backend/cmd/haomad/circuit_renew.go:566-577 | a decision that moved renews only while the tag of its request is current |
| CircuitProtocol.UnmovedRenewsCurrentTag | backend/cmd/haomad/circuit_renew.go:186-256 | one that did not move does too when less than the window, less the age of the clock readings, passes between its two checks; otherwise a renewal in between is to blame |
| CircuitProtocol.TagIsCurrentIff | backend/cmd/haomad/circuit_renew.go:186-256 | from the time a failure is found due its tag is the current one at any later step, its own renewal included, if and only if no renewal came in between, over every interleaving |
| CircuitProtocol.LateDecisionRenewsOldTag | backend/cmd/haomad/circuit_renew.go:509-588 | the bound is needed: a decision held up for the whole window renews under an old tag |
| FetchModel.StreamKeepsIff | backend/internal/files/fetch_worker.go:341-459 | one request keeps all promises; the byte count stays the length of the part file if and only if no 416 met a part file that could not be emptied; a completed request leaves a file of the offered size and hash |
| FetchModel.CompleteIsGoodIff | backend/internal/files/fetch_worker.go:341-459 | whatever count is in hand, a completed request leaves the offered file if and only if the count was the length of the part file before it, or a 200 answered a nonzero count |
| FetchModel.AttemptsGoodIff | backend/internal/files/fetch_worker.go:255-305 | over a whole list of addresses with circuit retries the file is the offered one if and only if that holds before the request that completed |
| FetchModel.RunKeepsIff | backend/internal/files/fetch_worker.go:178-305 | over any run, failed truncations included, every ready row has its file afterwards if and only if the run is not completed and recorded by a request for which it does not hold |
| FetchModel.StreamCompletesIff | backend/internal/files/fetch_worker.go:341-459 | with a right count and nothing failing here a reply completes if and only if it is 200 with the offered file or 206 with what is missing of it, and these very bytes become the file |
| FetchModel.StreamElse | backend/internal/files/fetch_worker.go:341-379 | 404 and 410 rule the file out, 416 starts the count from nothing, and any other reply leaves all as it was |
| FetchModel.ReceiveIs | backend/internal/files/fetch_worker.go:380-459 | every way a reply with a body can go, failures on this side included: when it completes, when it rules the file out, and what stays written for another try |
| FetchModel.StreamIs | backend/internal/files/fetch_worker.go:373-379 | a 200 after some bytes has the part file emptied first, and without that nothing is read |
| FetchModel.StreamRefuses | backend/internal/files/fetch_worker.go:405-459 | a body that ends and is not the offered file rules it out for good |
| FetchModel.BodyTooLong | backend/internal/files/fetch_worker.go:405-431 | the first chunk that takes the file past the offered size ends the body |
| FetchModel.StreamBreaksOff | backend/internal/files/fetch_worker.go:405-431 | a body that breaks off leaves what came in the part file, and the count right |
| FetchModel.FromPartIff | backend/internal/files/fetch_worker.go:307-339 | a full part file becomes the file exactly when it can be read, is the offered bytes, and can be renamed |
| FetchModel.OneTryIs | backend/internal/files/fetch_worker.go:255-285 | a try is its first request, or the second one after a renewed circuit |
| FetchModel.AttemptsAre | backend/internal/files/fetch_worker.go:255-305 | addresses are tried in order up to the first that gives the file or rules it out |
| FetchModel.EndedIs | backend/internal/files/fetch_worker.go:491-528 | how a run is recorded: ready, put off with an attempt counted unless kicked, or ruled out with its files removed |
| FetchModel.RunFinishes | backend/internal/files/fetch_worker.go:178-305 | a run whose first reply is the offered file or the rest of it ends with a ready row and these very bytes |
| FetchModel.RunRulesOut | backend/internal/files/fetch_worker.go:178-305 | a run whose first reply is 404 or 410 ends with the row failed for good and both files gone |
| FetchModel.RunStopsShort | backend/internal/files/fetch_worker.go:178-255 | a run that does not get as far as asking is put off with its files as they were |
| FetchModel.RunIsIdle | backend/internal/files/fetch_worker.go:178-190 | a run on a finished or unknown fetch does nothing |
| FetchModel.InterruptedIsFinished | backend/internal/files/fetch_worker.go:178-305 | an interrupted download leaves what came, and a later run given the rest completes it |
| FetchModel.AttemptsKeep | backend/internal/files/fetch_worker.go:255-305 | so does a whole list of addresses with circuit retries |
| FetchModel.FromPartKeeps | backend/internal/files/fetch_worker.go:307-339 | a full part file becomes ready only with the offered size and hash; otherwise the count is right exactly when it could be emptied |
| FetchModel.EndedKeeps | backend/internal/files/fetch_worker.go:491-528 | a row is recorded as ready only after a complete transfer |
| FetchModel.RunKeeps | backend/internal/files/fetch_worker.go:178-305 | through any mix of replies, errors and dropped connections a ready row has its file of the offered size and hash, provided no ignored truncation fails |
| FetchModel.FailedTruncationSpoilsFile | backend/internal/files/fetch_worker.go:373-377 | an input the condition excludes: after a failed truncation a file of the wrong content is recorded as ready |
| FetchModel.NamesApart | backend/internal/files/fetch.go:68-70 | part and final names of different valid ids never collide |
| FetchWorker.Worker.CopyBody | backend/internal/files/fetch_worker.go:405-431 | every byte read goes to the part file, the hash and the count, up to the end, an error or too many bytes |
| FetchWorker.Worker.StreamOne | backend/internal/files/fetch_worker.go:341-459 | one request, with the disk after each of its effects still keeping the promises |
| FetchWorker.Worker.FinishFromPart | backend/internal/files/fetch_worker.go:307-339 | the full part file is renamed when it matches and emptied when not |
| FetchWorker.Worker.AskAll | backend/internal/files/fetch_worker.go:255-305 | asks the addresses in order and once more after a circuit renewal |
| FetchWorker.Worker.Run | backend/internal/files/fetch_worker.go:178-305 | the disk afterwards is the run as specified, and the disk after every single effect keeps the promises, so a crash anywhere does too |
| StagingModel.ResumableFilesStay | backend/internal/files/fetch.go:337-426 | the scan never removes a file of a message that can be resumed: it stays or becomes the part file |
| StagingModel.ReadyFilesStay | backend/internal/files/fetch.go:337-426 | a ready message keeps its final file, a restored one matches the size and hash of a ready row, and every part file left belongs to a message that can be resumed |
| StagingModel.ScanIs | backend/internal/files/fetch.go:337-426 | for one message and in terms of its rows: what becomes of its final file and of its part file |
| StagingModel.LastReadyDecides | backend/internal/files/fetch.go:358-366 | of several ready rows of a message the last listed one decides |
| StagingModel.ScanIsIdempotent | backend/internal/files/fetch.go:337-426 | scanning again changes nothing |
| StagingModel.ScanIsDetermined | backend/internal/files/fetch.go:337-426 | the result does not depend on the order of the scan |
| StagingModel.CutScanKeeps | backend/internal/files/fetch.go:337-426 | a scan cut short anywhere still leaves every ready row its file and every resumable message its bytes |
| StagingModel.CrashAfterRenameRecovers | backend/internal/files/fetch.go:337-426 | a crash between the rename and the ready row is repaired by the scan and the next run without asking anybody |
| StagingModel.StateIs | backend/internal/files/fetch.go:350-371 | the state gathered for a message says exactly what its rows say |
| Staging.Manager.ReconcileStaging | backend/internal/files/fetch.go:337-426 | with names taken in any order the directory is the one result, and at a failure every name is as before or as after |
| Staging.Manager.PutFetch | backend/internal/files/fetch.go:78-113 | each refusal in its own terms: empty or reserved ids, a token in use, one that is ready with its file; otherwise stores the row |
| Staging.Manager.DropStaging | backend/internal/files/fetch.go:290-310 | refused exactly while a fetch of the message is pending or downloading; otherwise removes both files and then the row, which outlives a failed removal |
| Staging.PutKeepsIff | backend/internal/files/fetch.go:78-113 | taking in a fetch keeps the promises if and only if no other token fetches that message |
| Staging.DropKeepsIff | backend/internal/files/fetch.go:290-310 | a drop keeps them if and only if the ready row of the message, if any, is the one dropped |
| Staging.DropCutShortKeepsIff | backend/internal/files/fetch.go:290-310 | a drop cut short by a failed removal keeps them if and only if it had not removed the final file of a ready row |
| Staging.DropCutShort | backend/internal/files/fetch.go:290-310 | a drop cut short that leaves a ready row without its file |
| Kademlia.XorIsXorNat | backend/internal/dht/routing.go:24-30 | xor byte by byte is xor of the 160-bit numbers |
| Kademlia.DistIsMetric | backend/internal/dht/routing.go:24-30 | distance is zero only to oneself, symmetric, and obeys the triangle inequality |
| Kademlia.DistInjective | backend/internal/dht/routing.go:24-30 | different ids lie at different distances |
| Kademlia.Less | backend/internal/dht/routing.go:155-162 | comparing byte by byte is comparing the 160-bit numbers |
| Kademlia.BitLen | backend/internal/dht/routing.go:32-47 | the result is the bit length of the 160-bit number |
| Kademlia.BitLengthIs | backend/internal/dht/routing.go:32-47 | a bit length is at most k exactly for numbers below 2^k |
| Candidates.NearestIs | backend/internal/dht/iter.go:285-300 | what is picked was not asked, and nothing left out lies nearer |
| Candidates.CandidateSet.Place | backend/internal/dht/iter.go:253-257 | bisection finds the first place that is not nearer |
| Candidates.CandidateSet.Add | backend/internal/dht/iter.go:244-265 | takes a new id in at its place and nothing else changes; the set stays strictly sorted with unique ids and the least distance known |
| Candidates.CandidateSet.PickUnqueried | backend/internal/dht/iter.go:285-300 | picks and marks exactly the nearest n not asked yet |
| Lookup.BestItemWins | backend/internal/dht/iter.go:112-129 | the result is the verified item with the highest sequence number of all that came, and of several with that number the first |
| Lookup.TokensAreGranted | backend/internal/dht/iter.go:76-78 | the token kept for an address is the last one it gave, and every address that gave one has one |
| Lookup.AskRound | backend/internal/dht/iter.go:62-134 | one round asks each pick once and marks agree with the log, in any order of answers |
| Lookup.Round | backend/internal/dht/iter.go:43-163 | asks the nearest fifteen not asked before, or all there are, and stops exactly when nobody is left, or when it met nobody nearer and there are enough tokens, or any and few were asked |
| Lookup.Learn | backend/internal/dht/iter.go:80-89 | every node an answer names becomes a candidate, and every new one is offered to the routing table: its address is known there afterwards or there was no room |
| Lookup.IterativeGet | backend/internal/dht/iter.go:27-163 | starts from the nearest known nodes and goes by rounds, each asking the nearest ids not asked before; it ends exactly with the first round that settles it, with nobody left to ask, or after twenty rounds; the result is what the answers add up to |
| Lookup.IterativePut | backend/internal/dht/iter.go:168-220 | sends the item once to every address with its token and counts those that take it; nothing without tokens or for an item that does not verify |
| Routing.RoutingTable.BucketIndex | backend/internal/dht/routing.go:87-95 | bucket k holds distances from 2^k to below 2^(k+1), and the own id has none |
| Routing.RoutingTable.AddNode | backend/internal/dht/routing.go:97-122 | a known address takes the new id, a new one is stored in its bucket unless that is full, each address has one id, and all nodes stay in their own buckets if and only if the new id belongs where it was put |
| Routing.RenameKeepsBucketsIff | backend/internal/dht/routing.go:106-111 | a node renamed in place leaves all nodes in their own buckets if and only if that is the bucket of the new id |
| Routing.MoveMisplacesNode | backend/internal/dht/routing.go:97-122 | two calls after which a node sits in a bucket that is not its own |
| Routing.RoutingTable.ClosestNodes | backend/internal/dht/routing.go:124-147 | gives as many known nodes as asked for, nearest first, and leaves no nearer one out |
| PairWords.DecodeOfEncode | backend/internal/pair/bip39.go:32-67 | decoding encoded words gives the first bits of the entropy, zero-padded |
| PairWords.EncodeOfDecode | backend/internal/pair/bip39.go:32-67 | encoding decoded words gives the lower-cased words |
| PairWords.BitsMakeBytes | backend/internal/pair/bip39.go:97-118 | the bits determine the bytes |
| PairWords.BitsOfNumber | backend/internal/pair/bip39.go:97-107 | the bits read determine the number |
| PairWords.ReadBits | backend/internal/pair/bip39.go:97-107 | reads the bits as a number, highest first |
| PairWords.WriteBits | backend/internal/pair/bip39.go:109-118 | writes exactly the n bits and leaves every other bit |
| PairWords.Words.EncodeWords | backend/internal/pair/bip39.go:32-48 | fails exactly as stated and otherwise answers the word for each eleven bits; a count that is no multiple of eleven may run off the end |
| PairWords.Words.DecodeWords | backend/internal/pair/bip39.go:50-67 | fails exactly as stated and otherwise answers the bytes the words spell |
| PairWords.RoundTrips | backend/internal/pair/bip39.go:32-67 | both round trips through the codec itself, for every positive multiple of eleven bits |
| Framing.WireReadsBack | streams/common/framing.cpp:41-55 | a written frame reads back whole whatever follows; the 16-bit length never wraps up to the largest payload |
| Framing.ReadIsWire | streams/common/framing.cpp:57-79 | only a written frame reads as a frame |
| Framing.StreamReadsBack | streams/common/framing.cpp:57-79 | a concatenation of written frames reads as exactly those frames |
| Framing.ReadersAgree | backend/internal/proxy/frames.go:43-72 | the streamer and the daemon find the same frames, counters and times, and stop at the same places |
| Framing.StopsAre | backend/internal/proxy/frames.go:43-72 | where the readers stop, byte for byte, and why: clean end, broken header, short body, or a length too small |
| Framing.ReadAllIs | streams/common/framing.cpp:58-85 | the frames read are the front of the stream and what follows is no frame; the end is clean exactly when nothing follows and the stream does not end in an error |
| Framing.CopyLosesOnlyTail | backend/internal/proxy/manager.go:283-315 | everything is copied in order except at most one truncated last frame |
| Framing.TruncatedIff | backend/internal/proxy/frames.go:43-72 | a truncated frame is no frame, and not one with too small a length |
| FrameIo.ReadExact | streams/common/framing.cpp:17-27 | reads exactly n bytes from pieces of any size, or says whether the end was clean |
| FrameIo.WriteBe | streams/common/framing.cpp:8-10 | the value in big-endian bytes at its place and nowhere else |
| FrameIo.EncodeFrame | streams/common/framing.cpp:41-55 | writes the frame or, for a payload too long or a buffer too small, nothing |
| FrameIo.ReadFrame | streams/common/framing.cpp:57-79 | reads what the specification of the streamer says |
| FrameIo.ReadWhole | backend/internal/proxy/frames.go:43-72 | reads what the specification of the daemon says |
| FrameIo.CopyFrames | backend/internal/proxy/manager.go:283-315 | writes exactly the bytes to be copied, counts them, and stops short only when a write fails |
| AttemptLimiter.BlockedIsBlind | backend/cmd/haomad/destroy_verify.go:100-130 | during the cool-off the answer does not depend on the proof |
| AttemptLimiter.CheckedIs | backend/cmd/haomad/destroy_verify.go:100-183 | who is answered and how, and what every answer does to the counters |
| AttemptLimiter.RunIsPaced | backend/cmd/haomad/destroy_verify.go:130-157 | whatever the clocks do, failures count modulo three, and from the proof that completes the first round on each full round adds an hour to the readings |
| AttemptLimiter.RoundsTakeTime | backend/cmd/haomad/destroy_verify.go:100-168 | with no assumption on clocks: the last reading lies an hour for each later full round after the one that completed the first |
| AttemptLimiter.WrongProofsTakeTime | backend/cmd/haomad/destroy_verify.go:100-168 | n proofs compared and found wrong span at least 3600*floor((n-1)/3) seconds, less the most a clock reading ages before its lock is held |
| AttemptLimiter.StaleReadingShortensCooloff | backend/cmd/haomad/destroy_verify.go:101-149 | the allowance is needed in full: four wrong proofs with one stale reading |
| AttemptLimiter.EveryRefusalNoticed | backend/internal/store/destroypin.go:82-101 | notices drained and still waiting together are the refusals |
| AttemptLimiter.AttemptStore.CheckDestroyProof | backend/cmd/haomad/destroy_verify.go:100-183 | one check: who is dropped, who is refused unseen, what counts, and what a right proof resets |
| AttemptLimiter.AttemptStore.DrainNotices | backend/internal/store/destroypin.go:82-101 | hands out the waiting notices once |
| Preimages.MacInputDeterminesEnvelope | backend/internal/xport/mac.go:26-53 | the hashed bytes determine all seven fields when every length is below 2^32 |
| Preimages.LongFieldsCollide | backend/internal/xport/mac.go:26-53 | the bound is needed: at 2^32 two different envelopes give the same bytes |
| Preimages.HashState.FeedEnvelope | backend/internal/xport/mac.go:26-53 | the hash is fed exactly those bytes |
| Preimages.SignedBytesDetermineItem | backend/internal/dht/bep44.go:72-81 | the signed buffer determines salt, sequence number and value |
| Preimages.SignBuffer | backend/internal/dht/bep44.go:72-81 | builds exactly that buffer |

## Left out

- HTTP handlers, JSON, Tor control, SOCKS, UDP transport, process start-up and logging: plumbing whose results are parameters.
- Badger, SHA-256, HMAC, Ed25519, Argon2, AES-GCM, libsodium, Opus and VP8: foreign code.
- OutboxStore.Jitter: works on reals, so the rounding of floating-point backoff is not modelled.
- JitterBuffer.Buffer.Pop: samples, rates and the cursor are reals, so IEEE rounding in fades, interpolation and the scaler is not modelled.
- OutboxWorker.Worker.DrainDest: one pass with nobody else at work; passes among other steps are in `OutboxProtocol`. The count of rows in flight, which only a shutdown waits for, is left out.
- OutboxStore.Store.KickWrite: does not model the worker's waking of destinations, which only makes a pass start sooner.
- FrameQueue.Queue.PopBatch: the contract of one call reaches back to the last answer, and `FrameRuns` to the last successful pop; a wait is a list of what other goroutines do meanwhile; the raw tail handed over by closeRaw is not modelled.
- Inbox.Mailbox.HandleMessage: the request and response bodies are given as decoded values; kinds other than text are modelled as far as they touch the inbox.
- inbox List and Count: only read.
- Bencode.Encoder.ReflectValue: integers, strings, lists and string-keyed dictionaries; booleans, structs, pointers and Marshaler dispatch are left out.
- Bencode.Marshal: the same kinds of values.
- Bencode.Unmarshal: covers values without a Go type; reflection into structs and arrays, struct tags and Unmarshaler dispatch are left out.
- Registry TouchPresence, notes of delivery and the sweep of own onions: change fields of a record that are neither addresses of the peer nor in the index.
- RouteBook.RouteBook.Tagged: a tag is a triple instead of its printed text, and the boot part is given.
- RouteBook.RouteBook.StillDue: a state that is absent and the initial state are not told apart.
- CircuitProtocol.AtMostOneDecider: says that the holder of the mark can go on, not that a probe or a sleep ends.
- FetchWorker.Worker.Run: the row's times and error text, progress events and the dial-failure callback are not modelled.
- Staging.Manager.ReconcileStaging: the three counters of the scan and the directory sync are not modelled; entries that are no regular files are outside the model.
- RetryAllFailed and two tokens fetching one message at once: outside the assumptions on fetching.
- Candidates.CandidateSet.Add: candidates are values, so the record shared by the index and the sorted list is not modelled; callers read only its id and address.
- Lookup.IterativeGet: the queries of a round are answered one after the other in any order, and answers carry items already checked.
- Routing.RoutingTable.ClosestNodes: sorts by insertion as a stand-in for the library's sort, of which only order and contents are used.
- FrameIo.ReadExact: retries after an interrupted read are not modelled; an error is the end of the stream in an error.
- PairWords.Words.EncodeWords: the word list and lower-casing are parameters: 2048 different words that lower-casing leaves alone.
- AttemptLimiter.AttemptStore.CheckDestroyProof: the comparison's running time, the intrusion event and store errors are not modelled.
- Pairing over onion services: the handshake does not promise that the inviter has the joiner's data once the joiner's request was answered.
- Platform audio and video backends, streamer main loops, the mobile build, and the log viewer.
