# WireTAP Server, modelled

WireTAP Server carries captured frames from a bus to a gateway database and
promises not to lose, reorder or silently duplicate them through outages,
restarts, migrations and imports. This project models the parts that carry
that promise and proves it, or the exact condition under which it holds.

`dafny verify dfyconfig.toml` checks everything.

| file | what it models |
|---|---|
| `Wrappers.dfy` | values that may be missing, and results that may be failures |
| `Ledger.dfy` | which frames were accepted, in what order, and which were given up |
| `Queue.dfy` | the bounded queue and the ingest listener's back-pressure rule |
| `Cache.dfy`, `Adoption.dfy` | the disk cache and the adoption of an older one |
| `Forward.dfy` | the stop-and-wait link, the gateway's sessions and its log |
| `Batcher.dfy` | the store-and-forward worker over all four |
| `Timestamps.dfy` | microseconds in a binary64 column |
| `Import.dfy` | import-and-swap against held, live and drained ingest |
| `Registry.dfy` | one database's schema state, pool gate and migrations |
| `Rotation.dfy` | password rotation through crashes |
| `Pagination.dfy`, `CursorCodec.dfy` | keyset pagination and its cursor text |
| `ArchiveFormat.dfy`, `ArchiveStream.dfy` | the archive's framing, its writer and its incremental reader |
| `SqlSplit.dfy`, `SqlQuoting.dfy`, `SqlTrim.dfy`, `SqlResplit.dfy` | the SQL script splitter |
| `Assignments.dfy`, `Catalogues.dfy` | catalogue assignment and restarts |
| `Cidr.dfy` | address ranges |

## How the world is modelled

- The worker, the link and the cache are classes, and what is outside them acts
  while they wait. A capture is seen to act where the worker next looks at the
  queue, at the start of each pass among others: before that it changes nothing
  the worker or the gateway can tell. What the outside does is arbitrary:
  captures offer any samples, any gateway session (one of a dropped connection
  too) makes any number of steps or repeats an answer it gave, the disk may be
  full or fail, the stop signal may come at any time. Four budgets (`offers`,
  `passes`, `closes`, `cache.faults`) are arbitrary numbers that bound how
  often, which is what "given finitely many" needs for termination. A gateway
  close past its budget is handled as a failure.
- A frame is named by its position in acceptance order; what an earlier run
  left on disk comes first. The name is the model's own: the program carries
  only the sample.
- Database registry, import and rotation are state machines whose steps are
  single lock sections or transactions; a run is any sequence of them.
- What goes wrong outside the link is counted (`troubles`), and every failure it
  reports comes with one.
- `encode_batch_from` is assumed only to take a non-empty prefix of a non-empty
  input. gzip is any streaming decoder whose output so far is a prefix of its
  final output. The blob hash and the catalogue parser are arbitrary functions;
  the one assumption is that no two blobs with one hash read differently. So are
  the manifest's parser and the COPY that counts a table's rows.
- `buffer_rows`, `drain_pending` and `move_pending` (`crates/wiretap-backend/src/ingest/writer.rs`)
  are one transaction each. `move_pending` copies and leaves its source alone.

## Where the code and what it promises differ

- **Timestamps.** The comment on `to_secs` promises exactness into the 23rd
  century. It holds for |t| < 2^32 s (February 2106) and again from 2^52 us
  (2112) to 2^33 s (2242); in between, timestamps in one residue class are read
  back a microsecond late, the first of them 2^32 s + 11 us. From 2^33 s on
  they come back late or early by residue. The condition is exact up to 2^53 us.
- **Import.** A drain of the target while a replace holds its ingest (the
  startup sweep re-applying a schema, a recheck that became stale, the tail of
  an earlier abandoned import) moves held rows into the database about to be
  replaced, and the swap loses them. Without one, nothing acknowledged is lost.
  A write routed live just before the claim is replaced too.
- **Rotation.** A second rotation after a failed promote stages over the only
  copy of the working password; and a start whose promote failed and which is
  retried in the same process discards it. The condition that separates the
  safe runs is proved exact.
- **Order at the gateway.** A session of a dropped connection may store its
  batch after the client gave the frames up (dropped, or quarantined) and moved
  on. First occurrences are out of order if and only if that happened to a
  frame not stored yet, with a later one there.
- **Batch numbers.** Answers are matched by a 32-bit number. On a connection of
  at most 2^32 batches no stale or repeated answer is taken for a success; on
  one of 2^32 + 1 a repeated one can be. Where none is repeated, none is taken
  at any length.
- **Ingest.** A batch is sure of room behind the refusal threshold if and only if
  it has at most capacity/100 + 1 records. A larger one into a queue that just
  passed, or any one into a queue that closes in the middle, can lose samples
  that were acknowledged.
- **Shutdown.** With the sink still connected the queue is already empty when
  `shutdown_flush` runs, so its write to the sink never carries anything.
- **Adoption.** Its comment promises that nothing is duplicated. A batch is, each
  time its append commits and its delete does not, and only then.
- **Reset.** A reset that fails after letting go of its file leaves the cache on
  a placeholder, where every append fails: what would have been spilled is
  dropped, and counted.
- **Pagination.** The cursor's skip count is 32 bits and is taken to wrap, as it
  does in a build without overflow checks; after 2^32 rows with one
  timestamp the next page is the group's first rows again.
- **Splitter.** A statement that begins with a backslash (one that follows a
  semicolon on the same line) is a meta-command when split again.
- **Catalogues.** A line started with its blob missing can be overtaken by
  another session's store of that blob: it goes on with its fallback while a
  restart would use the gateway's. A failed write of `assignments.json` is not
  retried until an assignment changes.

## Model

| member | source | states |
|---|---|---|
| `Batching.Batcher.Run` | crates/wiretap-server/src/archive.rs:504-573 | From any start, with captures, gateway sessions, disk faults, a full disk and the stop signal coming as they like, the run ends; afterwards nothing is in hand or queued and the counters balance. Unless an answer was repeated and a connection carried more than 2^32 batches, every accepted frame is in the gateway log, the dead letter, the cache or the drop count. Over a perfect disk, delivered then cached is exactly the accepted sequence less the dropped frames, in order; the gateway has first occurrences in accepted order if and only if no given-up frame was stored late, so always where the disk was never full and nothing was quarantined; a frame is stored twice only with an unacknowledged exchange; and a disk that was never full drops nothing. While nothing outside goes wrong, everything is forwarded: the cache ends empty, and reported is every accepted frame less the dropped. Only what was answered as unreadable is in the dead letter |
| `Batching.Batcher.Conservation` | crates/wiretap-server/src/archive.rs:711-763 | The same account in every reachable state: enqueued = (written - recovered) + cached + dropped + in hand + queued, and over a perfect disk delivered ++ cached ++ in hand ++ queued is the accepted sequence less the dropped frames, in order |
| `Batching.Batcher.Loop` | crates/wiretap-server/src/archive.rs:504-570 | The loop ends under a measure once the stop signal is in, with the queue closed, and with the sink gone or the queue empty; without trouble outside it ends only with queue and cache empty |
| `Batching.Batcher.Pass` | crates/wiretap-server/src/archive.rs:505-569 | One pass, beginning with whatever was captured while the last one waited, keeps every invariant; after the stop signal it shrinks what is left to do or uses up a gateway close or a disk fault; the pass that ends the loop leaves the queue closed, and empty unless the sink is gone; without trouble outside that is only when queue and cache are empty |
| `Batching.Batcher.ServeQueue` | crates/wiretap-server/src/archive.rs:545-570 | The queue is served only with the cache empty (or known faulty), so queued frames never overtake cached ones; a pass without trouble delivers something, asks the gateway for a sign of life, or ends with everything delivered |
| `Batching.Batcher.Reach` | crates/wiretap-server/src/archive.rs:511-529 | Connected at the end unless a connection was tried and failed |
| `Batching.Batcher.NextBatch` | crates/wiretap-server/src/archive.rs:662-701 | Up to batch-size frames from the front of the queue; fewer only when the queue ran empty; a stop signal closes the queue |
| `Batching.Batcher.DrainCache` | crates/wiretap-server/src/archive.rs:711-763 | One batch from the oldest cached frames; "nothing cached" is reported only of an empty cache unless the disk failed a read; each success makes progress; the end of a drain leaves a new file |
| `Batching.Batcher.WriteCached` | crates/wiretap-server/src/archive.rs:735-762 | The delivered prefix, and only it, is reported and leaves the cache; a delete that fails leaves it there to be sent again, and marks the books faulty |
| `Batching.Batcher.WriteInHand` | crates/wiretap-server/src/archive.rs:559-569 | Exactly the delivered prefix is reported, and the undelivered suffix stays in hand |
| `Batching.Batcher.Fail` | crates/wiretap-server/src/archive.rs:769-790 | What is in hand goes to disk ahead of the queue behind it, the sink is closed, and false comes back only with the queue closed; a session closed on purpose retries at once and leaves the queue alone |
| `Batching.Batcher.CacheBatch` | crates/wiretap-server/src/archive.rs:794-823 | The frames are appended in order, or all of them are counted dropped and named in the loss set, and the latter only on a full or failing disk or one lost to a failed reset |
| `Batching.Batcher.TakeQueued` | crates/wiretap-server/src/archive.rs:827-832 | Empties the queue behind what is in hand; over a closed queue it takes exactly what was there, in order |
| `Batching.Batcher.DrainQueueToCache` | crates/wiretap-server/src/archive.rs:836-850 | Empties the queue onto disk with every frame kept or counted |
| `Batching.Batcher.SpillIfQueueFilling` | crates/wiretap-server/src/archive.rs:857-871 | From the threshold's share of the queue on, the queue ends empty; below it, or with no threshold, nothing moves |
| `Batching.Batcher.WaitToRetry` | crates/wiretap-server/src/archive.rs:640-658 | Gives up only with the queue closed, and never retries a finished queue or past an unseen stop signal |
| `Batching.Batcher.ShutdownFlush` | crates/wiretap-server/src/archive.rs:875-914 | Leaves nothing in hand or queued, and the sink closed, with the books still balanced |
| `Batching.Batcher.Meanwhile` | crates/wiretap-server/src/archive.rs:187-197 | Any captures, in order, behind what is queued; nothing once the queue is closed; every invariant is kept |
| `Batching.Batcher.GatewayMeanwhile` | crates/wiretap-server/src/archive.rs:894-903 | Gateway sessions going on, those of dropped connections too, keep every invariant and move no frame the worker holds |
| `Batching.Batcher.constructor` | crates/wiretap-server/src/archive.rs:458-502 | A worker over a cache an earlier run filled starts with balanced books |
| `Bookkeeping.Lose` | crates/wiretap-server/src/archive.rs:794-823 | Giving up a run of frames anywhere among those held removes exactly those from the surviving sequence and raises the drop count by their number |
| `Bookkeeping.Deliver` | crates/wiretap-server/src/archive.rs:584-598 | Reporting the oldest frames held moves them from held to delivered and disturbs no order |
| `Bookkeeping.DeliverUnordered` | crates/wiretap-server/src/archive.rs:744-763 | After a disk fault, every accepted frame is still somewhere |
| `Ledger.SurvivorsMember` | crates/wiretap-server/src/archive.rs:504-573 | Both ways: a frame survives exactly when it was accepted, under its own number, and not given up |
| `Ledger.SurvivorsIncreasing` | crates/wiretap-server/src/archive.rs:504-573 | Survivors are in accepted order |
| `Ledger.SurvivorsLose` | crates/wiretap-server/src/archive.rs:794-823 | Survivors after losing a middle run are exactly the two ends |
| `Ledger.SurvivorsCount` | crates/wiretap-server/src/archive.rs:138-152 | Survivors plus losses number what was accepted |
| `Queue.FrameQueue.Enqueue` | crates/wiretap-server/src/archive.rs:187-197 | Appends in order below capacity; counts an overflow at capacity; takes nothing once closed |
| `Queue.FrameQueue.OccupancyPct` | crates/wiretap-server/src/archive.rs:214-229 | At most 100, and 100 exactly of a full queue |
| `Queue.Percent` | crates/wiretap-server/src/archive.rs:214-229 | The integer percentage: pct*cap <= 100*size < (pct+1)*cap |
| `Ingest.RoomBehindThreshold` | crates/wiretap-server/src/ingest.rs:48-48 | A queue under the refusal threshold has room for a batch of n, at every occupancy, if and only if n <= capacity/100 + 1 |
| `Ingest.ALargerBatchOverflows` | crates/wiretap-server/src/ingest.rs:48-48 | At the fullest occupancy that is still let in, a batch over the bound overflows by exactly what it is over |
| `Ingest.ThresholdIs` | crates/wiretap-server/src/ingest.rs:48-48 | The threshold is met exactly from ninety-nine hundredths of the queue on |
| `Ingest.Session.Batch` | crates/wiretap-server/src/ingest.rs:244-274 | An ACK_OK batch of at most capacity/100 + 1 enters in order, whole or up to where the queue was closed; one of any size loses at most what does not fit behind the occupancy it was let in at, and exactly that if the worker takes nothing out meanwhile; a refusal takes nothing in; a serial record is malformed exactly for a session that does not relay raw serial; a batch is refused as overloaded only of a closed queue or one at least ninety-nine hundredths full, and let in only below that |
| `ForwardLink.ForwardSink.SendChunk` | crates/wiretap-server/src/forward.rs:103-160 | Whatever answers come, stale or repeated, a chunk is reported only if this very exchange stored all of it or it was appended to the dead letter, unless an answer was repeated and a connection carried more than 2^32 batches; failing, nothing is reported. A chunk goes out whenever there is a connection, and the answer taken decides: OK delivers, overloaded or refused fails, malformed quarantines or fails, and nothing else does either; a goodbye, and only that, is a closed session |
| `ForwardLink.ForwardSink.Heed` | crates/wiretap-server/src/forward.rs:128-139 | What each answer comes to: for the reported frames, the dead letter and the result |
| `ForwardLink.ForwardSink.WriteBatch` | crates/wiretap-server/src/forward.rs:453-468 | Exactly the first `delivered` frames are reported, in order, and the order invariants hold of the rest; it fails only with trouble outside, and as a closed session only on a goodbye |
| `ForwardLink.ForwardSink.Recv` | crates/wiretap-server/src/forward.rs:316-392 | An answer read was made to an exchange of this connection and carries that exchange's number, or is a refusal numbered zero; a success the client takes for its own is its own, and its chunk is stored whole |
| `ForwardLink.ForwardSink.Quarantine` | crates/wiretap-server/src/forward.rs:145-160 | The chunk is in the dead letter and reported, or nothing changed |
| `ForwardLink.ForwardSink.GatewayRuns` | crates/wiretap-server/src/forward.rs:368-392 | Any number of steps by any gateway sessions, those of dropped connections and repeated answers included, keeps every invariant; the log only grows |
| `ForwardLink.ForwardSink.Connect` | crates/wiretap-server/src/forward.rs:395-442 | A fresh connection delivers no answer to an earlier exchange; it fails only if the way to the gateway does |
| `ForwardLink.ForwardSink.Hangup` | crates/wiretap-server/src/forward.rs:483-489 | After a close no answer is left to be read, the number of exchanges on the connection starts again, and stores under way may still happen |
| `ForwardLink.ForwardSink.KeepAlive` | crates/wiretap-server/src/forward.rs:472-481 | A PING moves no frame, leaves no exchange open and keeps every invariant, whatever answers it meets; it succeeds only on an open connection, having asked and been answered; and it asks whenever the way to the gateway holds |
| `Network.TakenExactly` | crates/wiretap-server/src/forward.rs:118-126 | Of the answers to other exchanges the comparison of numbers takes exactly those a multiple of 2^32 exchanges away |
| `Network.OwnAnswer` | crates/wiretap-server/src/forward.rs:118-129 | So on a connection of at most 2^32 exchanges, a success taken is the exchange's own and its chunk is stored whole |
| `Network.HandleKeepsAlone` | crates/wiretap-server/src/forward.rs:103-142 | Where each batch is answered once, the only answer before the client is its own exchange's, at any number of batches |
| `Network.AnsweredIsIdle` | crates/wiretap-server/src/forward.rs:114-129 | And once it is taken nothing is open on the connection |
| `Network.AWrappedAnswerIsTaken` | crates/wiretap-server/src/forward.rs:107-126 | And on one of 2^32 + 1 the first answer, repeated, is taken for a batch nobody stored |
| `Network.HandleKeepsAnswers` | crates/wiretap-server/src/forward.rs:368-392 | Every answer a connection can deliver was made to one of its own exchanges, after that was read, and is numbered as it was |
| `Network.SendStartsExchange` | crates/wiretap-server/src/forward.rs:107-113 | A new exchange has a number of its own and no answer yet |
| `Network.HandleKeepsAwaiting` | crates/wiretap-server/src/forward.rs:103-142 | Every answer on the wire is true of the exchange it answers, however gateway sessions interleave |
| `Network.HandleKeepsOrderly` | crates/wiretap-server/src/forward.rs:453-468 | However late a session acts, frames held are stored already or come after all that is stored, and first occurrences are in accepted order exactly as long as no given-up frame was stored late |
| `Network.HandleKeepsOnce` | crates/wiretap-server/src/forward.rs:103-142 | No frame is stored twice by acknowledged exchanges |
| `Network.HandleKeepsReported` | crates/wiretap-server/src/forward.rs:103-142 | Every reported frame stays in the log or the dead letter |
| `Network.HandleKeepsNumbered` | crates/wiretap-server/src/forward.rs:103-142 | Each exchange is read at most once and stores no frame twice |
| `Network.StoreKeepsFirsts` | crates/wiretap-server/src/forward.rs:453-468 | Storing a chunk leaves first occurrences in order if and only if they were, and each of its frames is stored already or later than all that is |
| `Network.OnlyForgoneStraggle` | crates/wiretap-server/src/forward.rs:453-468 | A frame is stored late if and only if the client had given it up: one it still holds, or has reported, never is |
| `Network.SendKeepsOrderly` | crates/wiretap-server/src/forward.rs:453-468 | Sending the head of what is held, again or for the first time, keeps the order invariants |
| `Network.ReportKeepsOrderly` | crates/wiretap-server/src/forward.rs:453-468 | Moving a stored or quarantined head from held to reported keeps them |
| `Network.ConfirmKeepsOnce` | crates/wiretap-server/src/forward.rs:128-129 | An acknowledged exchange repeats nothing an earlier acknowledged one stored |
| `Network.ForgoKeepsOrderly` | crates/wiretap-server/src/archive.rs:794-823 | Dropping held frames keeps the order invariants of what is left |
| `Network.AStragglerReorders` | crates/wiretap-server/src/forward.rs:483-489 | Such a run: a batch on a dropped connection, its frames then dropped, is stored after a later one |
| `Cache.SqliteCache.Append` | crates/wiretap-server/src/cache.rs:347-411 | Appends the frames in order in one transaction, or changes nothing; the tracked count equals the table; on a placeholder it always fails |
| `Cache.SqliteCache.Oldest` | crates/wiretap-server/src/cache.rs:418-493 | A prefix of insertion order, of the limit's length or the whole table; a row that does not decode fails the read |
| `Cache.SqliteCache.Remove` | crates/wiretap-server/src/cache.rs:495-512 | Deletes by id; given the oldest rows it leaves exactly the rest in order; the count follows |
| `Cache.SqliteCache.Reset` | crates/wiretap-server/src/cache.rs:540-549 | An empty file, or a failure that changed nothing, or one that left the cache on a placeholder with the old file there or gone |
| `Cache.SqliteCache.TakeOver` | crates/wiretap-server/src/cache.rs:191-213 | The whole table changes hands or none of it does, whichever step fails; a failure leaves the cache on a placeholder |
| `Cache.SqliteCache.Adopt` | crates/wiretap-server/src/cache.rs:141-188 | One start: batches move in order until the source is empty or something fails, and only the last can be left in both files; into an empty cache a rename is tried first, and files with nothing wrong are adopted |
| `Cache.SqliteCache.AdoptOverStarts` | crates/wiretap-server/src/cache.rs:141-188 | Over any number of starts every legacy frame arrives in its order, at most ADOPT_BATCH are in both files at the end, and at most one batch a start is left undeleted |
| `Cache.SqliteCache.MoveBatch` | crates/wiretap-server/src/cache.rs:167-175 | A batch is copied before it is removed, and is in both files afterwards exactly when its append was made and its delete was not |
| `Adoption.AdoptionKeepsOrder` | crates/wiretap-server/src/cache.rs:141-178 | Whatever fails and however often it is begun again, first occurrences arrive in order, no frame is in neither file, and one batch at most is in both |
| `Adoption.RepeatedExactly` | crates/wiretap-server/src/cache.rs:167-175 | The two files hold every frame once, and once more for each stored and not deleted; without those, both in order are what they were |
| `Adoption.NoneRepeated` | crates/wiretap-server/src/cache.rs:167-175 | Nothing is repeated if and only if every delete that failed had nothing to delete |
| `Adoption.ABatchArrivesTwice` | crates/wiretap-server/src/cache.rs:167-175 | A failed delete and a second start bring the same frames twice |
| `Cache.DeletingTheOldest` | crates/wiretap-server/src/cache.rs:495-512 | Deleting the ids of the oldest k rows leaves exactly the rows after them |
| `Timestamps.RoundTrip` | crates/wiretap-server/src/cache.rs:331-344 | For every \|t\| < 2^53 us: from_secs(to_secs(t)) is t, except t+1 or t-1 exactly on the residues that `Slip` names |
| `Timestamps.ExactUntil2106` | crates/wiretap-server/src/cache.rs:331-344 | Exact for every \|t\| < 2^32 s |
| `Timestamps.FirstMisread` | crates/wiretap-server/src/cache.rs:331-344 | The first misread timestamp is 2^32 s + 11 us, and it comes back one microsecond late |
| `Timestamps.PastSecs33` | crates/wiretap-server/src/cache.rs:331-344 | One microsecond past 2^33 s is misread |
| `Timestamps.RelativeError` | crates/wiretap-server/src/cache.rs:338-344 | A binary64 rounding is off by at most 2^-53 of its value |
| `Timestamps.HalfUlp` | crates/wiretap-server/src/cache.rs:338-344 | And by at most half a unit in the last place |
| `Timestamps.NearestIsClosest` | crates/wiretap-server/src/cache.rs:338-344 | The modelled rounding is to the nearest value, as section 4.3.1 of IEEE 754-2019 requires |
| `Timestamps.BelowTwo51` | crates/wiretap-server/src/cache.rs:338-344 | Exact below 2^51 us, by relative error alone |
| `Timestamps.BelowSecs32` | crates/wiretap-server/src/cache.rs:338-344 | Exact from 2^51 us to 2^32 s, by the grid of 2^-21 s |
| `Timestamps.BelowTwo52` | crates/wiretap-server/src/cache.rs:338-344 | From 2^32 s to 2^52 us: t+1 exactly where the seconds rounded up by more than a quarter of a microsecond, else t |
| `Timestamps.BelowSecs33` | crates/wiretap-server/src/cache.rs:338-344 | Exact from 2^52 us to 2^33 s, where the second rounding is to whole microseconds |
| `Timestamps.Drift` | crates/wiretap-server/src/cache.rs:338-344 | What the division adds above 2^32 s, exactly, as a residue of t |
| `Timestamps.FarDrift` | crates/wiretap-server/src/cache.rs:338-344 | What the division adds from 2^33 s on, exactly, as a residue of t |
| `Timestamps.BelowTwo53` | crates/wiretap-server/src/cache.rs:338-344 | From 2^33 s to 2^53 us: t, t+1 or t-1, exactly by that residue and, on a tie, by whether t is odd |
| `Import.HeldExactlyOnce` | crates/wiretap-backend/src/db.rs:1220-1393 | Over every interleaving: a batch acknowledged while an import held ingest is in the serving database exactly once, live or buffered, unless the rename committed after another drain had moved it out of the buffer |
| `Import.LostExactly` | crates/wiretap-backend/src/db.rs:1220-1393 | Over every interleaving: an acknowledged batch is lost if and only if the rename committed and another drain of the target ran while its ingest was held, the batch acknowledged by then; otherwise it is there exactly once |
| `Import.LoadedExactlyOnce` | crates/wiretap-backend/src/db.rs:1297-1352 | A row loaded from the archive is in the database that has the name exactly once if the rename committed, and otherwise not at all |
| `Import.AnImportSwapsIn` | crates/wiretap-backend/src/db.rs:1220-1352 | An import nothing disturbs ends with its row and a batch held meanwhile served, each once |
| `Import.AnImportIsAbandoned` | crates/wiretap-backend/src/db.rs:1358-1393 | One that fails ends with the batch held meanwhile served by the original |
| `Import.UndisturbedLosesNothing` | crates/wiretap-backend/src/db.rs:1220-1393 | Where no other drain of the target runs while its ingest is held, every acknowledged batch ends exactly once in the imported database if the rename committed, else in the original |
| `Import.ADrainThenASwapLoses` | crates/wiretap-backend/src/db.rs:374-388 | Such a run, from any state that holds ingest: one drain, then a swap |
| `Import.AHeldBatch` | crates/wiretap-backend/src/db.rs:502-538 | The state the converse needs is four events from a fresh start |
| `Import.AbandonedKeepsHeld` | crates/wiretap-backend/src/db.rs:1358-1393 | After an abandoned import each acknowledged batch is live, or buffered with the database marked for a drain |
| `Import.NoneAcceptedOnceShut` | crates/wiretap-backend/src/db.rs:502-538 | No held write is acknowledged after the gate is set |
| `Import.NextKeepsInv` | crates/wiretap-backend/src/db.rs:502-538 | Every event of writers, import, drains and crashes keeps the invariant: each acknowledged batch once, in the database that serves it |
| `Import.BufferKeepsInv` | crates/wiretap-backend/src/ingest/writer.rs:218-274 | A buffered insert, acknowledged, committed unheard or refused, keeps it |
| `Import.MoveKeepsInv` | crates/wiretap-backend/src/ingest/writer.rs:345-373 | The copy into staging, made or failed, keeps it |
| `Import.RenameKeepsInv` | crates/wiretap-backend/src/db.rs:1321-1352 | A rename, committed with its reply or without, or not at all, keeps it |
| `Import.DrainKeepsInv` | crates/wiretap-backend/src/ingest/writer.rs:305-343 | A drain keeps it |
| `Import.AbandonKeepsInv` | crates/wiretap-backend/src/db.rs:1358-1393 | Abandoning, with its own drain made or failed, keeps it |
| `Import.CrashKeepsInv` | crates/wiretap-backend/src/db.rs:1469-1499 | A crash at any point keeps it |
| `Import.ALiveWriteIsReplaced` | crates/wiretap-backend/src/db.rs:502-538 | A write routed live just before the claim is replaced with the old database |
| `Registry.PoolImpliesCurrent` | crates/wiretap-backend/src/db.rs:308-325 | Over every interleaving of state changes, migrations, sweeps, rechecks, retries, evictions and pool requests, a cached capture pool means the database is labelled Current, and that label means the database itself is at the current schema |
| `Registry.OneMigration` | crates/wiretap-backend/src/db.rs:374-388 | At most one migration of a database is under way |
| `Registry.PoolAppearsOnlyWhenCurrent` | crates/wiretap-backend/src/db.rs:1085-1125 | A pool is cached only by a request that found the database Current under the pool lock |
| `Registry.MigrationDecides` | crates/wiretap-backend/src/db.rs:453-480 | A migration whose work succeeds leaves the database Current and up to date, one whose work fails leaves it Failed and its pool evicted, and either gives its lock back |
| `Registry.MigrationMarks` | crates/wiretap-backend/src/db.rs:390-408 | One that finds the database behind marks it Migrating and evicts its pool first; one that finds it current does not |
| `Registry.StartDecides` | crates/wiretap-backend/src/db.rs:698-736 | An operator's start claims a database that is behind, failed or unknown, and is refused one that is current or migrating |
| `Registry.RecheckDecides` | crates/wiretap-backend/src/db.rs:738-771 | A recheck labels a database by what it is |
| `Registry.RecheckSkips` | crates/wiretap-backend/src/db.rs:738-752 | And leaves alone a current or migrating one, and a failed or unknown one until it is due |
| `Registry.SweepDecides` | crates/wiretap-backend/src/db.rs:595-622 | The sweep labels by what it finds: failed, current with no buffer left, or pending |
| `Registry.PoolRequestDecides` | crates/wiretap-backend/src/db.rs:1115-1125 | A pool request of a current database gets one; of any other it lets the lock go |
| `Registry.RequestRetries` | crates/wiretap-backend/src/db.rs:1127-1171 | A request that finds a failed database due claims it and sets a migration going |
| `Registry.NextKeepsInv` | crates/wiretap-backend/src/db.rs:698-771 | Every lock section of every task, and an eviction, keeps the gate's invariant: a pool only with Current, locks with the tasks that hold them |
| `Registry.SetKeepsInv` | crates/wiretap-backend/src/db.rs:308-325 | The two lock sections of a state change keep it |
| `Registry.PoolKeepsInv` | crates/wiretap-backend/src/db.rs:1115-1171 | The lock sections of a pool request, and the retry it may start, keep it |
| `Registry.StartKeepsInv` | crates/wiretap-backend/src/db.rs:698-736 | The lock sections of an operator's migration start keep it |
| `Registry.RecheckKeepsInv` | crates/wiretap-backend/src/db.rs:738-771 | The lock sections of a recheck keep it |
| `Registry.MigrateKeepsInv` | crates/wiretap-backend/src/db.rs:374-481 | The lock sections of a migration keep it |
| `Rotation.RecoverableExactlyWhenGuarded` | crates/wiretap-backend/src/db.rs:927-1003 | Over any run of rotations, lost ALTER ROLE replies, failed promotions, retried starts and crashes, the next start can get in after every step if and only if, at each step that stages over or discards a staged password, the file held the password in memory |
| `Rotation.StepRecoverable` | crates/wiretap-backend/src/db.rs:927-1003 | The same for one step, both ways |
| `Rotation.PromotingRunRecoverable` | crates/wiretap-backend/src/db.rs:960-1003 | Where promotions succeed, no crash and no lost reply ever locks the gateway out |
| `Rotation.PromotingRunGuarded` | crates/wiretap-backend/src/db.rs:960-1003 | Such runs meet the condition by themselves |
| `Rotation.RotationTakes` | crates/wiretap-backend/src/db.rs:960-1003 | A rotation that goes through changes the role's password, the file's and the one in memory |
| `Rotation.RotationFails` | crates/wiretap-backend/src/db.rs:960-1003 | One PostgreSQL refuses leaves the old in force; one whose reply is lost, the new, with the staged file to tell |
| `Rotation.StartRecovers` | crates/wiretap-backend/src/db.rs:927-958 | From any recoverable state the next start connects and leaves the file and the role equal, with nothing staged |
| `Rotation.SecondRotationAfterFailedPromote` | crates/wiretap-backend/src/db.rs:960-1003 | A second rotation after a failed promote, stopped before ALTER ROLE, locks the gateway out |
| `Rotation.RetriedStartDiscards` | crates/wiretap-backend/src/db.rs:927-958 | A start whose promote fails and that is retried in the same process discards the only copy of the working password |
| `Pagination.FetchIsComplete` | crates/wiretap-backend/src/sql.rs:832-915 | Following next_cursor over a table that grows only above the cursor gives out, page by page, exactly the rows after the start point, each once and in order |
| `Pagination.FollowingYieldsTheTable` | crates/wiretap-backend/src/sql.rs:832-915 | From the start, the rows given out when the last page says so are the table, no more and no less |
| `Pagination.FetchEnds` | crates/wiretap-backend/src/sql.rs:832-915 | However rows are added above the cursor at first, once additions stop the following ends, for every limit >= 1 and any ties |
| `Pagination.FollowingEndsWithTheTable` | crates/wiretap-backend/src/sql.rs:832-915 | And from the start it ends with every row of the table it ends on, once and in order |
| `Pagination.PageStep` | crates/wiretap-backend/src/sql.rs:855-909 | One page is the next rows from where the cursor stands, and its cursor stands right after them; no cursor exactly on the last page |
| `Pagination.PlaceKeptExactly` | crates/wiretap-backend/src/sql.rs:893-909 | A page's cursor keeps its place if and only if fewer than 2^32 rows share its timestamp up to there |
| `Pagination.NextPageBegins` | crates/wiretap-backend/src/sql.rs:848-909 | Whatever the ties, the next page begins as many rows into the last timestamp's group as its place there modulo 2^32 |
| `Pagination.AFullGroupRepeats` | crates/wiretap-backend/src/sql.rs:893-909 | So after exactly 2^32 rows of one timestamp the next page is the group's first rows again |
| `Pagination.CursorStands` | crates/wiretap-backend/src/sql.rs:893-909 | The tie count carried across pages of one timestamp is the place in the group |
| `Pagination.SelectedRows` | crates/wiretap-backend/src/sql.rs:848-865 | The rows queried less those skipped start exactly at the cursor's place |
| `Pagination.GrowsKeepsPlace` | crates/wiretap-backend/src/sql.rs:848-865 | Rows added above the cursor's timestamp do not move its place |
| `Pagination.TiesCount` | crates/wiretap-backend/src/sql.rs:897-901 | The trailing ties of a page, counted against the whole table |
| `CursorCodec.CursorRoundTrip` | crates/wiretap-backend/src/sql.rs:813-827 | decode_cursor(encode_cursor(ts, skip)) is (ts, skip) for every i64 and u32 |
| `CursorCodec.CursorsDistinct` | crates/wiretap-backend/src/sql.rs:813-815 | No two positions share a cursor |
| `CursorCodec.CursorTextRead` | crates/wiretap-backend/src/sql.rs:817-827 | Only base64url of a signed number, a colon and an unsigned number is read, each within its type |
| `CursorCodec.ColonIsFirst` | crates/wiretap-backend/src/sql.rs:817-827 | The colon taken is the first there is |
| `CursorCodec.PlusRead` | crates/wiretap-backend/src/sql.rs:817-827 | A leading plus is read past |
| `CursorCodec.PrintParse` | crates/wiretap-backend/src/sql.rs:817-827 | Every printed i64 parses back and holds no colon |
| `Base64Url.DecodeEncode` | crates/wiretap-backend/src/sql.rs:813-827 | Unpadded base64url (section 5 of RFC 4648) decodes what it encoded |
| `Base64Url.EncodeDecode` | crates/wiretap-backend/src/sql.rs:817-819 | And accepts only the encoding of what it decodes to |
| `Base64Url.AlphabetInOrder` | crates/wiretap-backend/src/sql.rs:813-815 | The symbols are those of section 5 of RFC 4648, in its order |
| `Base64Url.SymbolWeights` | crates/wiretap-backend/src/sql.rs:813-815 | Three bytes are four symbols, most significant bits first |
| `ArchiveReader.Reader.Load` | crates/wiretap-backend/src/archive.rs:435-500 | Whatever chunks the upload comes in, the reader accepts exactly the archive the whole upload holds, if its manifest is of this schema and layout and every table loads the rows it says, and otherwise nothing |
| `ArchiveReader.Reader.LoadTable` | crates/wiretap-backend/src/archive.rs:470-496 | One table's sections, up to the empty one, exactly as the whole stream has them |
| `ArchiveReader.Reader.Section` | crates/wiretap-backend/src/archive.rs:425-432 | A section is read if and only if the rest of the stream begins with one within bounds |
| `ArchiveReader.Reader.Take` | crates/wiretap-backend/src/archive.rs:416-423 | The next n bytes if and only if that many are left, wherever chunks and decoder output break |
| `ArchiveReader.Reader.Fill` | crates/wiretap-backend/src/archive.rs:351-366 | More decoded bytes, or the true end, or an upload no reader could accept |
| `ArchiveReader.Reader.Receive` | crates/wiretap-backend/src/archive.rs:368-392 | A chunk or the end; a refusal only of an upload no reader could accept |
| `ArchiveReader.Reader.NextChunk` | crates/wiretap-backend/src/archive.rs:368-406 | The header is checked on as much of it as has arrived, and a refusal is final |
| `ArchiveReader.Reader.Finished` | crates/wiretap-backend/src/archive.rs:496-499 | Accepted as over if and only if nothing is left, decoded already or still to come |
| `ArchiveReader.WrittenIsUploaded` | crates/wiretap-backend/src/archive.rs:210-303 | A written archive, uploaded in any chunks, is accepted as what was written, manifest and rows |
| `ArchiveReader.AcceptedHoldsItsRows` | crates/wiretap-backend/src/archive.rs:435-500 | Whatever is accepted is at this schema version, has its tables by name and columns in order, loads in each exactly the rows its manifest says, and is a stream that is exactly their writing |
| `ArchiveReader.MiscountedIsRefused` | crates/wiretap-backend/src/archive.rs:488-494 | A table that loads any other number of rows, or fails to load, refuses the archive |
| `ArchiveReader.NoPartIsUploaded` | crates/wiretap-backend/src/archive.rs:470-500 | No accepted stream is a proper part of another |
| `ArchiveFormat.ArchiveRoundTrip` | crates/wiretap-backend/src/archive.rs:254-303 | Every archive written is read back, section for section |
| `ArchiveFormat.AcceptedIsWritten` | crates/wiretap-backend/src/archive.rs:425-500 | Whatever is accepted is exactly the writing of what it is read as |
| `ArchiveFormat.PrefixFree` | crates/wiretap-backend/src/archive.rs:470-500 | No proper prefix and no extension of an accepted stream is accepted |
| `ArchiveFormat.BigEndianRoundTrip` | crates/wiretap-backend/src/archive.rs:287-297 | Section lengths survive their four bytes |
| `ArchiveFormat.LengthWeights` | crates/wiretap-backend/src/archive.rs:287-297 | A section is its length in four bytes, heaviest first, then its bytes |
| `ArchiveFormat.FromBigEndianRoundTrip` | crates/wiretap-backend/src/archive.rs:425-432 | And no other four bytes mean the same length |
| `ArchiveWriter.WriteTable` | crates/wiretap-backend/src/archive.rs:254-277 | The sections joined are the rows joined, and only the last is short; when each row is at most MAX_CHUNK - PIECE none exceeds MAX_CHUNK and the reader gets the rows back |
| `SqlSplit.SplitStatements` | crates/wiretap-backend/src/schema.rs:404-500 | The character loop computes the split defined by tokens |
| `SqlSplit.TokensRebuild` | crates/wiretap-backend/src/schema.rs:404-500 | Kept text, dropped comments and meta-command lines, and cut semicolons rebuild the input, for every input |
| `SqlSplit.SplitCollects` | crates/wiretap-backend/src/schema.rs:404-500 | The statements are exactly the kept text between cuts, trimmed, blanks left out |
| `SqlSplit.CutStays` | crates/wiretap-backend/src/schema.rs:485-491 | A cut is a semicolon at top level |
| `SqlQuoting.StringWhole` | crates/wiretap-backend/src/schema.rs:437-443 | A quoted string is kept whole, whatever semicolons, dashes, dollars or backslashes are in it |
| `SqlQuoting.DollarBodyWhole` | crates/wiretap-backend/src/schema.rs:425-436 | A dollar-quoted body is kept whole up to the first repeat of its own tag, for every tag and body |
| `SqlQuoting.CommentDropped` | crates/wiretap-backend/src/schema.rs:418-424 | Of a line comment only its newline is kept |
| `SqlQuoting.MetaCommandDropped` | crates/wiretap-backend/src/schema.rs:444-451 | A backslash that opens a line drops that line and no more |
| `SqlQuoting.SemicolonCuts` | crates/wiretap-backend/src/schema.rs:485-491 | A semicolon at top level ends the statement, and the next starts in the middle of a line |
| `SqlTrim.WhitespaceIsBlank` | crates/wiretap-backend/src/schema.rs:452-456 | What counts as whitespace is exactly the 25 code points with the Unicode property White_Space |
| `SqlTrim.EmitSlices` | crates/wiretap-backend/src/schema.rs:485-491 | A statement is its segment from the first to the last character that is not one of those; nothing else is removed |
| `SqlTrim.EmitsNothingExactly` | crates/wiretap-backend/src/schema.rs:485-491 | A segment gives no statement exactly when it is all blank |
| `SqlTrim.PlainTextSplitsToItself` | crates/wiretap-backend/src/schema.rs:404-500 | Printable ASCII without quotes, dashes, dollars, semicolons or backslashes, and no space at either end, splits to itself |
| `SqlTrim.NamedBodyWhole` | crates/wiretap-backend/src/schema.rs:463-481 | A body between tags of letters, digits and underscores, by code point, passes whole |
| `SqlTrim.NotAnOpener` | crates/wiretap-backend/src/schema.rs:463-483 | A dollar whose name runs into any other character opens nothing |
| `SqlTrim.IndentedMetaCommandDropped` | crates/wiretap-backend/src/schema.rs:444-456 | A meta-command behind any indent is dropped, and its indent stays |
| `SqlTrim.MidLineBackslashKept` | crates/wiretap-backend/src/schema.rs:444-456 | In the middle of a line a backslash is kept |
| `SqlTrim.LoneDashKept` | crates/wiretap-backend/src/schema.rs:458-458 | A dash with none after it is kept |
| `SqlTrim.NewlineOpensLine` | crates/wiretap-backend/src/schema.rs:452-456 | A newline opens a line |
| `SqlTrim.BlankKeepsLine` | crates/wiretap-backend/src/schema.rs:452-456 | Any other blank leaves the line as it was |
| `SqlTrim.PlainClosesLine` | crates/wiretap-backend/src/schema.rs:452-456 | Anything plain closes it |
| `SqlTrim.UnclosedString` | crates/wiretap-backend/src/schema.rs:437-443 | A string never closed is kept to the end, uncut |
| `SqlTrim.UnclosedComment` | crates/wiretap-backend/src/schema.rs:416-424 | A comment never ended drops all that is left |
| `SqlTrim.UnclosedDollars` | crates/wiretap-backend/src/schema.rs:425-436 | A dollar-quoted body never closed is kept to the end, uncut |
| `SqlResplit.SplitAgain` | crates/wiretap-backend/src/schema.rs:404-500 | Statements joined with ";\n" split back into themselves if and only if none begins with a backslash |
| `SqlResplit.SplitYieldsStatements` | crates/wiretap-backend/src/schema.rs:404-500 | Every statement but the last closes all its quotes: no cut falls inside a quoted or dollar-quoted body |
| `SqlResplit.Relex` | crates/wiretap-backend/src/schema.rs:421-491 | The text kept from a segment scans again as it did in the script, token for token |
| `SqlResplit.SplitJoin` | crates/wiretap-backend/src/schema.rs:404-500 | Any closed statements without a leading backslash survive joining and splitting |
| `SqlResplit.JoinLoses` | crates/wiretap-backend/src/schema.rs:444-451 | One that begins with a backslash never does |
| `SqlResplit.SegmentIsStatement` | crates/wiretap-backend/src/schema.rs:404-500 | A trimmed segment is clean wherever it starts, and closed if a cut ended it |
| `SqlResplit.KeptBeforeCut` | crates/wiretap-backend/src/schema.rs:485-491 | A semicolon put after a clean statement ends it and nothing else |
| `SqlResplit.NotEveryScriptSplitsAgain` | crates/wiretap-backend/src/schema.rs:444-451 | A script whose backslash follows a semicolon on its line yields such a statement |
| `Assignments.RestartExactly` | crates/wiretap-server/src/catalogues.rs:132-173 | After any run whose writes succeed, a restart frames a line as before if and only if it was not overtaken: remembered at the start with an unusable blob that another session has stored since, with no update of its own |
| `Assignments.RestartFramesAsBefore` | crates/wiretap-server/src/catalogues.rs:132-173 | Where every remembered blob was usable at the start, the whole site comes back |
| `Assignments.ALineIsOvertaken` | crates/wiretap-server/src/catalogues.rs:153-173 | A run that overtakes a line |
| `Assignments.InForceMeansRemembered` | crates/wiretap-server/src/catalogues.rs:239-283 | Gateway rules in force mean that hash is remembered and cached as those rules; nothing remembered means the /etc-or-none fallback |
| `Assignments.UnassignedUsesEtc` | crates/wiretap-server/src/catalogues.rs:99-101 | A line with nothing remembered has its /etc catalogue, or no rules if it has none |
| `Assignments.CheckedExactly` | crates/wiretap-server/src/catalogues.rs:298-307 | A blob is usable exactly when it hashes to its name and parses; a mismatch is reported before a parse failure |
| `Assignments.StoredBlobsHash` | crates/wiretap-server/src/catalogues.rs:226-235 | Every blob a run put into the cache hashes to the name it is kept under, and parses |
| `Assignments.NothingWithoutADirectory` | crates/wiretap-server/src/catalogues.rs:212-216 | Without a state directory nothing is ever remembered |
| `Assignments.SessionsCommute` | crates/wiretap-server/src/catalogues.rs:204-283 | Updates from sessions owning different databases commute |
| `Assignments.SessionsCommuteOnDisk` | crates/wiretap-server/src/catalogues.rs:239-283 | And leave the same file in either order |
| `Assignments.ApplyTwice` | crates/wiretap-server/src/catalogues.rs:239-283 | Applying what is in force changes nothing |
| `Assignments.FailedWriteIsNotRetried` | crates/wiretap-server/src/catalogues.rs:274-282 | An assignment the file missed is not written by the same updates applied again |
| `Assignments.ApplyIsPerLine` | crates/wiretap-server/src/catalogues.rs:239-283 | A line depends on its own updates alone; unknown interfaces are passed over |
| `Assignments.TicksExactly` | crates/wiretap-server/src/catalogues.rs:247-273 | With each line named once, sessions are told exactly when a line's rules or refusal changed |
| `Assignments.BackedStays` | crates/wiretap-server/src/catalogues.rs:218-235 | What is cached stays cached, so an update prepared before others' steps is still backed when applied |
| `Assignments.CacheGrows` | crates/wiretap-server/src/catalogues.rs:226-235 | A hash is usable at the end exactly when it was at the start or a store kept it |
| `Assignments.FileInStep` | crates/wiretap-server/src/catalogues.rs:274-282 | While writes succeed the file says what memory does |
| `Catalogues.Catalogues.Apply` | crates/wiretap-server/src/catalogues.rs:239-283 | The new memory and file are those of the update step, and sessions are told exactly when it says so |
| `Catalogues.Catalogues.StoreBlob` | crates/wiretap-server/src/catalogues.rs:226-235 | A blob is kept only if it hashes to its name and parses; a mismatch, a parse failure and a cache that cannot be written are each refused as what they are |
| `Catalogues.Catalogues.Pull` | crates/wiretap-server/src/forward.rs:215-243 | With other sessions going on all the while: each line of the database is cleared, framed by the assigned catalogue, or left as it was with the refusal noted; other lines are as the others left them; sessions are told exactly if something changed; the whole is a possible run; a catalogue that is cached already is framed with |
| `Catalogues.Catalogues.Obtain` | crates/wiretap-server/src/forward.rs:245-260 | A catalogue handed back is the one cached under that hash, whatever other sessions did meanwhile, and everything backed before still is; one that is cached is not asked for |
| `Catalogues.Catalogues.Others` | crates/wiretap-server/src/catalogues.rs:204-283 | Other sessions' stores and updates leave this database's lines alone and what the cache backs backed |
| `Catalogues.Catalogues.constructor` | crates/wiretap-server/src/catalogues.rs:132-151 | A start rebuilds memory from the state directory |
| `Catalogues.StartingRules` | crates/wiretap-server/src/catalogues.rs:138-151 | Every line gets the rules its remembered hash and the cached blobs give it |
| `Cidr.ContainsIsInterval` | crates/wiretap-server/src/cidr.rs:28-50 | A range contains a peer exactly when the canonical peer is of its family and in [network, network + 2^host - 1] (section 3.1 of RFC 4632), for every prefix from 0 |
| `Cidr.MappedIsV4` | crates/wiretap-server/src/cidr.rs:28-34 | A mapped peer is matched exactly as the IPv4 peer it maps |
| `Cidr.UnmappedIsItself` | crates/wiretap-server/src/cidr.rs:28-41 | Any other IPv6 peer is matched by its own bits, and by no IPv4 range |
| `Cidr.ParseAccepts` | crates/wiretap-server/src/cidr.rs:53-82 | Parsing accepts exactly unmapped networks with zero host bits and a prefix within the width; a refusal for host bits names the network that holds the address |
| `Cidr.NestedOrDisjoint` | crates/wiretap-server/src/cidr.rs:28-50 | Any two ranges of one family are nested or disjoint |
| `Cidr.Masked` | crates/wiretap-server/src/cidr.rs:43-50 | Masking rounds down to a multiple of the range's size, at any prefix |
| `Cidr.CanonicalAddress` | crates/wiretap-server/src/cidr.rs:28-41 | A canonical peer is an address and no longer mapped (section 2.5.5.2 of RFC 4291) |

## Left out

- Batching.Batcher: batch timing, backoff durations, the periodic stats line and log thresholds; the spill ratio is compared in exact reals, not binary64.
- Batching.Batcher.Run: the source's one `dropped` counter is two here, queue overflows (`FrameQueue.overflowed`) and cache drops; nothing is promised of where frames are once an answer was repeated and a connection has carried more than 2^32 batches.
- Batching.Batcher.ConnectSink: the handshake itself, the v2 fallback and the settings it checks; only its outcome.
- Cache.SqliteCache.Append: how a sample is encoded in a row; the timestamp column is treated on its own in `Timestamps`.
- Timestamps.RoundTrip: |t| of 2^53 us and more, where the integer itself no longer fits a binary64.
- Pagination.FetchIsComplete: PostgreSQL's own conversions between timestamps and float8; the time and protocol filters, which only narrow the table.
- ArchiveReader.Reader.Load: the manifest's JSON and the COPY into PostgreSQL, which are parameters; the manifest's fields that are not checked.
- ArchiveWriter.WriteTable: the compression of the sections and the sends to the client.
- Rotation.StepRecoverable: a rotation with no password file, and a promote whose directory sync failed.
- Registry.PoolImpliesCurrent: a schema taken back by hand; a database only ever goes forward.
- Registry.NextKeepsInv: deleting a database; several databases at once, which share no per-database state.
- Import.NextKeepsInv: an import into a new name, which holds no ingest; the Registry's states, which it meets only through `marked`.
- Import, Registry and Rotation are step functions on values rather than classes: their steps interleave, and no object is shared but the state itself.
- Assignments.RestartExactly: blobs altered on disk by others, and `assignments.json` unreadable for a while; a file that does not parse counts as empty.
- CursorCodec.CursorRoundTrip: non-ASCII text under the base64 is refused one step earlier than UTF-8 would refuse it.
- Cidr.ParseAccepts: the text of addresses, which the standard library parses; the prefix is a number, missing or unreadable.
- Sockets, timeouts, task scheduling, SQL engines, migration SQL and rollups, API keys, query building other than the frame cursor, export links, settings, the control socket and the web UIs.
