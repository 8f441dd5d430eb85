# Verified models of the metering stack's engines

A Dafny model of the deterministic engines behind a metering and power-quality stack: the Data Sender outbox with its
scheduler, the energy and demand ledgers, the PQDIF and COMTRADE exporters with the timebase validator they share, the
harmonic family assembler, Modbus RTU framing with its request handler, dataset aggregation, base64url cursors, and the
service start order. `dafny verify dfyconfig.toml` checks everything.

Code that changes things step by step is modelled imperatively: the ledgers' `Store`, the outbox `Repository`, the
scheduler's `Engine`, `RtuFrameAssembler`, `HarmonicFamilyAssembler` and `ServiceManager` are classes whose methods are
proved against functions of their old state, and every loop keeps its loop. What the program promises is then proved
about those functions, over every run.

| file | engine |
|---|---|
| `OutboxModel`, `OutboxSafety`, `Outbox`, `OutboxRecovery` | artifacts as single writes, what no run can do, the repository operations, crash recovery |
| `OutboxSweep`, `OutboxStartup`, `OutboxPowerLoss` | startup on any disk, removals that fail, removals a power loss undoes |
| `Scheduler`, `Delivery`, `Pipeline` | window generation and watermarks; claims, attempts and retry back-off; generation into the outbox |
| `LedgerCodec`, `EnergyLedger`, `EnergySessions`, `EnergyLaws`, `DemandLedger`, `DemandLaws` | SQLite columns, lifetime counters, sessions, demand peaks, and when a ledger takes a call |
| `Timebase`, `Comtrade` | timebase validation and frame ranges; exact timestamps and ticks |
| `PqdifLayout`, `PqdifReader`, `PqdifFile` | layout and emission, an independent reader, tag order and record chain |
| `Harmonic`, `ModbusRtu` | 42-chunk families; RTU framing and the request handler |
| `Decimal`, `Dataset` | exact decimal averages; rows and buckets |
| `Base64Url`, `Services` | cursors; dependency-ordered start |
| `Foundation`, `Arithmetic`, `Order` | shared types, bytes, arithmetic and lexicographic order |

## How the state is modelled

- The outbox is a `Disk`: manifest rows (with the deliveries that cascade with them) and the files of both directories.
  Each `Event` is one atomic write. A process crash is a run that stops after any event; a restart is `Initialize` on
  whatever disk it left. The class logs its events, so every operation is a run of the same transition system the
  safety theorems quantify over. A body is written to its temporary in arbitrary pieces, each its own event.
- A power loss may in addition undo any removals that no sync of their directory has followed. `SyncDirectory` events
  stand where the program syncs: after a rename and after a finalized payload is marked absent, never in an erase.
  Committed transactions and synced file contents survive; a rename not yet synced may be lost, which is the state one
  event earlier.
- The ledgers keep a `row` beside the fields in memory. `Reopened` rebuilds the fields from the row alone, through the
  column codecs.
- The scheduler's history is a log of activations and consumed windows; the stored watermark is a function of the log.
- SHA-256, the clock, free space, the historian, the delivery executor, the register bank and the systemd controller
  are parameters. Counters and sequence numbers are bounded or wrapped where the program's are.

## What turned out different from what one might expect

- A sample window rebuilt from its stored count and floor rate is exact whenever it lasts at least 1 ns and the rate
  fits 32 bits (`WindowSurvivesReload`, an equivalence), a weaker condition than count times 10^9 being at least the
  square of the rate.
- The COMTRADE refusal of ticks above 10^12 ns cannot happen: 10^10 always suffices. Tick selection fails exactly when
  the interval exceeds 2^64 ns at the first rounding.
- COMTRADE conversion would flag a frame for an event that ends before it starts, although the event contains no
  sequence (`ReversedEventCanBeFlagged`; `FlaggedIffShared` gives the exact condition). No production source contains
  one: the capture reader rejects it (common/msap1/waveform/mncwf_v4.cpp:2349-2353), and PQDIF refuses it when it
  computes the duration (common/mnc/waveform/pqdif_converter.cpp:868-871).
- The Modbus handler would answer an empty PDU even when it is a broadcast or addressed to another unit. No transport
  delivers one: TCP refuses a length below 2 (common/mnc/modbus/tcp_server.cpp:101) and RTU needs four bytes for a
  valid CRC (common/mnc/modbus/rtu_server.cpp:53-60), so every such request a transport delivers is silent
  (`ProcessFrame`, `TcpRequestsAreNotEmpty`).
- A session that comes back after another was accepted is measured from zero again, so its energy is counted twice
  (`ReturningSessionCountsTwice`; `LifetimeBySession` gives the exact condition).
- Outbox recovery compares file names without their directory and hands out at most two ids per file. On arbitrary
  directories it can leave a payload unmanifested or fail altogether; `SweepManifestsIff` says exactly when. Callers
  whose artifact id determines destination and format, as job id, revision, window and format suffix do
  (common/mnc/datalogger/datalogger.cpp:253-256), never meet this (`StartupSucceeds`).
- An erase is not final against power loss until its directory is synced, which the erase itself never does
  (`EraseFinalIff`), and startup forgets a marked row even when its file could not be removed, after which the file is
  taken for an unsent one (`ErasedReturnsIff`).
- A window whose watermark was lost in a crash cannot be generated again: its body differs, enqueue reports a conflict,
  and the job stands still (`CrashBetweenStalls`).
- The base64url decoder accepts texts no encoder writes (`ReencodesIffNothingDropped`).
- The hash in the retry back-off starts one digit short of the published FNV-1a offset basis
  (common/mnc/datalogger/scheduler.cpp:26); nothing rests on it.

## Model

| member | source | states |
|---|---|---|
| `OutboxModel.StepDurable` | common/mnc/datalogger/outbox_repository.cpp:363-460 | Every single durable write (temporary, rename, transaction, removal) preserves the crash invariant: a row that claims a payload has the matching file or has been delivered everywhere, every payload file has its canonical name, and payload bytes stay within the quota |
| `OutboxModel.RowWriteKeepsIdentity` | common/mnc/datalogger/outbox_repository.cpp:490-597 | No row write changes name, destination, size, checksum or channel set; completion and erasure marks are never undone; a row stops claiming its payload only when the file is gone |
| `OutboxModel.CanonicalName` | common/mnc/datalogger/outbox_repository.cpp:219-223 | An artifact name gives its id back at startup, is recoverable, is never mistaken for a temporary, and determines the id |
| `OutboxModel.IdentityMeans` | common/mnc/datalogger/outbox_repository.cpp:41-60 | Which characters and lengths identities and file names may have |
| `OutboxModel.CompleteMeans` | common/mnc/datalogger/outbox_repository.cpp:1062-1072 | An artifact is complete exactly when it is remote and the states of its deliveries are Succeeded and nothing else |
| `OutboxModel.RecoveryNotes` | common/mnc/datalogger/outbox_repository.cpp:1145-1160 | Which error recovery notes for which damage, whether the row still claims a payload, and that exactly the unfinished deliveries are blocked |
| `OutboxModel.AdoptedMeans` | common/mnc/datalogger/outbox_repository.cpp:1270-1292 | What the manifest of an adopted file says |
| `OutboxModel.TotalStep` | common/mnc/datalogger/outbox_repository.cpp:330-361 | One write never takes the bytes of non-temporary files above the quota |
| `OutboxSafety.RemovalJustified` | common/mnc/datalogger/outbox_repository.cpp:1059-1081 | A payload file disappears only when an erase marked its artifact or every delivery of it succeeded |
| `OutboxSafety.PayloadImmutable` | common/mnc/datalogger/outbox_repository.cpp:416-420 | The bytes of a published payload never change |
| `OutboxSafety.RowLossJustified` | common/mnc/datalogger/outbox_repository.cpp:1108-1143 | A row disappears only once erased, or once delivered everywhere with its payload already gone |
| `OutboxSafety.SucceededStays` | common/mnc/datalogger/outbox_repository.cpp:564-597 | No write moves a Succeeded delivery, and no claim takes one |
| `OutboxSafety.RunDurable` | common/mnc/datalogger/outbox_repository.cpp:363-460 | The crash invariant holds after every prefix of every run, so a crash may stop anywhere |
| `OutboxSafety.QuotaHolds` | common/mnc/datalogger/outbox_repository.cpp:406-414 | Under a fixed policy payload bytes never exceed the quota, at any instant of any run |
| `OutboxSafety.LossWasReleased` | common/mnc/datalogger/outbox_repository.cpp:866-962 | Over any run with crashes and restarts, a payload that is gone was at some instant marked by an erase or fully delivered |
| `OutboxSafety.SucceededForever` | common/mnc/datalogger/outbox_repository.cpp:490-532 | While its row lives a succeeded delivery stays succeeded and no later claim contains it |
| `OutboxSafety.LeaseStep` | common/mnc/datalogger/outbox_repository.cpp:490-532 | A leased delivery is claimed again only at or after its lease ends, and then holds the new lease; every other event that does not settle it leaves the lease alone |
| `OutboxSafety.LeasesDisjoint` | common/mnc/datalogger/outbox_repository.cpp:490-532 | Over any run without a result, an erase or a recovery of that row, every later claim of a leased delivery starts at or after the end of the earlier lease |
| `OutboxSafety.DueStep` | common/mnc/datalogger/outbox_repository.cpp:777-824 | Every timely write leaves a waiting delivery due within 3660 s of the write that last set it |
| `OutboxSafety.ClaimableWithinLongestWait` | common/mnc/datalogger/scheduler.cpp:191-219 | From an empty outbox, over any run of timely writes, every delivery that waits for a retained, unerased artifact can be claimed from 3660 s after the write that last set it |
| `OutboxSafety.RecoveredRowHonest` | common/mnc/datalogger/outbox_repository.cpp:1191-1242 | On any disk at all, a recovered row claims a payload only if the file matches or an error is recorded, nothing is claimable without a matching file, and finished deliveries stay as they were |
| `Outbox.Repository.Durably` | common/mnc/datalogger/outbox_repository.cpp:363-460 | One durable write, logged: the disk is exactly what the enabled event makes of it |
| `Outbox.Repository.CheckChannels` | common/mnc/datalogger/outbox_repository.cpp:382-387 | Accepts exactly distinct, well-formed channel identities |
| `Outbox.Repository.PayloadBytes` | common/mnc/datalogger/outbox_repository.cpp:330-349 | The directory walk returns the bytes of every file that is not a temporary |
| `Outbox.Repository.WriteBody` | common/mnc/datalogger/outbox_repository.cpp:113-143 | After any sequence of partial writes the temporary holds the whole body and nothing else changed |
| `Outbox.Repository.Enqueue` | common/mnc/datalogger/outbox_repository.cpp:363-460 | Accepts exactly a well-formed request that repeats its manifest or that the storage guard and free names admit; a new artifact becomes one row, pending on every channel, and one file, written in the order temporary, rename, sync, transaction; a repeat or a refusal changes nothing; any difference from the manifest is a refusal |
| `Outbox.Repository.PublishPayload` | common/mnc/datalogger/outbox_repository.cpp:113-160 | The payload takes its name in one step, once complete; no temporary stays |
| `Outbox.Repository.InsertManifest` | common/mnc/datalogger/outbox_repository.cpp:421-459 | The row and its pending deliveries appear together |
| `Outbox.Repository.ClaimDue` | common/mnc/datalogger/outbox_repository.cpp:490-532 | Claims a set of due deliveries of at most the limit: all that are due, or exactly the limit, and every one left out comes later; each was pending, waiting or in flight and due, and is now in flight until the lease ends |
| `Outbox.ChooseDue` | common/mnc/datalogger/outbox_repository.cpp:497-517 | The first ones in the order of due time, artifact and channel, up to the limit |
| `Outbox.AheadMeans` | common/mnc/datalogger/outbox_repository.cpp:497-505 | The due time decides, then the artifact, then the channel |
| `Outbox.Repository.Content` | common/mnc/datalogger/outbox_repository.cpp:534-564 | Returns the payload exactly when the row is live, claims it, and size and digest agree |
| `Outbox.Repository.FinalizeCompleted` | common/mnc/datalogger/outbox_repository.cpp:1059-1081 | A present, live, fully delivered artifact loses its payload, is marked absent, and the directory is synced; anything else, and a file that cannot be removed, is left alone |
| `Outbox.Repository.PruneCompleted` | common/mnc/datalogger/outbox_repository.cpp:1108-1143 | Drops exactly the remote rows without payload that were delivered on every channel, the last time no later than the cutoff |
| `Outbox.Repository.RecordResult` | common/mnc/datalogger/outbox_repository.cpp:564-597 | Accepted exactly for a known, unfinished delivery; counts the attempt, ends it as succeeded, waiting for its retry, or blocked; finalizes if the payload can be removed, prunes; a refusal changes nothing |
| `Outbox.Repository.Retry` | common/mnc/datalogger/outbox_repository.cpp:777-806 | All-or-nothing requeue of pending, waiting and blocked deliveries of known artifacts; in-flight and finished ones are untouched |
| `Outbox.Repository.RetryChannel` | common/mnc/datalogger/outbox_repository.cpp:808-824 | Exactly the blocked deliveries of one channel become pending |
| `Outbox.Repository.CheckErasable` | common/mnc/datalogger/outbox_repository.cpp:871-906 | Accepts exactly known, unmarked artifacts whose unsent data was released; Outbox.Repository.Erase says what unsent means |
| `Outbox.Repository.Erase` | common/mnc/datalogger/outbox_repository.cpp:866-962 | Without the release, a selected live artifact with a pending, waiting, blocked or in-flight delivery, or a remote one without deliveries, makes the erase fail with nothing written; an erase of artifacts that owe nothing needs no release; on success rows and payloads of exactly the selected artifacts are gone; a file that cannot be removed leaves every selected row marked; the erase never syncs |
| `Outbox.Repository.RemovePayloads` | common/mnc/datalogger/outbox_repository.cpp:938-948 | The marked artifacts lose their files, or the first one that cannot be removed ends the pass |
| `Outbox.Repository.FinishPendingDeletions` | common/mnc/datalogger/outbox_repository.cpp:1083-1106 | Startup finishes every interrupted erase: rows and files of exactly the marked artifacts go |
| `Outbox.Repository.ReconcileRow` | common/mnc/datalogger/outbox_repository.cpp:1191-1242 | One manifest against its file; in a durable state only a delivered payload and its claim are let go |
| `Outbox.Repository.ReconcileRows` | common/mnc/datalogger/outbox_repository.cpp:1164-1242 | The loop reconciles every manifest independently of the order it visits them in |
| `Outbox.Repository.SweepDirectories` | common/mnc/datalogger/outbox_repository.cpp:1244-1293 | Temporaries go; exactly the payload files without a manifest get one, each with its own digest and size |
| `Outbox.Repository.Initialize` | common/mnc/datalogger/outbox_repository.cpp:258-318 | Startup is the composition Startup of the three passes, whatever order rows and directory entries come in |
| `Outbox.NameIsManifested` | common/mnc/datalogger/outbox_repository.cpp:1249-1256 | In a durable state a payload file name is in the manifest set exactly when its id has a row |
| `OutboxRecovery.StartupFile` | common/mnc/datalogger/outbox_repository.cpp:1145-1293 | Startup keeps a file exactly when it is a payload neither erased nor fully delivered, with the same bytes |
| `OutboxRecovery.StartupSettles` | common/mnc/datalogger/outbox_repository.cpp:1145-1293 | From any durable disk: every file is manifested by a row that matches it, every row has exactly the payload it claims, nothing owed is dropped, no live row is lost, nothing erased comes back |
| `OutboxRecovery.CrashRecovery` | common/mnc/datalogger/outbox_repository.cpp:258-318 | The same after a process crash following any write of any run; what a power loss adds is in OutboxPowerLoss.PowerLossRecovery |
| `OutboxRecovery.ErasedStaysErased` | common/mnc/datalogger/outbox_repository.cpp:908-961 | Once marked, an artifact stays gone through any later writes, process crashes and startups until it is published anew; against power loss see OutboxPowerLoss.EraseFinalIff |
| `OutboxSweep.SweepListing` | common/mnc/datalogger/outbox_repository.cpp:1244-1292 | The loop over both directories, on any disk: it succeeds and leaves every recoverable file manifested if and only if no recoverable name is borne only by a row of the other directory, no unmanifested name stands in both, and the ids handed out are free |
| `OutboxSweep.SweepManifestsIff` | common/mnc/datalogger/outbox_repository.cpp:1244-1292 | That equivalence for the sweep as a function, with the set of manifested names fixed beforehand and the rows carried along |
| `OutboxSweep.SweepState` | common/mnc/datalogger/outbox_repository.cpp:1244-1292 | After any number of entries: whether the sweep got that far, which ids and names are taken, and that every old row is kept |
| `OutboxSweep.IdsFreePlain` | common/mnc/datalogger/outbox_repository.cpp:1263-1269 | Unless some fallback id is another file's first id, the ids are free if and only if every repeated first id has a fallback that no row and no earlier repeated file has |
| `OutboxSweep.IdsMean` | common/mnc/datalogger/outbox_repository.cpp:1260-1269 | Which id a recovered file gets, and which fallback |
| `OutboxSweep.TwinNamesStopStartup` | common/mnc/datalogger/outbox_repository.cpp:1244-1292 | The same unmanifested name in both directories makes startup fail, whatever else is on the disk |
| `OutboxSweep.ThreeCopiesStopStartup` | common/mnc/datalogger/outbox_repository.cpp:1263-1292 | Three unmanifested files with one digest and names that are no ids make startup fail |
| `OutboxSweep.ThreeCopiesExample` | common/mnc/datalogger/outbox_repository.cpp:1263-1292 | Such an input: a.b.json, c.d.json and e.f.json with the same bytes and nothing manifested |
| `OutboxSweep.SweepCanonical` | common/mnc/datalogger/outbox_repository.cpp:1244-1292 | Under canonical names, and so on every durable disk, the sweep succeeds and is the one the repository performs |
| `OutboxStartup.StartupManifestsIff` | common/mnc/datalogger/outbox_repository.cpp:258-318 | The equivalence for startup as a whole, on any disk and with any files that cannot be removed |
| `OutboxStartup.StartupHonest` | common/mnc/datalogger/outbox_repository.cpp:1164-1242 | On any disk, after startup a row that claims its payload has the matching file or an error on record, and nothing can be claimed for delivery without a matching file |
| `OutboxStartup.StartupSucceeds` | common/mnc/datalogger/outbox_repository.cpp:258-318 | Under canonical names startup never fails and the order of directory entries does not matter |
| `OutboxStartup.DurableRestart` | common/mnc/datalogger/outbox_repository.cpp:258-318 | On a durable disk this general startup is the one the repository performs |
| `OutboxStartup.RestartFile` | common/mnc/datalogger/outbox_repository.cpp:1083-1106 | Exactly which files startup keeps, mismatching payloads and files that cannot be removed included |
| `OutboxStartup.ErasedReturnsIff` | common/mnc/datalogger/outbox_repository.cpp:1083-1106 | An erased artifact is back after startup if and only if its file is there and no present row with a removable file is left to remove it |
| `OutboxPowerLoss.LeftoversRun` | common/mnc/datalogger/outbox_repository.cpp:98-111 | Over any run, a removal that no directory sync followed was that of an erased, a forgotten, or a finished artifact whose row it still matches |
| `OutboxPowerLoss.PowerLossRecovery` | common/mnc/datalogger/outbox_repository.cpp:1059-1081 | After a power loss at any point of any run, whichever unsynced removals it undid, startup succeeds, nothing owed is lost, live rows keep their deliveries, and what came back stays exactly where no row claims it |
| `OutboxPowerLoss.EraseFinalIff` | common/mnc/datalogger/outbox_repository.cpp:938-961 | No power loss can bring an erased artifact back if and only if its removal was followed by a sync of its directory, or a present row is left to remove it again |
| `OutboxPowerLoss.EraseAloneIsNotFinal` | common/mnc/datalogger/outbox_repository.cpp:938-961 | The writes of an erase alone are not final; with a directory sync they are |
| `Delivery.DelayBounds` | common/mnc/datalogger/scheduler.cpp:227-241 | For every attempt and every hash the retry delay is 5 s to 3600 s, between its base and six fifths of it |
| `Delivery.BackoffGrows` | common/mnc/datalogger/scheduler.cpp:227-241 | Jitter never reorders the back-off: up to the eleventh attempt each delay exceeds every earlier one, for any identities |
| `Delivery.BackoffSaturates` | common/mnc/datalogger/scheduler.cpp:227-241 | From the eleventh attempt on the delay is exactly one hour |
| `Delivery.BaseTable` | common/mnc/datalogger/scheduler.cpp:227-232 | Five seconds, doubled from attempt to attempt up to 2560, then 3600 |
| `Delivery.JitterLaw` | common/mnc/datalogger/scheduler.cpp:233-239 | Until the tenth attempt up to a fifth of the base is added, chosen by the hash |
| `Delivery.FnvConstants` | common/mnc/datalogger/scheduler.cpp:24-36 | The offset and the multiplier of the hash |
| `Delivery.Fnv1a` | common/mnc/datalogger/scheduler.cpp:24-36 | The two loops hash the identity bytes followed by the four little-endian attempt bytes |
| `Delivery.RetryDelay` | common/mnc/datalogger/scheduler.cpp:227-241 | The delay is that of the hash, zero attempts counting as one, and within bounds |
| `Delivery.ClaimedIsReadable` | common/mnc/datalogger/scheduler.cpp:200-205 | In a durable state the payload of a claimed delivery is on disk and matches its manifest, so reading it cannot fail |
| `Delivery.ConcludedEffect` | common/mnc/datalogger/outbox_repository.cpp:564-597 | Recording one result changes one delivery, and a row it removes had only succeeded deliveries |
| `Delivery.DeliverDue` | common/mnc/datalogger/scheduler.cpp:191-219 | Claims for 3660 s, attempts every claimed delivery exactly once with its own back-off, and makes only writes the lease and waiting guarantees assume |
| `Scheduler.NextBoundary` | common/mnc/datalogger/scheduler.cpp:16-22 | Fails exactly on a negative time, a non-positive interval or overflow; otherwise the least interval multiple not before now |
| `Scheduler.Engine.StoreWatermark` | common/mnc/datalogger/outbox_repository.cpp:1038-1057 | A permitted event with a proper identity and revision becomes the stored watermark of its job and no other; anything else is refused |
| `Scheduler.Engine.ApplyJobs` | common/mnc/datalogger/scheduler.cpp:47-99 | A list without contradictory entries is accepted exactly when every entry is well formed and every one to be activated has a proper id and a boundary in range; new revisions start at the next boundary, known ones keep their watermark; a refused list keeps the activations already stored |
| `Scheduler.Engine.GenerateDue` | common/mnc/datalogger/scheduler.cpp:101-189 | Consumes at most the limit, counts generated and skipped windows exactly, stops only at a failing due window or when every enabled job's next window ended less than 30 s ago or ends in the future, and records why |
| `Scheduler.WindowsTile` | common/mnc/datalogger/scheduler.cpp:101-149 | Since an activation, restarts included, the consumed windows chain from the least boundary not before it to the stored watermark |
| `Scheduler.ChainTiles` | common/mnc/datalogger/scheduler.cpp:118-136 | Such a chain is a tiling: every instant of the span is in exactly one window and no other instant is in any |
| `Scheduler.NeverTwice` | common/mnc/datalogger/scheduler.cpp:101-189 | Under a clock that never goes back, no two windows a job ever consumed overlap, they come in order, and none is consumed before its end plus 30 s |
| `Scheduler.InOrderIff` | common/mnc/datalogger/scheduler.cpp:47-189 | Whatever the clock does, a job's windows are consumed in order and without overlap, over all its revisions, if and only if no activation put to use began before a window already consumed had ended |
| `Scheduler.SortedById` | common/mnc/datalogger/scheduler.cpp:50-52 | Jobs are kept in the order of their ids, none lost or added |
| `Pipeline.GenerateWindow` | common/mnc/datalogger/scheduler.cpp:126-133 | The artifact is enqueued first and the watermark moves only then; a refusal, a conflicting manifest among them, moves neither |
| `Pipeline.CrashBetweenStalls` | common/mnc/datalogger/scheduler.cpp:126-180 | After a crash between enqueue and watermark the job stays at its window over any further run, until the artifact is dropped, the job is activated anew, or the window expires at the source |
| `Pipeline.CrashLeavesConflict` | common/mnc/datalogger/outbox_repository.cpp:388-404 | What enqueue stored is still manifested with its digest after startup, the watermark behind it |
| `LedgerCodec.EncodeArray` | common/msap1/meter/energy_ledger.cpp:24-36 | The byte loop writes the little-endian words of the specification |
| `LedgerCodec.DecodeArray` | common/msap1/meter/energy_ledger.cpp:38-55 | Refuses exactly a wrong blob size and otherwise reads the words back |
| `LedgerCodec.BlobRoundTrip` | common/msap1/meter/energy_ledger.cpp:24-55 | Every array of 64-bit values survives the blob |
| `LedgerCodec.SignedBlobRoundTrip` | common/msap1/meter/energy_ledger.cpp:24-55 | So does every array of signed values, through two's complement |
| `LedgerCodec.HexRoundTrip` | common/msap1/meter/energy_ledger.cpp:70-86 | Every 64-bit value survives its hexadecimal column |
| `LedgerCodec.HexPlaces` | common/msap1/meter/energy_ledger.cpp:70-76 | Sixteen lower-case digits, the most significant first |
| `LedgerCodec.WordPlaces` | common/msap1/meter/energy_ledger.cpp:24-36 | Byte k of a word weighs 256 to the power k |
| `LedgerCodec.TwosComplement` | common/msap1/meter/energy_ledger.cpp:24-36 | Signed values travel in two's complement |
| `LedgerCodec.WindowMeans` | common/msap1/meter/energy_demand.cpp:37-48 | A window lasts its samples over the rate in nanoseconds, rounded down |
| `LedgerCodec.RateMeans` | common/msap1/meter/energy_ledger.cpp:197-205 | The stored rate is samples per second, rounded down, or zero when it does not fit 32 bits |
| `LedgerCodec.QuotientInvolution` | common/msap1/meter/energy_ledger.cpp:197-211 | Truncated division applied twice gives a truncated quotient back |
| `LedgerCodec.WindowSurvivesReload` | common/msap1/meter/energy_demand.cpp:37-48 | A sample window rebuilt from count and floor rate equals the original if and only if it lasts at least 1 ns and its rate fits 32 bits |
| `LedgerCodec.UsualRatesFit` | common/msap1/meter/energy_ledger.cpp:197-205 | Every rate up to 2^31 with a window of at least 1 ns meets that condition |
| `EnergyLedger.Store.Advance` | common/msap1/meter/energy_ledger.cpp:563-574 | Rollback is refused exactly when some counter falls below its base; otherwise every counter advances, saturating |
| `EnergyLedger.Store.Ingest` | common/msap1/meter/energy_ledger.cpp:527-593 | State, latest answer and stored row become those of the specification, in memory and in the row alike; a refusal changes nothing |
| `EnergyLedger.Store.Reset` | common/msap1/meter/energy_ledger.cpp:787-825 | State, audit and row become those of the specification, whose acceptance EnergyLaws.ResetLaw states; a refusal changes nothing |
| `EnergyLaws.ResetLaw` | common/msap1/meter/energy_ledger.cpp:787-825 | A reset takes effect if and only if the request is complete, its key new, a checkpoint exists and it expects the epoch in force; it zeroes the 28 counters, keeps the session's, and records the new epoch; a known key is answered from the record |
| `EnergyLaws.OneResetPerEpoch` | common/msap1/meter/energy_ledger.cpp:799-802 | Over every run at most one request per expected epoch takes effect |
| `EnergyLaws.RepeatedKeyReplays` | common/msap1/meter/energy_ledger.cpp:790-796 | Over every run a repeated key is answered with the epoch of the first time and changes nothing |
| `EnergyLaws.CheckpointRefusedIff` | common/msap1/meter/energy_ledger.cpp:531-571 | A checkpoint is refused exactly for a negative counter or, within a session, an older sequence, a repeat that differs in some field, or a counter that falls |
| `EnergyLaws.CheckpointTaken` | common/msap1/meter/energy_ledger.cpp:563-592 | What an accepted checkpoint adds, leaves and answers, from the readings |
| `EnergyLaws.SaturationLaw` | common/msap1/meter/energy_ledger.cpp:177-187 | The answer is marked saturated exactly when the session was or some total exceeds 63 bits |
| `EnergyLedger.OpenLedger` | common/msap1/meter/energy_ledger.cpp:314-360 | Opening rebuilds the ledger from its row, and fails exactly when the row does not decode |
| `EnergyLedger.PersistedDecodes` | common/msap1/meter/energy_ledger.cpp:314-470 | What persist writes, load reads back, except for the time and with the rebuilt window |
| `EnergyLedger.StepSound` | common/msap1/meter/energy_ledger.cpp:527-593 | Memory and stored row agree after every call |
| `EnergyLedger.ReopenInvisible` | common/msap1/meter/energy_ledger.cpp:314-360 | Reopening changes nothing but the timestamp of the latest answer |
| `EnergyLedger.CheckpointIgnoresClock` | common/msap1/meter/energy_ledger.cpp:540-561 | No later checkpoint depends on that timestamp |
| `EnergyLedger.ResetIgnoresClock` | common/msap1/meter/energy_ledger.cpp:787-825 | Nor does a reset |
| `EnergyLedger.RestartsInvisible` | common/msap1/meter/energy_ledger.cpp:314-593 | Over every run of calls, deleting all the reopenings leaves every answer and the final ledger the same up to timestamps |
| `EnergyLedger.LifetimeIsAccrued` | common/msap1/meter/energy_ledger.cpp:527-593 | Over every run, each of the 28 lifetime counters is min(INT64_MAX, exact sum of accepted increments since the last reset) |
| `EnergySessions.LifetimeBySession` | common/msap1/meter/energy_ledger.cpp:527-593 | Over every run a lifetime counter is the saturated sum over sessions of the last counter less its value at the last reset, plus what returning sessions are counted for again; nothing is counted again if and only if no session with a nonzero counter came back, since that reset, after another was accepted |
| `EnergySessions.SessionAccount` | common/msap1/meter/energy_ledger.cpp:563-574 | The accepted increments are exactly the sessions' energy plus what is counted again |
| `EnergySessions.RecountedIff` | common/msap1/meter/energy_ledger.cpp:570-574 | When something is counted again |
| `EnergySessions.ReturningSessionCountsTwice` | common/msap1/meter/energy_ledger.cpp:570-574 | A checkpoint accepted, replaced by another session's and sent again is counted twice |
| `EnergyLedger.RefusalChangesNothing` | common/msap1/meter/energy_ledger.cpp:527-571 | A refused call leaves the whole ledger unchanged |
| `EnergyLedger.RepeatAddsNothing` | common/msap1/meter/energy_ledger.cpp:540-561 | A recognised repeat returns the latest answer and adds nothing |
| `EnergyLedger.RetryNeverResurrects` | common/msap1/meter/energy_ledger.cpp:540-561 | After any resets and restarts the last checkpoint sent again is still recognised, so pre-reset energy never returns |
| `DemandLedger.Store.RaiseSide` | common/msap1/meter/energy_ledger.cpp:673-700 | The phase loop raises one side as the specification says, anchors included; what that means in readings is DemandLaws.PeakBoundsReadings and DemandLaws.PeakWasReached |
| `DemandLedger.Store.OpenPeaks` | common/msap1/meter/energy_ledger.cpp:645-663 | A profile change clears, a new instance drops the baseline, and within an instance a session peak that falls is refused |
| `DemandLedger.Store.Ingest` | common/msap1/meter/energy_ledger.cpp:595-718 | State, answer and row become those of the specification, whose acceptance and effect DemandLaws states from the readings; a refusal changes nothing |
| `DemandLedger.Store.Reset` | common/msap1/meter/energy_ledger.cpp:827-873 | State, audit and row become those of the specification, whose acceptance DemandLaws.ResetLaw states; a refusal changes nothing |
| `DemandLaws.ResetLaw` | common/msap1/meter/energy_ledger.cpp:827-873 | A reset takes effect if and only if the request is complete, its key new, an interval exists and it expects the epoch in force; peaks and their samples are cleared and the baselines become the session peaks; a known key is answered from the record |
| `DemandLaws.OneResetPerEpoch` | common/msap1/meter/energy_ledger.cpp:839-842 | Over every run at most one request per expected epoch takes effect |
| `DemandLaws.RepeatedKeyReplays` | common/msap1/meter/energy_ledger.cpp:830-836 | Over every run a repeated key is answered with the epoch of the first time and changes nothing |
| `DemandLaws.IntervalRefusedIff` | common/msap1/meter/energy_ledger.cpp:599-663 | An interval is refused exactly for a missing profile, a negative peak or, while session and profile go on, an older sequence, a differing repeat or a falling peak |
| `DemandLaws.IntervalTaken` | common/msap1/meter/energy_ledger.cpp:645-725 | What an accepted interval leaves: identity, session peaks, the baseline kept or dropped, and a new epoch exactly for a new profile |
| `DemandLaws.IntervalAnswer` | common/msap1/meter/energy_ledger.cpp:701-707 | The answer carries the ledger's peaks and samples and is marked saturated exactly when the session was or a valid demand has no 63-bit magnitude |
| `DemandLaws.PeakBoundsReadings` | common/msap1/meter/energy_ledger.cpp:673-700 | Over every run a peak is at least every valid demand of its direction and every session peak above the baseline in its epoch |
| `DemandLaws.PeakWasReached` | common/msap1/meter/energy_ledger.cpp:673-700 | Over every run a positive peak is one of these, with the sample it was reached at |
| `DemandLedger.OpenLedger` | common/msap1/meter/energy_ledger.cpp:362-442 | Opening rebuilds the ledger from its row, and fails exactly when the row does not decode |
| `DemandLedger.ColumnsRoundTrip` | common/msap1/meter/energy_ledger.cpp:362-442 | The peak columns of the row read back |
| `DemandLedger.PersistedDecodes` | common/msap1/meter/energy_ledger.cpp:362-511 | What persist writes, load reads back, except for the time and with the rebuilt window |
| `DemandLedger.StepSound` | common/msap1/meter/energy_ledger.cpp:595-718 | Memory and stored row agree after every call |
| `DemandLedger.ReopenInvisible` | common/msap1/meter/energy_ledger.cpp:362-442 | Reopening changes nothing but the timestamp |
| `DemandLedger.RestartsInvisible` | common/msap1/meter/energy_ledger.cpp:362-718 | Over every run, deleting the reopenings leaves every answer the same up to timestamps |
| `DemandLedger.PeakIsEpochMaximum` | common/msap1/meter/energy_ledger.cpp:673-700 | Over every run each authoritative peak is exactly the maximum contribution since the epoch began; in readings, see DemandLaws.PeakBoundsReadings and DemandLaws.PeakWasReached |
| `DemandLedger.PeakNeverDecreases` | common/msap1/meter/energy_ledger.cpp:673-700 | A step that keeps the epoch never lowers a peak |
| `DemandLedger.EpochCountsEvents` | common/msap1/meter/energy_ledger.cpp:645-656 | The epoch is exactly the number of accepted resets and profile changes |
| `DemandLedger.NoReinstatement` | common/msap1/meter/energy_ledger.cpp:841-848 | While session and profile stay the same, through further resets and restarts, a positive peak after a reset is a later demand or a session peak strictly above the one reached before it |
| `PqdifLayout.GuidFields` | common/mnc/waveform/pqdif_converter.cpp:253-258 | On the wire the 32-bit field and the two 16-bit fields of an identifier are little-endian numbers and the last eight bytes are unchanged |
| `PqdifLayout.GuidRoundTrip` | common/mnc/waveform/pqdif_converter.cpp:253-258 | A reader that takes the fields as numbers gets the identifier back |
| `PqdifLayout.AssignCollection` | common/mnc/waveform/pqdif_converter.cpp:587-615 | The recursive cursor walk yields the blocks, links and end of the layout specification, or fails because the subtree ends past 32 bits or is no collection |
| `PqdifLayout.ComputeLayout` | common/mnc/waveform/pqdif_converter.cpp:617-624 | Accepts exactly the trees whose layout fits 32 bits |
| `PqdifLayout.BlocksTile` | common/mnc/waveform/pqdif_converter.cpp:587-624 | The blocks of every tree tile its bytes: no gap, no overlap, every offset a multiple of four |
| `PqdifLayout.EmitCollectionBlock` | common/mnc/waveform/pqdif_converter.cpp:645-666 | The entry loop writes count and entries |
| `PqdifLayout.EmitBlock` | common/mnc/waveform/pqdif_converter.cpp:668-691 | Content plus padding to the laid-out size; refused exactly when the content is longer |
| `PqdifLayout.EmitBody` | common/mnc/waveform/pqdif_converter.cpp:693-706 | The emission loop writes exactly the laid-out bytes, block after block |
| `PqdifReader.EntryDecodes` | common/mnc/waveform/pqdif_converter.cpp:645-666 | An emitted entry reads back as the link or embedded value it was |
| `PqdifReader.EntryLayout` | common/mnc/waveform/pqdif_converter.cpp:645-666 | Where tag, kind, physical type, embedding flag, value or offset and size stand in an entry; exactly scalars of at most eight bytes are embedded |
| `PqdifReader.BodyIsTreeImage` | common/mnc/waveform/pqdif_converter.cpp:693-706 | Emitting the block list in order writes the tree depth first, each subtree at its own offset |
| `PqdifReader.ReadsLeaf` | common/mnc/waveform/pqdif_converter.cpp:668-691 | A reader following a leaf link finds exactly that leaf |
| `PqdifReader.ReadsCollection` | common/mnc/waveform/pqdif_converter.cpp:645-706 | A reader following links inside the body rebuilds the collection |
| `PqdifReader.BodyReadsBack` | common/mnc/waveform/pqdif_converter.cpp:617-706 | For every well-typed tree that fits 32 bits the body has the laid-out length, its blocks tile it, and reading from offset 0 gives the tree back |
| `PqdifFile.StableSortCorrect` | common/mnc/waveform/pqdif_converter.cpp:548-564 | Children come out in tag order, elements with the same tag in insertion order, none lost or added |
| `PqdifFile.StableSortUnique` | common/mnc/waveform/pqdif_converter.cpp:548-564 | That order is the only one with this property, whatever the sorting algorithm |
| `PqdifFile.BuiltSorted` | common/mnc/waveform/pqdif_converter.cpp:548-564 | Every collection of a built tree is sorted, at every depth |
| `PqdifFile.WriteFile` | common/mnc/waveform/pqdif_converter.cpp:1670-1685 | The record chain is written exactly when every next-record link fits 32 bits |
| `PqdifFile.HeaderFields` | common/mnc/waveform/pqdif_converter.cpp:782-800 | Each header field sits where a reader looks for it |
| `PqdifFile.SignatureOnWire` | common/mnc/waveform/pqdif_converter.cpp:782-790 | The sixteen bytes every record header begins with |
| `PqdifFile.FileReadsBack` | common/mnc/waveform/pqdif_converter.cpp:1670-1685 | Following next-record links alone gives back every record in order |
| `PqdifFile.RecordRoundTrip` | common/mnc/waveform/pqdif_converter.cpp:548-706 | One record: sort, layout and emission, read back to the sorted tree |
| `PqdifFile.FileRoundTrip` | common/mnc/waveform/pqdif_converter.cpp:1656-1685 | A whole chain of uncompressed records is found again by links alone and each is read back to its sorted tree |
| `Timebase.CheckSegment` | common/mnc/waveform/waveform_converter.cpp:148-204 | One segment against the running expectations: accepted exactly when its geometry holds and it abuts |
| `Timebase.Validate` | common/mnc/waveform/waveform_converter.cpp:146-214 | The timebase part accepts exactly the valid timebases |
| `Timebase.ValidateConversion` | common/mnc/waveform/waveform_converter.cpp:129-237 | The whole validator accepts exactly sound options, channels, timebase, quality intervals and a present selected event |
| `Timebase.RatesAgree` | common/mnc/waveform/waveform_converter.cpp:177-197 | In a valid source the persisted rate is the acquisition rate over the decimation, and a frame takes one step of sequences |
| `Timebase.SequenceRange` | common/mnc/waveform/comtrade_converter.cpp:181-202 | For every frame of a validated source the range exists and is the specified one, so its range exceptions are unreachable |
| `Timebase.RangeSound` | common/mnc/waveform/pqdif_converter.cpp:350-372 | Within a segment every range is non-empty, whole groups abut, and a short last group ends the segment |
| `Timebase.FrameRangesAbut` | common/mnc/waveform/comtrade_converter.cpp:181-202 | Ranges start at first_sequence, end at last_sequence, and each begins where the previous ended, across segments |
| `Timebase.FramesPartitionSequences` | common/mnc/waveform/comtrade_converter.cpp:181-202 | Every selected sequence is in the range of exactly one frame, and no range leaves the selection |
| `Timebase.FlaggedRunContiguous` | common/mnc/waveform/comtrade_converter.cpp:676-691 | The frames flagged for an event are one contiguous run |
| `Timebase.FlaggedIffShared` | common/mnc/waveform/pqdif_converter.cpp:1403-1433 | A frame is flagged exactly when it shares a sequence with the event, if and only if not both ends of a reversed event fall in its group |
| `Timebase.FlaggedIffMeetsSelection` | common/mnc/waveform/comtrade_converter.cpp:676-691 | For every open event and every event that does not end before it starts, some frame is flagged exactly when the event meets the selection |
| `Timebase.ReversedEventCanBeFlagged` | common/mnc/waveform/comtrade_converter.cpp:358-363 | A concrete validated source whose frame would be flagged by an event with no sequence at all; the capture reader refuses such events |
| `Comtrade.RoundHalfEven` | common/mnc/waveform/comtrade_converter.cpp:211-226 | Fails exactly on a negative value, a bad denominator or a result above 64 bits |
| `Comtrade.HalfEvenNearest` | common/mnc/waveform/comtrade_converter.cpp:211-226 | The result is within one half, and a tie goes to the even side |
| `Comtrade.HalfEvenMonotone` | common/mnc/waveform/comtrade_converter.cpp:211-226 | Rounding preserves order across different denominators |
| `Comtrade.UtcForFrame` | common/mnc/waveform/comtrade_converter.cpp:168-179 | The exact rational time of a frame, failing exactly on an uncorrelated segment |
| `Comtrade.ElapsedExactly` | common/mnc/waveform/comtrade_converter.cpp:151-166 | The correlated sequence has the correlated time, and b - a samples last (b - a) times the rate's denominator over its numerator in seconds of 10^9 ns |
| `Comtrade.CheckBoundary` | common/mnc/waveform/comtrade_converter.cpp:422-430 | One handover is accepted exactly when time does not step back |
| `Comtrade.CheckBoundaries` | common/mnc/waveform/comtrade_converter.cpp:413-430 | Accepted exactly for correlated timebases that never step back; the maximum is the last frame's |
| `Comtrade.TimesGrow` | common/mnc/waveform/comtrade_converter.cpp:151-179 | Exact times are non-decreasing over all frames and segments |
| `Comtrade.SelectTick` | common/mnc/waveform/comtrade_converter.cpp:432-446 | The tick is the least power of ten that fits; fails exactly when the interval exceeds 64-bit nanoseconds, so the 10^13 refusal is unreachable |
| `Comtrade.TickTenFits` | common/mnc/waveform/comtrade_converter.cpp:437-446 | Any interval below 2^64 ns fits with a tick of 10^10 at the latest |
| `Comtrade.TicksGrow` | common/mnc/waveform/comtrade_converter.cpp:654-666 | Recorded ticks are non-decreasing over all frames |
| `Comtrade.TicksNear` | common/mnc/waveform/comtrade_converter.cpp:660-666 | Each recorded time is within half a tick of the exact one |
| `Comtrade.FieldsRecordTimes` | common/mnc/waveform/comtrade_converter.cpp:660-666 | A field is within half a tick of the sequence-based time since the first frame |
| `Comtrade.Timestamps` | common/mnc/waveform/comtrade_converter.cpp:432-666 | The record loop never throws over a timestamp: every field fits 32 bits because the last one does; each is within half a tick of the time its source sequence has by correlation and rate |
| `Harmonic.OrdersTile` | common/msap1/meter/harmonic_spectrum.cpp:15-29 | In both geometries each order 1..127 is covered by exactly one chunk and no chunk runs past 127 |
| `Harmonic.IndexInjective` | common/msap1/meter/harmonic_spectrum.cpp:296-298 | A record index stands for exactly one channel and chunk |
| `Harmonic.ChunkPlaces` | common/msap1/meter/harmonic_spectrum.cpp:15-29 | First order and order count of every chunk, in both geometries |
| `Harmonic.AheadMeans` | common/msap1/meter/harmonic_spectrum.cpp:93-97 | Ahead means less than 2^31 ahead modulo 2^32 |
| `Harmonic.RefusedIff` | common/msap1/meter/harmonic_spectrum.cpp:268-300 | A chunk is refused exactly when it is behind, belongs to another family under the same sequence, or came before |
| `Harmonic.SecondTimeRefused` | common/msap1/meter/harmonic_spectrum.cpp:293-300 | An accepted chunk of a pending family is refused when it comes again, and so is one of different provenance |
| `Harmonic.HarmonicFamilyAssembler.AcceptChunk` | common/msap1/meter/harmonic_spectrum.cpp:268-313 | The assembler does what the transition function says; a refused chunk leaves it unchanged |
| `Harmonic.HarmonicFamilyAssembler.WriteEntries` | common/msap1/meter/harmonic_spectrum.cpp:303-305 | The entry loop writes the chunk's orders and nothing else |
| `Harmonic.StepAccounted` | common/msap1/meter/harmonic_spectrum.cpp:273-289 | Every chunk, accepted or not, keeps the account |
| `Harmonic.FamiliesAccounted` | common/msap1/meter/harmonic_spectrum.cpp:268-313 | Over every run, uint32 wrap included: reported incomplete + completed + pending = unwrapped distance from the first family + 1 |
| `Harmonic.UnwrappedCongruent` | common/msap1/meter/harmonic_spectrum.cpp:93-97 | The unwrapped distance agrees with the raw sequence numbers modulo 2^32 |
| `Harmonic.CompletesOnLast` | common/msap1/meter/harmonic_spectrum.cpp:293-312 | From any assembler the family may replace or follow, any arrival order of the 42 distinct chunks is accepted throughout and completes on the 42nd and not before |
| `Harmonic.WrittenOnce` | common/msap1/meter/harmonic_spectrum.cpp:303-305 | An order once written is never overwritten by a later chunk of the family |
| `Harmonic.EveryPlaceFilled` | common/msap1/meter/harmonic_spectrum.cpp:293-302 | Among the 42 chunks every channel and chunk place occurs |
| `Harmonic.CompletedPoint` | common/msap1/meter/harmonic_spectrum.cpp:303-311 | Each point of the completed snapshot is the entry of the chunk that covers it |
| `Harmonic.OrderIndependent` | common/msap1/meter/harmonic_spectrum.cpp:268-313 | Two arrival orders of the same chunks complete to the same snapshot |
| `ModbusRtu.FrameSize` | common/mnc/modbus/rtu_server.cpp:62-83 | An announced size is 8 to 264 bytes, so an over-long request is announced as such |
| `ModbusRtu.AnnouncedSizes` | common/mnc/modbus/rtu_server.cpp:62-83 | Functions 3, 4 and 6 announce eight bytes, 16 nine and its byte count, no other any |
| `ModbusRtu.FrameSizeStable` | common/mnc/modbus/rtu_server.cpp:62-83 | A size once announced stays the same whatever bytes follow |
| `ModbusRtu.RtuFrameAssembler.Push` | common/mnc/modbus/rtu_server.cpp:85-110 | Frames and buffer are those of one extraction; a length error empties the buffer and drops the frames of that call |
| `ModbusRtu.RtuFrameAssembler.FinishOnSilence` | common/mnc/modbus/rtu_server.cpp:112-120 | Silence takes the whole residual and leaves nothing |
| `ModbusRtu.ExtractSplit` | common/mnc/modbus/rtu_server.cpp:85-110 | Extracting a then b equals extracting a ++ b, errors included |
| `ModbusRtu.ReadBoundariesInvisible` | common/mnc/modbus/rtu_server.cpp:85-110 | However reads cut the stream, the frames, the residual and the error are the same |
| `ModbusRtu.ExtractionSound` | common/mnc/modbus/rtu_server.cpp:85-110 | Frames plus residual are the input, the residual is at most 256 bytes, and every frame has the length its function promises |
| `ModbusHandler.Handle` | common/mnc/modbus/request_handler.cpp:26-130 | Throws exactly on an invalid unit id; the bank is written exactly by an addressed request that encodes a write, as that write; silence exactly for a broadcast or foreign request with a PDU; an answer says what its function promises and fits a frame |
| `ModbusHandler.EncodeResponse` | common/mnc/modbus/request_handler.cpp:68-75 | The response loop writes what a client decodes to the values |
| `ModbusHandler.ProcessFrame` | common/mnc/modbus/rtu_server.cpp:192-215 | A frame goes back exactly to a well-checked request for this unit, never to a broadcast or foreign one; it is well checked and within 256 bytes; the bank is written exactly by well-checked writes to this unit or to all |
| `ModbusHandler.HandleRead` | common/mnc/modbus/request_handler.cpp:50-76 | A client decoding the answer gets the bank's registers exactly when the request encodes 1 to 125 registers and the bank has them; otherwise the exception says which of these failed |
| `ModbusHandler.HandleWrite` | common/mnc/modbus/request_handler.cpp:77-123 | A write happens if and only if the PDU is a client's encoding of it, and is confirmed unless the bank objects |
| `ModbusHandler.ExceptionMeans` | common/mnc/modbus/request_handler.cpp:19-24 | An exception sets the high bit of the function and carries its code |
| `ModbusHandler.Limits` | common/mnc/modbus/request_handler.cpp:57-60 | 1 to 125 registers may be read and 1 to 123 written |
| `ModbusHandler.HighByteFirst` | common/mnc/modbus/request_handler.cpp:73-75 | Registers travel high byte first |
| `ModbusHandler.RegistersRoundTrip` | common/mnc/modbus/request_handler.cpp:68-75 | Big-endian register lists read back |
| `ModbusHandler.WriteRoundTrip` | common/mnc/modbus/request_handler.cpp:92-123 | The length and quantity rules accept exactly what a client encodes, and read it as what the client meant |
| `ModbusHandler.EmittedFramesPassLengthRule` | common/mnc/modbus/request_handler.cpp:92-107 | An emitted 0x10 frame encodes a write exactly when its quantity is 1 to 123 and agrees with its byte count: the total-length rule always holds |
| `Decimal.DecimalRatio` | common/mnc/datalogger/datalogger.cpp:40-67 | Fails exactly on a zero denominator; the text denotes the ratio truncated toward zero to millionths, without trailing zeros, leading zeros or negative zero |
| `Decimal.Fraction` | common/mnc/datalogger/datalogger.cpp:53-59 | The digit loop is long division: at most six digits, exactly the floor |
| `Decimal.WithoutTrailingZeros` | common/mnc/datalogger/datalogger.cpp:60-61 | The stripping loop keeps the value and leaves no trailing zero |
| `Decimal.TextMeans` | common/mnc/datalogger/datalogger.cpp:51-66 | The rendered text parses back to its integer and fraction, canonically |
| `Dataset.SortedEnds` | common/mnc/datalogger/datalogger.cpp:105-109 | Sorting keeps the samples; its ends are an earliest and a latest one |
| `Dataset.TextDenotes` | common/mnc/datalogger/datalogger.cpp:113-118 | A printed value denotes itself, canonically |
| `Dataset.EmptyQualityMeans` | common/mnc/datalogger/datalogger.cpp:82-88 | Without a valid sample a cell has the first quality that says more than unavailable, if any does |
| `Dataset.BucketMeans` | common/mnc/datalogger/datalogger.cpp:310-314 | A row has the attribute's samples from its start up to, and not including, its end |
| `Dataset.Extreme` | common/mnc/datalogger/datalogger.cpp:113-124 | A least or greatest sample of the list |
| `Dataset.AverageOf` | common/mnc/datalogger/datalogger.cpp:125-131 | The exact sum over the count, truncated to millionths |
| `Dataset.Aggregate` | common/mnc/datalogger/datalogger.cpp:90-177 | Counts, completeness, quality and value of a cell say what its calculation promises about the valid samples of its bucket |
| `Dataset.CheckSelections` | common/mnc/datalogger/datalogger.cpp:258-276 | Accepts exactly supported columns with distinct attribute number and calculation |
| `Dataset.FillBucket` | common/mnc/datalogger/datalogger.cpp:310-315 | Exactly the samples of the attribute in the half-open window, in order |
| `Dataset.Generate` | common/mnc/datalogger/datalogger.cpp:225-323 | Accepts exactly identified jobs with compatible intervals and selections; rows tile the window and every cell means what its column says |
| `Dataset.BucketCount` | common/mnc/datalogger/datalogger.cpp:310-315 | A cell's contributing count is the number of valid samples of its attribute in its row |
| `Dataset.SamplesConserved` | common/mnc/datalogger/datalogger.cpp:303-321 | Contributing counts of each column add up to the valid samples of its attribute in the artifact window |
| `Dataset.ExactlyOneRow` | common/mnc/datalogger/datalogger.cpp:303-306 | Every instant of the window lies in exactly one row |
| `Base64Url.Encode` | apps/mnc-cli/commands/log_commands.cpp:89-109 | With a 32-bit wrapping accumulator the loops emit exactly the unpadded sextets of the input bits |
| `Base64Url.Decode` | apps/mnc-cli/commands/log_commands.cpp:111-143 | Refuses exactly text outside the alphabet and otherwise returns the octets of its bits |
| `Base64Url.AlphabetOrder` | apps/mnc-cli/commands/log_commands.cpp:91-92 | The alphabet of section 5 of RFC 4648 |
| `Base64Url.StandardVectors` | apps/mnc-cli/commands/log_commands.cpp:89-109 | The vectors f, fo and foo of section 10 of RFC 4648 |
| `Base64Url.RoundTrip` | apps/mnc-cli/commands/log_commands.cpp:89-143 | For every byte string the encoding is alphabet text and decodes to the input |
| `Base64Url.ReencodesIffNothingDropped` | apps/mnc-cli/commands/log_commands.cpp:111-143 | Decoding then encoding gives the text back if and only if no sextet and no set bit was dropped |
| `Services.ServiceManager.Register` | common/mnc/service/service_manager.cpp:153-161 | Refuses exactly a repeated name or unit |
| `Services.Find` | common/mnc/service/service_manager.cpp:163-171 | The registered service of that name, or none |
| `Services.ServiceManager.StartOne` | common/mnc/service/service_manager.cpp:173-184 | Extends the order by the service and what it still needs, dependencies first; a failure comes only from something below it that cannot start |
| `Services.ServiceManager.StartRegistered` | common/mnc/service/service_manager.cpp:186-193 | On every acyclic graph: each service at most once, after everything it names; succeeds exactly when everything wanted can start, and then starts exactly the auto-start services and what they depend on |
| `Services.CommandsMean` | common/mnc/service/service_manager.cpp:180-183 | Exactly the services that were not running get a start command |
| `Services.TransitivelyFirst` | common/mnc/service/service_manager.cpp:173-184 | In such an order every transitive dependency comes first |
| `Services.ReachableStarted` | common/mnc/service/service_manager.cpp:173-184 | Such an order is closed under dependencies |

## Left out

- Outbox.Repository.Enqueue: assumes that an artifact id determines destination and format; failures of the file system and of SQLite between the steps are the runs that stop there.
- Outbox.Repository.FinishPendingDeletions: every removal succeeds here; files that cannot be removed are in OutboxStartup.ErasedReturnsIff.
- Outbox.Repository.Initialize: starts from a durable disk; OutboxStartup.StartupManifestsIff and StartupHonest cover any disk. The flag that makes a second call in the same process do nothing is not modelled.
- OutboxRecovery.CrashRecovery: a process crash; a power loss, which may undo unsynced removals, is OutboxPowerLoss.PowerLossRecovery.
- OutboxRecovery.ErasedStaysErased: likewise; OutboxPowerLoss.EraseFinalIff says when it also holds against power loss.
- OutboxPowerLoss.PowerLossRecovery: one power loss and the startup after it; the quota, and rows that deny a payload which came back, are not followed further.
- OutboxSweep.IdsFreePlain: leaves the listings in which one file's fallback id is another's first id to OutboxSweep.SweepManifestsIff.
- Outbox.Repository.ReconcileRow: starts from a durable disk, on which payloads match; OutboxStartup.StartupHonest covers any disk. An unreadable file of the right size is not distinguished from a mismatch, and the two statements that note an error and block deliveries are one write.
- Outbox.Repository.ReconcileRows: likewise.
- Outbox.Repository.SweepDirectories: starts from a durable disk; OutboxSweep.SweepListing is the same loop on any disk.
- OutboxSafety.ClaimableWithinLongestWait: is about when a delivery can be claimed; how often the delivery loop runs is the caller's.
- Outbox listing, previews, chunked reads, channel validation, audit rows, error texts and remote result texts: no further invariant rests on them.
- Scheduler.Engine.ApplyJobs: entries with equal ids keep their order; job status reporting is not modelled.
- Scheduler.Engine.GenerateDue: one outcome per attempted window stands for generation, encoding and enqueueing; Pipeline.GenerateWindow is the attempt over the repository itself.
- Scheduler.NeverTwice: assumes a clock that does not go back; Scheduler.InOrderIff needs no clock. 64-bit overflow of window ends is not modelled.
- Delivery.DeliverDue: attempts claimed deliveries in any order and without another thread erasing them meanwhile.
- EnergyLedger.Store.Ingest: one calculation window and one source sequence stand for those of all 28 readings; the history tables and audit columns beyond the idempotency key and the epoch are not modelled.
- DemandLedger.Store.Ingest: likewise for the twelve demand readings; epochs are unbounded where the program's are 64 bits wide.
- EnergyFamilyAssembler and the record decoders of common/msap1/meter/energy_demand.cpp: a smaller relative of the harmonic assembler.
- PqdifLayout.AssignCollection: returns the annotated blocks instead of writing offsets into the tree; 64-bit overflow of a single vector's byte count is not modelled.
- PqdifFile.WriteFile: bodies are given as bytes, so zlib, the checksum and the configured output limit are outside; the four record trees themselves, real8 conversion and comment text are not modelled.
- Comtrade.Timestamps: sample values, digital words, batching, triggers and the CFG, INF and HDR texts are not modelled.
- Harmonic.HarmonicFamilyAssembler.AcceptChunk: takes decoded chunks; the bit fields of a record and the distortion figures are not modelled.
- ModbusRtu.RtuFrameAssembler.Push: serial timing and the t3.5 timer are not modelled; the CRC is a parameter of ModbusHandler.ProcessFrame.
- Dataset.Generate: column labels and the historian query are not modelled; equal sort keys keep their input order.
- Dataset.Aggregate: the circular average, which is floating point, is not modelled.
- Services.ServiceManager.StartRegistered: the active states are those found at the start; a cyclic graph, on which the program recurses without end, is excluded by the rank argument.
- Command tables, JSON and CSV rendering, IPC codecs, MQTT, sockets, settings and logging: presentation and plumbing.
