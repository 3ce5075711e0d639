# The order-management kernel, verified

A Dafny model of the order-management kernel and of the concurrent and durable machinery around it.
Each part has a value-level specification (pure functions on sequences and maps), imperative code in the
form of the original (classes over arrays, loops) proved equal to it, and theorems about the
specification over all runs. `dafny verify dfyconfig.toml` checks everything.

| files | what they model |
|---|---|
| `exec_types`, `oms_spec`, `life_cycle`, `index_table`, `store_table`, `oms_store`, `ref_hash` | the order store: a dense array and an open-addressed index with tombstones, swap-with-last reclaim and in-place rehash, refining a finite map; how full the index gets, and the hash it is used with; the life cycle of an order, said on what happened to it |
| `report_spec`, `report_sequencer`, `report_answers`, `report_confluence`, `held_slots`, `terminal_memory` | the report sequencer: duplicates, the gap pool, the cascade, independence of arrival order, when each answer is given, whose reports are held, and what is remembered of finished orders |
| `journal`, `sharded_oms`, `recovery_streaming` | the writer and the reader of the journal |
| `held_reports`, `journal_round_trip`, `journal_runs`, `duplicate_window`, `record_hash`, `wal_merge`, `crash_recovery`, `torn_crash` | writer and reader undo each other: per request, over runs, through the duplicate window, for every interleaving of the shards, and for a crash that cuts every shard's stream at a point of its own |
| `by_order`, `restart`, `two_logs`, `second_crash` | what is left of that after a restart: when the journals of both runs can be replayed again |
| `wal_tailer` | exactly-once tailing of a log that grows and rotates |
| `reconciliation`, `recovery_workflow` | comparing the books and the READY gate |
| `risk_concurrency`, `solo_grant`, `risk_ledger`, `named_limits` | the lock-free limits under every interleaving and what is granted without one, the reservation lifecycle, and each limit by its own name |
| `ring_buffer`, `rings`, `words` | the single-producer single-consumer ring with wrapping counters; rings and word arithmetic used elsewhere |
| `scheduler_spec`, `quantum_service`, `strategy_scheduler` | deficit round robin: no starvation, and what the quanta are worth |
| `rate_limiter`, `exact_rate` | token buckets and the deferred ring, and exactly what they let through |
| `book_spec`, `order_book`, `book_deltas`, `crossed_book` | the depth-limited order book, what each update does to its levels, and how long it may stay crossed |
| `account_spec`, `money`, `broker_spec`, `broker_fills`, `broker_slots`, `paper_broker`, `account_journal` | the paper broker with a netting account: a law of money, its fills, its order slots, and what is read back of its account and position records |
| `philox`, `philox_answers`, `sha256_stream` | the counter-based generator and streaming SHA-256 |

## Where the code and what is said of it differ

The model follows the code. Each difference has a lemma with the exact condition or a concrete input.

- A fill adds its volume before the transition that may refuse it (include/oms/oms.hpp:152-158). So a report
  delivered twice can count twice, and over arrivals none of which finds the gap pool exhausted arrival order
  matters, exactly when such a fill comes up (`ConfluentExactlyWhenSettled`, `RetransmittedFillCountsTwice`),
  and the journal loses it (`UnsentFillIsLost`).
- A report that finds the gap pool full is dropped (include/oms/report_sequencer.hpp:193), and then arrival order
  matters too (`ExhaustedPoolMatters`). That happens exactly when the report is ahead of its turn and as many
  reports are held as the pool has slots (`DroppedExactlyWhenFull`). Some continuation then shows the difference
  exactly when no copy of the report is held and its order, given its reports in turn, would still take it
  (`DroppedForGoodExactlyWhenLost`).
- A report delivered twice before its turn is held twice (include/oms/report_sequencer.hpp:112-117). One copy is
  taken in its turn; the other can never be applied and keeps its slot until its order ends (`HeldTwiceStays`,
  `PassedKeepsSlot`).
- Reports applied out of the gap pool are not journalled (`DrainedReportIsLost`). What the pool holds next decides
  whether that matters: a cascade loses nothing exactly when the held reports are quiet (`SilentIffQuiet`). A run
  can be replayed at every crash point exactly when every request of it is journalable
  (`RecoversAtEveryCrashPoint`).
- The duplicate window is said never to invent a duplicate (include/oms/recovery_streaming.hpp:68-71). Its
  hash lets any change of one field be made up for in the next, so it can (`InventsADuplicate`), and stop a
  replay that would go through (`TwinStopsReplay`); a replay changes exactly when a record repeats the hash left
  in its slot (`WindowOnlyStopsRepeats`).
- After a restart the requests are numbered from 0 again (include/oms/sharded_oms.hpp:732), restoring writes
  nothing (include/oms/sharded_oms.hpp:514-526), and what ends a recovered order is written as a step from
  unknown, a state the replayed order need not be in. So once such an order has been resolved, a second crash
  can leave a journal that is refused (`ResolutionIsRefused`); behind the first run's segments the second run's
  replay exactly when each order it resolved had been left unknown and had no record numbered higher
  (`SecondCrashRecovers`). The recorder opens only a directory that has no segment 0
  (src/persist/wal_writer.cpp:143), and the second run's journal alone recovers exactly when the first crash had
  left no order live (`AloneRecoversIffNothingLeft`).
- The broker's account records are refused by the reader when the margin used exceeds the equity
  (`AccountIsReadBack`), and the one a stop-out writes unless the free margin happens to equal its reason
  (`StopOutIsReadIff`). A fill that turns a position round writes the new position only
  (include/exec/paper_broker.hpp:495-516): a netting reader refuses that, a hedging one is left with both open
  (`TurnIsNotReadBack`). Position records are read back exactly when they are coherent (`PositionsAreReadBack`).
- An empty index cell is said to be always reachable (include/oms/oms.hpp:199-202). That is so in every run
  exactly when the capacity is not a power of two (`EmptyCellIffNotPowerOfTwo`), also with the hash the store
  really uses (`RealHashFillsTable`); the bounded pass is what makes probes right.
- `retry_after_resolution` is said to reach READY when both books now agree. It waits for an empty
  comparison, and matched orders are listed too: given room, it enters READY exactly when nothing is open on
  either side (`RetryAfterResolution`).
- A result buffer that is too small hides breaks. READY cannot be entered on books that differ exactly when the
  buffers suffice (`SoundIffRoomSuffices`, `RetrySoundIffRoomSuffices`); for every smaller choice there are two
  books that look clean and differ (`LooksCleanInError`).
- A reader resumed from an older cursor delivers again: what it has delivered stays a prefix of the log exactly
  when it is resumed in the place it had come to (`PrefixIffResumedInPlace`).
- A sealed segment that cannot be opened is passed over, and what was left in it is lost (`SkippingLoses`). When
  the last one cannot be opened the answer is idle (include/persist/execution_wal.hpp:172), and a recovery goes on
  without that tail: after idle the reader is caught up exactly when the segment was opened or had nothing new
  (`IdleIsCaughtUp`).
- Releasing a reservation that was filled beyond its volume never gives the excess back
  (`OverfillIsNeverReturned`).
- A removal from a ladder that has dropped levels leaves it short of the best 32 (`EraseKeepsBestIff`).
- An order refused for a stale quote or for margin keeps the slot it was given (`RefusalTakesSlot`,
  `ShortMarginGetsStuck`). Whatever the margin and the quotes, no order submitted to a broker ever finds a slot
  again exactly when its 256 slots are used up like that (`NeverASlotIffStuck`); as long as the margin and quote
  checks can pass, that is exactly when it never accepts an order again (`NeverAcceptsIffStuck`).
- The range draw reaches every value of its range exactly when the span does not wrap to 0; asked for the whole
  64-bit range, all it gives is the lower end (`ReachesAllUnlessWrapped`).

## Model

| member | source | states |
|---|---|---|
| IndexTable.ProbeFindsLive | include/oms/oms.hpp:203-212 | For any hash function, a probe succeeds exactly for the live references, at the cell recorded for them |
| IndexTable.FindIsLookup | include/oms/oms.hpp:180-187 | Finding is looking up in the map: found exactly when live, and the very order |
| IndexTable.RoomForInsert | include/oms/oms.hpp:214-226 | With fewer live orders than cells an insert finds a cell that is free, and every cell before it on the path is taken, with or without an empty cell |
| IndexTable.InsertKeeps | include/oms/oms.hpp:216-226 | After an insert cells and slots are again in bijection and no probe path to a live order crosses an empty cell |
| IndexTable.ReclaimKeeps | include/oms/oms.hpp:228-251 | The same after a reclaim: tombstone, swap with the last order, index entry re-pointed |
| IndexTable.MovedProbe | include/oms/oms.hpp:240-245 | Between the tombstone and the re-pointing the moved order is still found at its old cell |
| IndexTable.DenseIsEnumeration | include/oms/oms.hpp:228-235 | The dense range lists every live order exactly once |
| StoreTable.CellsAreAccounted | include/oms/oms.hpp:199-258 | Over every run, for any hash: live orders, tombstones and empty cells make the index, and neither of the first two exceeds the capacity |
| StoreTable.EmptyCellIffNotPowerOfTwo | include/oms/oms.hpp:199-202 | Every run of every hash leaves an empty cell exactly when the capacity is not a power of two |
| StoreTable.RunFillsTable | include/oms/oms.hpp:199-202 | For a capacity that is one and a hash that reaches every cell: a run of creations and finished orders after which no cell is empty |
| StoreTable.RenamedByProbes | include/oms/oms.hpp:236-245 | The two cells the probes of a reclaim find are the only ones that name the slots it changes |
| RefHash.EveryWordIsAHash | include/oms/oms.hpp:48-54 | In every run every 64-bit word is the hash of some order's reference |
| RefHash.RealHashFillsTable | include/oms/oms.hpp:48-54 | So with the real hash too, over runs whose references are of one run and have 64-bit numbers, an empty cell is always left exactly when the capacity is not a power of two |
| OmsStore.Oms.constructor | include/oms/oms.hpp:58-80 | The store starts as the empty map, its index a power of two at least twice the capacity |
| OmsStore.Oms.ProbeFind | include/oms/oms.hpp:203-212 | The probe loop returns the first hit before an empty cell within one pass |
| OmsStore.Oms.IndexInsert | include/oms/oms.hpp:216-226 | The insert loop takes the first free cell and keeps the tombstone count equal to the tombstone cells |
| OmsStore.Oms.Find | include/oms/oms.hpp:180-187 | The live order, or nothing |
| OmsStore.Oms.At | include/oms/oms.hpp:189-190 | The i-th order of the dense range is live and is the map's order |
| OmsStore.Oms.Create | include/oms/oms.hpp:123-136 | Creation on the map: refused for a known reference or a full store, otherwise a pending order with its whole volume reserved |
| OmsStore.Oms.Restore | include/oms/oms.hpp:111-121 | Restoring on the map, with every refusal and the reservation only in a reserving state |
| OmsStore.Oms.Transition | include/oms/oms.hpp:138-150 | A transition on the map and on the table: legality, release of the reservation, removal when terminal |
| OmsStore.Oms.Fill | include/oms/oms.hpp:152-158 | A fill on the map: the volume is added even when the transition is then refused |
| OmsStore.Oms.RecoverFill | include/oms/oms.hpp:160-165 | The replay fill: adds volume, no transition |
| OmsStore.Oms.MarkUnknownOnRestart | include/oms/oms.hpp:167-172 | Any order not finished becomes unknown |
| OmsStore.Oms.Replace | include/oms/sharded_oms.hpp:481-492 | A replace on the map: price and volume written directly, the reservation untouched |
| OmsStore.Oms.Reclaim | include/oms/oms.hpp:236-251 | Exactly the finished order leaves the map; its cell becomes a tombstone, the last order's cell names its slot, and too many tombstones have the index rebuilt |
| OmsStore.Oms.Rehash | include/oms/oms.hpp:253-258 | Rebuilding the index in place keeps the map, clears every tombstone, and enters the live orders afresh in slot order |
| OmsSpec.ReservedIsLiveTotalMinusDrift | include/oms/oms.hpp:106-178 | In every run the reserved exposure is the live requested total less the drift: what replaces moved it by, and what restored orders without exposure ask for until risk refuses them |
| OmsSpec.NoReplaceNoDrift | include/oms/oms.hpp:106-110 | Without replaces and without restored orders that hold no exposure it is exactly the live requested total, partial fills and unknown orders included |
| OmsSpec.ReplaceMovesTotalAway | include/oms/sharded_oms.hpp:481-492 | A replace from 10 to 25 leaves 10 reserved |
| LifeCycles.AcceptedExactlyWhen | include/oms/order_state.hpp:4-14 | In every run, for every operation: accepted exactly when the past of its order lets it, said on what was accepted before. An acknowledgement after being sent and not yet; a reject between the two, or when unknown; a request to cancel once acknowledged, not asked before, not unknown; a confirmation after the request; unknown when sent and not acknowledged, or cancelling; an expiry before any fill; a partial fill before any request to cancel, a full one after too; an unknown order only ends |
| LifeCycles.PastIsFollowed | include/oms/oms.hpp:106-172 | In every run an order is live exactly when it was begun and has not ended since, asks for what it was created with or last replaced to, has filled every fill that fitted, and is in the state its past tells |
| LifeCycles.CancelRequested | include/oms/order_state.hpp:8-9 | A request to cancel is accepted exactly when the order was acknowledged and has since neither ended, gone unknown nor had one accepted, whatever was filled of it |
| ReportSequencer.GapPool.Hold | include/oms/report_sequencer.hpp:112-117 | Holds in the first free slot, or fails when there is none |
| ReportSequencer.GapPool.Take | include/oms/report_sequencer.hpp:119-129 | Takes the first held report of that order and number |
| ReportSequencer.GapPool.DiscardAllFor | include/oms/report_sequencer.hpp:131-134 | Drops exactly the reports held for one order |
| ReportSequencer.TerminalCache.RecordRef | include/oms/report_sequencer.hpp:152-156 | Overwrites the oldest entry of the ring |
| ReportSequencer.TerminalCache.Contains | include/oms/report_sequencer.hpp:158-162 | Whether the ring still remembers a reference |
| ReportSequencer.Sequencer.Process | include/oms/report_sequencer.hpp:184-198 | The five ways a report can go, over the real store, as the specification's function of the state before |
| ReportSequencer.Sequencer.Apply | include/oms/report_sequencer.hpp:204-244 | Applying one report: the store, the number stamped, the finished reference remembered |
| ReportSequencer.Sequencer.DrainFor | include/oms/report_sequencer.hpp:246-257 | The cascade over held reports |
| ReportSpec.ApplyOneIsLocal | include/oms/report_sequencer.hpp:204-244 | A report changes its own order only, by a function of that order |
| ReportAnswers.AnsweredExactly | include/oms/report_sequencer.hpp:184-198 | Each of the seven answers, exactly when: by whether the order is live or remembered, its number against the report's, the free slots, and the states and volumes from which the order takes the report; only an applied, refused or held one changes anything |
| HeldSlots.HeldIsLive | include/oms/report_sequencer.hpp:246-257 | Over every run of reports only reports of live orders are held: those of an order that ends are given up |
| HeldSlots.PassedKeepsSlot | include/oms/report_sequencer.hpp:119-134 | A held report whose number its order already has keeps its slot whatever comes, until the order ends, and then it is given up |
| HeldSlots.HeldTwiceStays | include/oms/report_sequencer.hpp:112-117 | A report delivered twice before its turn leaves such a one behind |
| ReportConfluence.EveryOrderIsItsPrefixFold | include/oms/report_sequencer.hpp:184-257 | At every moment of every arrival order with repeats, of any length, in which no report is lost to a full pool, each order is the in-order fold of its longest received prefix, and its last number says how long that is |
| ReportConfluence.Confluence | include/oms/report_sequencer.hpp:184-257 | Two such arrival orders of the same reports end in the same live orders |
| ReportConfluence.ConfluentExactlyWhenSettled | include/oms/report_sequencer.hpp:184-257 | Over all arrivals, of any length, none of which is answered with an exhausted pool: arrival order is irrelevant exactly when no fill that is refused counts |
| ReportConfluence.DroppedExactlyWhenFull | include/oms/report_sequencer.hpp:192-193 | A report is answered with an exhausted pool exactly when its order is live, it is ahead of its turn and every slot is taken; nothing changes then |
| ReportConfluence.DroppedForGoodExactlyWhenLost | include/oms/report_sequencer.hpp:36-39 | Whatever arrives afterwards, every order is the fold of its longest received prefix, exactly unless the dropped report would still have been taken and no copy of it is held |
| ReportConfluence.ExhaustedPoolMatters | include/oms/report_sequencer.hpp:192-193 | With one slot, three reports backwards leave an order live that they end in order |
| ReportConfluence.RefusedAgain | include/oms/oms.hpp:152-158 | Exactly such a fill makes a second delivery change the order again |
| ReportConfluence.DeliveredTwice | include/oms/report_sequencer.hpp:184-198 | For any script with such a fill, at any place, two deliveries of the same reports that end differently and never exhaust the pool |
| ReportConfluence.RetransmittedFillCountsTwice | include/oms/oms.hpp:152-158 | A concrete fill, refused twice, that leaves twice its volume |
| TerminalMemory.RemembersTheLast | include/oms/report_sequencer.hpp:152-162 | The ring remembers exactly the last references recorded, as many as it has places |
| TerminalMemory.LateExactlyWhenRemembered | include/oms/report_sequencer.hpp:184-189 | Over every run of reports and requests, a report for an order no longer live is late when the order is among the last ones that reports finished, as many as the cache has places, and otherwise unknown |
| ShardedOms.Shard.ApplyRequest | include/oms/sharded_oms.hpp:445-549 | One request on one shard: the new state, whether it was accepted, and exactly the records pushed |
| RecoveryStreaming.DuplicateWindow.constructor | include/oms/recovery_streaming.hpp:76-79 | A table of zeros, a power of two at least as large as asked |
| RecoveryStreaming.DuplicateWindow.CheckAndRecord | include/oms/recovery_streaming.hpp:81-87 | Flags a hash equal to the one in its slot, and stores it, 0 as 1 |
| RecoveryStreaming.ApplyToStore | include/oms/recovery_streaming.hpp:159-197 | The effect of one record on the store, or its refusal, branch by branch |
| RecoveryStreaming.RecoverStreaming | include/oms/recovery_streaming.hpp:131-242 | The whole loop: refused at the first misfit or repeat and at a corrupt frame, otherwise the replayed store and ledger with every live order unknown |
| RecoveryStreaming.MarkLive | include/oms/recovery_streaming.hpp:226-231 | Every order still live becomes unknown, nothing else changes |
| HeldReports.DrainIsDrained | include/oms/report_sequencer.hpp:246-257 | The cascade does to its order what the held reports, taken by number, do to it one after the other |
| HeldReports.SilentIffQuiet | include/oms/report_sequencer.hpp:246-257 | A cascade changes nothing the journal would have to record exactly when the held reports are replaces, the last of which restates volume and recorded price, and then nothing that acts on the order |
| JournalRoundTrip.ReadState | include/oms/recovery_streaming.hpp:167-176 | A state record is accepted exactly when the order is in the state, with the volumes and the legality it names |
| JournalRoundTrip.CreateRound | include/oms/sharded_oms.hpp:637-639 | The record of a creation is read back exactly for non-zero ids, a positive volume, a known symbol and room |
| JournalRoundTrip.TransitionRound | include/oms/sharded_oms.hpp:640-648 | The records of a transition bring the reader to the same state |
| JournalRoundTrip.FillRound | include/oms/sharded_oms.hpp:649-658 | Fill record, then state record: the reader ends with the same filled volume and state, or without the order |
| JournalRoundTrip.ReplaceRound | include/oms/sharded_oms.hpp:659-663 | A replace is read back exactly on an acknowledged order at a positive price |
| JournalRoundTrip.ReportRound | include/oms/sharded_oms.hpp:664-697 | The records of an applied report are accepted exactly when the reader's stricter conditions hold |
| JournalRoundTrip.RequestRound | include/oms/sharded_oms.hpp:596-699 | One request: followed by the reader when kept, and matched only when kept |
| HeldReports.NothingHeldIsSilent | include/oms/report_sequencer.hpp:246-257 | With nothing held for the next number the drain changes nothing |
| JournalRuns.StepFollows | include/oms/sharded_oms.hpp:445-549 | The simulation between the shards and the reader is kept by every journalable request |
| JournalRuns.MirrorFollows | include/oms/recovery_streaming.hpp:131-242 | From any reader that mirrors the system, the log of a journalable run is accepted and keeps it a mirror |
| JournalRuns.RunFollows | include/oms/recovery_streaming.hpp:131-242 | After any journalable run the whole log is accepted and mirrors the live orders |
| JournalRuns.RecoversAtEveryCrashPoint | include/oms/recovery_streaming.hpp:131-242 | Every crash point of a run can be replayed exactly when every request of it is journalable |
| WindowedReplay.WindowOnlyStopsRepeats | include/oms/recovery_streaming.hpp:61-73 | The window makes a replay fail exactly when a record's hash equals the last one stored in its slot, and changes nothing otherwise |
| WindowedReplay.DistinctIsUnflagged | include/oms/recovery_streaming.hpp:81-87 | Different records with different hashes never trip a window of two slots or more |
| RecordHash.TwinHash | include/oms/recovery_streaming.hpp:95-110 | For every record and every other value of one field there is a value of the next that gives the same hash |
| RecordHash.InventsADuplicate | include/oms/recovery_streaming.hpp:66-71 | A different record that the window takes for a repetition, for every record of non-zero hash |
| RecordHash.TwinStopsReplay | include/oms/recovery_streaming.hpp:66-71 | A confirmation and such a record are accepted one after the other by the reader itself and refused with the window |
| WalMerge.StableSortMeaning | include/oms/restart_recovery.hpp:79-80 | The sort is in time order and keeps the order of equal times |
| WalMerge.SortedIsUnique | include/oms/restart_recovery.hpp:61-63 | A sequence in time order is determined by what it holds at each time |
| WalMerge.SortUndoesInterleaving | include/oms/restart_recovery.hpp:44-67 | Whatever interleaving of the shards' streams the file holds, sorting gives the one log |
| WalMerge.Recorder.Push | include/persist/live_wal_recorder.hpp:66-69 | A record enters its shard's ring unless that is full |
| WalMerge.Recorder.Pop | include/persist/live_wal_recorder.hpp:94-104 | One record leaves a ring for the file; each shard's file stream followed by its ring stays what it was given |
| WalMerge.Recorder.DrainOnce | include/persist/live_wal_recorder.hpp:94-104 | A pass empties every ring, and the file interleaves everything accepted |
| WalMerge.ReadAndOrder | include/oms/restart_recovery.hpp:68-82 | All records up to the first idle or end, in order; nothing after a failure |
| CrashRecovery.LogIsOrdered | include/oms/sharded_oms.hpp:534-546 | The log is in time order, no two records alike, and each record's time names its request |
| CrashRecovery.CrashRecovers | include/oms/restart_recovery.hpp:96-118 | The durability round trip: for any shards, run, interleaving and collision-free hash, recovery yields exactly the live orders with volumes and price, every one unknown |
| TornCrash.SurvivorsFollow | include/oms/recovery_streaming.hpp:131-242 | Of a log it accepts, the reader accepts what a prefix of each shard's stream leaves, and reads every order as the whole log stood when its shard lost its first record |
| TornCrash.TornCrashRecovers | include/oms/restart_recovery.hpp:96-118 | A crash that keeps any prefix of each shard's stream, in any interleaving: recovery accepts the file, and every order is recovered as of the first record its shard lost, a fill whose state is missing counted |
| ByOrder.FoldsAreAccepted | include/oms/recovery_streaming.hpp:131-242 | A log in time order each order of which takes its own records is accepted, given room |
| ByOrder.AcceptedFolds | include/oms/recovery_streaming.hpp:131-242 | And only such a log; every order then is what its own records make of it |
| Restarts.RestoreRestarts | include/oms/restart_recovery.hpp:119-126 | Restoring the recovered orders one by one into fresh shards with room puts exactly them there |
| TwoLogs.TwoRunsRead | include/oms/restart_recovery.hpp:68-82 | A log, and one that begins with its orders marked, sorted into each other: accepted exactly when every order fits, each then as the second leaves it |
| SecondCrash.RunKeepsOrResolves | include/oms/sharded_oms.hpp:596-699 | Over a journalable run a recovered order stays unknown and nothing is written about it, or it ends and exactly that is written |
| SecondCrash.SecondCrashRecovers | include/oms/restart_recovery.hpp:94-126 | Crash, recovery, restart, another run and another crash: both journals together are replayed exactly when every recovered order the second run wrote about had been left unknown, with no record numbered higher, and no record repeats a hash; and then the live orders of the second run are recovered |
| SecondCrash.AloneRecoversIffNothingLeft | include/persist/live_wal_recorder.hpp:47-58 | The second journal alone recovers the second run's live orders exactly when the first crash left none, and no record repeats a hash |
| SecondCrash.ResolutionIsRefused | include/oms/sharded_oms.hpp:514-534 | An order sent, recovered, then cancelled: after the second crash the recovery fails |
| CrashRecovery.UnsentFillIsLost | include/oms/sharded_oms.hpp:475-480 | A fill before the order is sent is refused, counted, and lost by the journal |
| CrashRecovery.DrainedReportIsLost | include/oms/sharded_oms.hpp:493-503 | A report applied out of the gap pool is lost by the journal |
| WalTailers.GrowsIsPrefix | include/persist/execution_wal.hpp:26-48 | A log that only appends and seals extends its records at the end |
| WalTailers.AttemptKeeps | include/persist/execution_wal.hpp:126-155 | One attempt keeps the account of cursor, buffer and delivered records, whatever was written between scan and read |
| WalTailers.FromTheCursorOn | include/persist/execution_wal.hpp:106-155 | Over every run in which the reader is resumed from any cursor it had, what was delivered since is exactly the log from that cursor to the current one |
| WalTailers.DeliveredIsAPrefix | include/persist/execution_wal.hpp:106-155 | Over every run resumed in place, what is delivered is a prefix of the log: nothing lost, repeated or reordered |
| WalTailers.PrefixIffResumedInPlace | include/persist/execution_wal.hpp:106-111 | After resuming from a saved cursor, all that is delivered is a prefix of the log exactly when the cursor marks the place the reader had come to |
| WalTailers.IdleIsCaughtUp | include/persist/execution_wal.hpp:148-172 | After idle everything committed at the scan lies before the cursor, and all of it behind the resumed cursor has been delivered, exactly when the last segment was opened or had nothing new |
| WalTailers.SkippingLoses | include/persist/execution_wal.hpp:167-172 | An unreadable segment followed by another is passed over; the account survives exactly when nothing was left in it |
| WalTailers.ExecutionWalTailer.Resume | include/persist/execution_wal.hpp:106-111 | The saved cursor is taken, the buffer is dropped, a corrupt tailer stays corrupt |
| WalTailers.ExecutionWalTailer.FillFromCurrentSegment | include/persist/execution_wal.hpp:167-191 | Skips what was delivered and buffers up to 4096 of what follows; a torn frame is corrupt |
| WalTailers.ExecutionWalTailer.Attempt | include/replay/wal_tailer.hpp:78-101 | One turn without a buffered record: scan, fill, deliver or move on |
| WalTailers.ExecutionWalTailer.Next | include/persist/execution_wal.hpp:126-155 | A whole call, the status and the record delivered |
| Reconciliation.SortAscends | include/oms/venue_reconciliation.hpp:170-178 | Sorting distinct references gives the one ascending order and keeps every entry |
| Reconciliation.MergeIsExact | include/oms/venue_reconciliation.hpp:186-207 | The merge lists every reference of either side once, ascending, with its class |
| Reconciliation.FullIsExact | include/oms/venue_reconciliation.hpp:167-209 | The same for unsorted input, in no more entries than both sides have |
| Reconciliation.MatchedMeansSame | include/oms/venue_reconciliation.hpp:192-197 | Nothing but matches exactly when both sides agree on orders, states and volumes |
| Reconciliation.CutIsMatched | include/oms/venue_reconciliation.hpp:186-207 | What fits into the buffer shows no break exactly when both sides, sorted, are the same as far as there is room |
| Reconciliation.Compare | include/oms/venue_reconciliation.hpp:167-209 | The three loops write the comparison from the front as far as there is room |
| RecoveryWorkflows.RecoveryWorkflow.BeginRecovery | include/oms/recovery_workflow.hpp:79-85 | Only from disconnected, and only with a recovered store |
| RecoveryWorkflows.RecoveryWorkflow.ListOpen | include/oms/recovery_workflow.hpp:122-128 | As many of the open local orders as fit, and whether any of those is unknown |
| RecoveryWorkflows.RecoveryWorkflow.OpenOrdersAreListed | include/oms/recovery_workflow.hpp:122-128 | The listing has every open local order once |
| RecoveryWorkflows.RecoveryWorkflow.ApplyReports | include/oms/recovery_workflow.hpp:105-118 | The missed reports are processed in turn, and none is counted against the venue exactly when each was, at its turn, late for an order still remembered, of a number its order had, ahead of its turn with a free slot, or next in turn and one its order takes |
| RecoveryWorkflows.RecoveryWorkflow.RunReconciliation | include/oms/recovery_workflow.hpp:96-147 | With buffers of any size, new exposure is allowed exactly when what is listed looks clean and every report was one of those four at its turn; with room, exactly when the books agree, none is unknown and every report was one of those four |
| RecoveryWorkflows.RecoveryWorkflow.RetryAfterResolution | include/oms/recovery_workflow.hpp:160-179 | With buffers of any size, READY exactly when nothing listed is unknown and there is nothing to compare or no room for results; with room, exactly when nothing is open on either side |
| RecoveryWorkflows.SoundIffRoomSuffices | include/oms/recovery_workflow.hpp:96-147 | For books of given sizes, looking clean means being the same book with none unknown exactly when the buffers suffice |
| RecoveryWorkflows.LooksCleanInError | include/oms/recovery_workflow.hpp:96-147 | For all other buffer sizes, two books that look clean and differ |
| RecoveryWorkflows.RetrySoundIffRoomSuffices | include/oms/recovery_workflow.hpp:160-179 | The same for the retry |
| RecoveryWorkflows.CleanMeansAgreement | include/oms/recovery_workflow.hpp:54-57 | No break in the full comparison exactly when the local open orders are the venue's |
| RiskConcurrency.StepKeeps | include/risk/risk_ledger.hpp:477-509 | Every atomic operation of any thread keeps each counter equal to what the threads hold, and every checked sum within its limit |
| RiskConcurrency.NeverOversubscribed | include/risk/risk_ledger.hpp:55-68 | At every moment of every interleaving the granted volume fits the limit and the granted credit the budget |
| RiskConcurrency.OvershootIsTransient | include/risk/risk_ledger.hpp:55-68 | A counter passes its limit only by what is already being taken back |
| RiskConcurrency.ExactAtQuiescence | include/risk/risk_ledger.hpp:477-509 | With no operation in flight each counter is exactly what has been granted, within its limit, and no credit counter is negative |
| RiskConcurrency.WorkProgresses | include/risk/risk_ledger.hpp:477-509 | Each step brings its operation nearer the end, and grants all or nothing |
| RiskConcurrency.WaitFree | include/risk/risk_ledger.hpp:477-509 | Four atomic operations per dimension end any operation, whatever the others do |
| SoloGrants.AloneIsGrantedExactly | include/risk/risk_ledger.hpp:477-509 | Whatever the other threads are in the middle of: a reservation none of them steps in between of is over after four operations per dimension, and granted exactly when every dimension has room and credit for it and the table has room; every counter has moved by its volume then, and none otherwise |
| RiskLedgers.RunConserves | include/risk/risk_ledger.hpp:173-310 | In every run each exposure is what the active reservations need less the overfill released, credit left and credit owed make the budget, and no limit is passed; by the name of each limit in `NamedLimits.EveryLimitHolds` |
| RiskLedgers.ReservationsAreConserved | include/risk/risk_ledger.hpp:241-310 | With fills within the request, each exposure is the sum of requested less filled over the active reservations that touch it |
| RiskLedgers.OverfillIsNeverReturned | include/risk/risk_ledger.hpp:261-270 | Releasing changes the balance exactly when more was filled than requested |
| NamedLimits.EveryLimitHolds | include/risk/risk_ledger.hpp:85-108 | In every run each symbol is within the limit for symbols, each venue within that for venues, each strategy within that for strategies and the whole within the global one; each counter is what the reservations of that symbol, venue or strategy have open, and its credit left and charged make the budget of that kind |
| NamedLimits.GrantedExactlyWhen | include/risk/risk_ledger.hpp:173-217 | After any run a reservation is granted exactly when its volume is allowed, its reference is free, the table has room, and symbol, venue, the whole and the strategy, if it has one, are registered, not halted, and have room under the limit of their own kind and in their own credit |
| NamedLimits.AdjustedExactlyWhen | include/risk/risk_ledger.hpp:289-303 | An increase is granted exactly when the new volume is allowed and each dimension has room under the limit of its own kind; a decrease always |
| NamedLimits.HaltedForGood | include/risk/risk_ledger.hpp:143-145 | A strategy, venue or symbol is halted exactly when it was told to be, at any time before |
| NamedLimits.PositionIsWhatWasSeen | include/risk/risk_ledger.hpp:241-255 | In every run each position is the signed volume seen filled, of the active reservations and of those released |
| RiskLedgers.ObservationsAreIdempotent | include/risk/risk_ledger.hpp:232-254 | Seeing a fill again changes nothing, and a released reservation is never released again |
| RiskLedgers.RiskLedger.ReserveExposure | include/risk/risk_ledger.hpp:477-490 | Adds in every dimension, or takes everything back at the first limit passed |
| RiskLedgers.RiskLedger.ReserveCredit | include/risk/risk_ledger.hpp:491-503 | The same for credit |
| RiskLedgers.RiskLedger.UnwindExposure | include/risk/risk_ledger.hpp:504-506 | Takes the volume from every dimension |
| RiskLedgers.RiskLedger.UnwindCredit | include/risk/risk_ledger.hpp:507-509 | Gives the cost back in every dimension |
| RiskLedgers.RiskLedger.Reserve | include/risk/risk_ledger.hpp:173-217 | All or nothing: reserved everywhere and recorded, or no counter changed |
| RiskLedgers.RiskLedger.Reconcile | include/risk/risk_ledger.hpp:241-255 | Books the fill not yet known, and releases when the order is gone |
| RiskLedgers.RiskLedger.Release | include/risk/risk_ledger.hpp:261-270 | Gives back what is left and the credit, once |
| RiskLedgers.RiskLedger.AdjustReplace | include/risk/risk_ledger.hpp:289-303 | An increase checked against every limit, a decrease always granted |
| RiskLedgers.RiskLedger.UndoReplaceIncrease | include/risk/risk_ledger.hpp:304-310 | Takes exactly the increase back |
| RingBuffers.RingIsABoundedQueue | include/core/ring_buffer.hpp:19-33 | Over every interleaving of loads, writes and publications, popped values and contents make the pushed ones in order, occupancy stays within capacity, and the counters may wrap |
| RingBuffers.RefusalsAreExact | include/core/ring_buffer.hpp:19-33 | A push is refused exactly when the ring is full as it looks at the tail, a pop finds nothing exactly when it is empty as it looks at the head |
| RingBuffers.StepKeeps | include/core/ring_buffer.hpp:19-33 | Each load, slot write and publication of either thread keeps the queue |
| RingBuffers.WriteKeepsOthers | include/core/ring_buffer.hpp:22 | Writing the next slot overwrites nothing still to be popped |
| RingBuffers.TestsAreExact | include/core/ring_buffer.hpp:20-30 | Full, empty and slot are recognised from the wrapped counters |
| RingBuffers.RingBuffer.TryPush | include/core/ring_buffer.hpp:19-25 | On its own: appended when there is room, otherwise nothing |
| RingBuffers.RingBuffer.TryPop | include/core/ring_buffer.hpp:27-33 | On its own: the oldest value, or nothing |
| Words.SlotsNeedDivisor | include/core/ring_buffer.hpp:13-14 | Slots line up across the wrap of the counters exactly for capacities that divide the word |
| Words.MaskIsRemainder | include/core/ring_buffer.hpp:42 | Masking with a power of two less one takes the remainder |
| SchedulerSpec.NextFailsOnlyWhenIdle | include/oms/strategy_scheduler.hpp:134-160 | A dequeue fails exactly when no registered strategy has anything queued |
| SchedulerSpec.BoundedWaiting | include/oms/strategy_scheduler.hpp:39-43 | Whatever is queued meanwhile, a strategy with something queued is served within the sum of the other quanta |
| SchedulerSpec.WaitIsBounded | include/oms/strategy_scheduler.hpp:39-43 | The requests that can still go before a strategy never exceed the sum of the other quanta |
| SchedulerSpec.StrategyOrderIsKept | include/oms/strategy_scheduler.hpp:124-160 | What a strategy queued is what was served of it, in order, followed by what it still has queued |
| QuantumService.VisitServesQuantum | include/oms/strategy_scheduler.hpp:141-158 | Once the cursor arrives at a slot the next requests served, as many as its quantum or as it had queued, are all its own, whatever is queued meanwhile; the cursor leaves exactly with the last of them, and nothing of the visit is carried over |
| QuantumService.SharesFollowQuanta | include/oms/strategy_scheduler.hpp:33-38 | While every strategy stays backlogged, at every moment each has been served so many times its quantum, the same number for all, and at most its quantum more |
| QuantumService.RoundsServeQuanta | include/oms/strategy_scheduler.hpp:33-38 | Over full rounds each backlogged strategy is served exactly its quantum times the rounds |
| QuantumService.RegisteredExactly | include/oms/strategy_scheduler.hpp:103-118 | Registered exactly with a positive quantum, a new name and a free slot, and then with that quantum |
| QuantumService.TakenExactlyWhenRoom | include/oms/strategy_scheduler.hpp:124-132 | After any run a request is taken exactly when what was queued and not served of its strategy leaves room |
| StrategySchedulers.StrategyScheduler.RegisterStrategy | include/oms/strategy_scheduler.hpp:103-118 | A fresh slot, or refusal of a zero quantum, a known id or a full table |
| StrategySchedulers.StrategyScheduler.EnqueueRequest | include/oms/strategy_scheduler.hpp:124-132 | Appended to the strategy's ring, or refused when unknown or full |
| StrategySchedulers.StrategyScheduler.Dequeue | include/oms/strategy_scheduler.hpp:136-161 | One deficit round robin dequeue over the array of slots |
| RateLimiters.TokensAreAccounted | include/oms/rate_limiter.hpp:56-68 | Admitted, left and spilled tokens are what there was and what the rate granted, with stalled and backward clocks |
| RateLimiters.RateIsBounded | include/oms/rate_limiter.hpp:49-68 | Between any two points admissions are at most the burst and the rate over the advance of the clock |
| RateLimiters.VenueRateIsBounded | include/oms/rate_limiter.hpp:178-210 | The same per kind for the venue, immediate and drained requests together |
| RateLimiters.DeferredLeaveInOrder | include/oms/rate_limiter.hpp:178-210 | Deferred requests leave the ring once each, in arrival order; deferred are drained and pending |
| ExactRates.AdmitsExactlyWhenFits | include/oms/rate_limiter.hpp:56-68 | A request is let through exactly when one more fits the burst and the rate's grant since every earlier request, and since the beginning |
| ExactRates.DecidedExactly | include/oms/rate_limiter.hpp:178-195 | After any run a request is admitted exactly when one more of its kind fits, deferred exactly when not and the limiter defers and fewer wait than the ring holds, otherwise refused |
| ExactRates.DrainedExactly | include/oms/rate_limiter.hpp:201-210 | What leaves the ring is the first deferred request that has not left, exactly when one more of its kind fits |
| ExactRates.EveryRequestIsAnswered | include/oms/rate_limiter.hpp:178-210 | Over every run, of each kind: admitted, deferred and refused are the requests and what left the ring |
| RateLimiters.TokenBucket.TryConsume | include/oms/rate_limiter.hpp:56-68 | Refill, then a token if there is a whole one |
| RateLimiters.VenueRateLimiter.AdmitRequest | include/oms/rate_limiter.hpp:178-195 | Admit, defer or reject, with the counters |
| RateLimiters.VenueRateLimiter.TryDrainOne | include/oms/rate_limiter.hpp:201-210 | The front leaves when its own bucket has a token; nothing overtakes it |
| BookSpec.SetKeepsBest | include/book/order_book.hpp:87-97 | Adding or changing a level keeps the ladder the best 32 entries of the whole map |
| BookSpec.EraseKeepsBestIff | include/book/order_book.hpp:74-86 | Removing a level keeps it best exactly when nothing was left outside |
| BookSpec.InsertKeepsOrder | include/book/order_book.hpp:203-221 | Inserting keeps prices strictly ordered and unique |
| OrderBooks.DeltaKeepsOrder | include/book/order_book.hpp:61-102 | Every delta leaves both ladders strictly ordered and within the depth |
| OrderBooks.BookIsTheBestLevels | include/book/order_book.hpp:61-102 | Over a run both ladders are the best levels of all that was set, exactly when no removal uncovers a level left outside |
| BookDeltas.DeltaExactly | include/book/order_book.hpp:61-102 | Refused exactly outside the limits; a removal, or a size of 0 whatever its label, takes exactly its price off, or clears the book when that does not stand; any other puts exactly its size at its price, unless 32 better prices stand |
| BookDeltas.LevelsAreReal | include/book/order_book.hpp:61-102 | In every run of deltas each level has a price within the limits and a size above 0 and within them |
| BookDeltas.QuoteExactly | include/book/order_book.hpp:37-58 | A quote is refused exactly outside the limits or with too wide a spread; otherwise it is the whole book, sizes of 0 too |
| BookDeltas.EveryUpdateIsCounted | include/book/order_book.hpp:37-114 | Over every run each update is counted once, as accepted, rejected or a rebase |
| BookDeltas.LastTwoRebases | include/book/order_book.hpp:108-114 | In every run the book knows the references of the last two rebases, and whether there was one |
| OrderBooks.LadderArray.EraseAt | include/book/order_book.hpp:197-201 | Shifting in place removes one level |
| OrderBooks.LadderArray.InsertSorted | include/book/order_book.hpp:204-221 | Shifting in place inserts in order, drops the worst of a full ladder or refuses |
| OrderBooks.OrderBook.ApplyDelta | include/book/order_book.hpp:61-102 | The whole book after a delta, with its status |
| OrderBooks.OrderBook.ApplyQuote | include/book/order_book.hpp:37-58 | The quote becomes the whole book, or is rejected |
| OrderBooks.OrderBook.RequestRebase | include/book/order_book.hpp:108-114 | Both sides cleared, the references moved on |
| OrderBooks.OrderBook.EvaluateCrossed | include/book/order_book.hpp:223-238 | The counters and the status of a book after an accepted update |
| CrossedBooks.HaltsExactlyWhenExceeded | include/book/order_book.hpp:223-238 | Over every run of updates the halt comes exactly at an accepted update that leaves the book crossed for more accepted updates than tolerated, or for longer than tolerated since the update that crossed it |
| CrossedBooks.CrossedSinceThen | include/book/order_book.hpp:223-238 | That update: the book was not crossed before it and has been ever since |
| CrossedBooks.CrossedAnywhere | include/book/order_book.hpp:223-238 | A book counts as crossed exactly when some bid stands at or above some ask |
| AccountSpec.NettedKeepsBook | include/exec/paper_broker.hpp:486-517 | A fill always finds a slot, keeps one open position per symbol, and moves the net volume by exactly the signed volume |
| AccountSpec.RoomToOpen | include/exec/account.hpp:65-95 | Opening never fails while each symbol has at most one open position |
| AccountSpec.AverageLiesBetween | include/exec/account.hpp:106-112 | The rounded average lies between the old one and the new price |
| Money.FillKeepsWorth | include/exec/paper_broker.hpp:486-517 | At any marks, what a fill realises and what it changes of the worth of the open positions are what the fill itself is worth, exactly, or when it adds to a position up to half a tick for each unit; marked at its own price it changes nothing |
| Money.RealizedIsWorth | include/exec/paper_broker.hpp:486-517 | Over any fills, at any marks: realised and the worth of what is open are what all the fills are worth, up to the summed rounding |
| BrokerSpec.AccountIsConserved | include/exec/paper_broker.hpp:90-263 | Over every run and at any marks: the balance is the initial one plus realised less the commission on every fill, realised and open worth are what the fills are worth up to rounding, net volumes are the sums of the fills, no fill is better than its quote, no order is overfilled, and the corrupted-state halt is never reached |
| BrokerFills.FillsExactlyWhen | include/exec/paper_broker.hpp:349-408 | An order is filled exactly when it works and, for a limit order, the market has gone through its price with no one queued before it, for a market order, slippage is not in its favour; at its price or at the other side's touch with the slippage, for what is left or what is shown; and when the broker halts instead |
| BrokerFills.FilledInTime | include/exec/paper_broker.hpp:314-345 | Never before an order is effective, after it expired, or when it is rejected |
| BrokerFills.EndsInTurn | include/exec/paper_broker.hpp:314-345 | In one turn an order expires exactly when its time is over, is rejected exactly at its first turn in time when the venue rejects it, and otherwise ends only filled |
| BrokerFills.CreditedExactly | include/exec/paper_broker.hpp:703-730 | A queued limit order moves forward exactly when the best price of its side is and was its own and the size there fell |
| BrokerFills.CancelledExactly | include/exec/paper_broker.hpp:226-237 | A cancel is accepted exactly when the first live order of the name is not unknown, and ends it alone |
| BrokerFills.ReplacedExactly | include/exec/paper_broker.hpp:242-263 | A replace is accepted exactly when the first live order of the name is not unknown and the new volume and price keep to what is filled, bounds, step and tick |
| BrokerFills.FillsAreOnOrders | include/exec/paper_broker.hpp:410-417 | Over every run the volumes filled are what the orders in the slots show and what was filled of orders whose slots were taken since |
| BrokerFills.AcceptedExactlyWhen | include/exec/paper_broker.hpp:113-222 | After any run an order is accepted exactly when the early and late checks pass, its symbol is tradable and was last quoted with a spread, volume and price keep to bounds, step and tick, and a slot is unused or holds an ended order |
| BrokerFills.CommissionIsNearest | include/exec/models.hpp:174-181 | The commission is the exact charge to the nearest unit, half up; a rebate is never too large |
| BrokerFills.CommissionFollowsVolume | include/exec/models.hpp:174-181 | Over any fills the commission on a symbol is its rate on the whole volume, up to half a unit for each fill |
| BrokerSlots.RefusalTakesSlot | include/exec/paper_broker.hpp:163-181 | A refused submission takes a slot exactly when it passed the early checks and no order had ended; otherwise it changes nothing |
| BrokerSlots.RefusedOrdersLeak | include/exec/paper_broker.hpp:163-181 | Without a quote, with an old one or with too little margin, each submission takes one more slot |
| BrokerSlots.ShortMarginGetsStuck | include/exec/paper_broker.hpp:179-181 | A run on a valid market in which margin refusals use up every slot |
| BrokerSlots.StuckForever | include/exec/paper_broker.hpp:163-181 | A broker whose slots were all taken by refused orders accepts none in any continuation |
| BrokerSlots.NeverASlotIffStuck | include/exec/paper_broker.hpp:163-170 | After any run, whatever the margin and the quotes: no submission of any continuation finds a slot exactly when the broker is stuck |
| BrokerSlots.NeverAcceptsIffStuck | include/exec/paper_broker.hpp:163-181 | As long as the margin and quote checks can pass, no continuation accepts an order exactly when the broker is stuck |
| PaperBrokers.PositionBook.Open | include/exec/account.hpp:65-95 | The first closed slot is reused, or a new one taken |
| PaperBrokers.PositionBook.Net | include/exec/paper_broker.hpp:486-517 | Netting one fill over the array of positions |
| PaperBrokers.PaperBroker.ApplyFill | include/exec/paper_broker.hpp:410-437 | Order, position, balance, commission and counters after a fill |
| PaperBrokers.PaperBroker.AttemptFill | include/exec/paper_broker.hpp:349-408 | Price and volume of a possible fill, or a halt, or nothing |
| PaperBrokers.PaperBroker.ProcessOne | include/exec/paper_broker.hpp:314-345 | One order's turn: expiry, latency, rejection, acknowledgement, fill |
| PaperBrokers.PaperBroker.OnQuote | include/exec/paper_broker.hpp:89-109 | A quote: queue credit, the market, every live order, the stop-out |
| PaperBrokers.PaperBroker.SubmitOrder | include/exec/paper_broker.hpp:113-222 | Acceptance, or refusal with or without a slot taken |
| PaperBrokers.PaperBroker.CancelOrder | include/exec/paper_broker.hpp:226-237 | A live order ends, an unknown one never |
| PaperBrokers.PaperBroker.ReplaceOrder | include/exec/paper_broker.hpp:242-263 | The new volume must exceed what is filled |
| AccountJournal.AccountIsReadBack | include/oms/recovery_streaming.hpp:213-222 | The two records of an account are read back exactly, if it is consistent and its margin neither negative nor more than its equity, and refused otherwise |
| AccountJournal.RecordsComeInPairs | include/oms/recovery_streaming.hpp:213-225 | The second of them is refused alone or twice, and a log that ends between the two is not recovered |
| AccountJournal.PositionsAreReadBack | include/oms/recovery_streaming.hpp:198-212 | A sequence of position updates is accepted exactly when it is coherent, and then each ticket is as written last |
| AccountJournal.StopOutIsReadIff | include/exec/paper_broker.hpp:552-560 | The record of a stop-out is accepted exactly when the free margin equals the reason written in its place |
| AccountJournal.TurnIsNotReadBack | include/exec/paper_broker.hpp:495-516 | A turned position, of which only the new one is written: refused, or left with both open |
| Philox.BlockFunctionIsAPermutation | include/exec/philox_rng.hpp:49-60 | For each key the ten rounds are a permutation of the counters, with an explicit inverse |
| Philox.RoundUndone | include/exec/philox_rng.hpp:117-125 | One round is undone with the inverses of the odd multipliers |
| Philox.DrawsAreDistinct | include/exec/philox_rng.hpp:63-70 | Under one seed, two draws share a block exactly when order and stage are the same |
| Philox.GenerateBlock | include/exec/philox_rng.hpp:49-60 | The loop, its key moving on between rounds only |
| PhiloxAnswers.KnownAnswer | tests/cpp/philox_determinism.cpp:37-40 | The published answer for the digits of pi, with these multipliers, Weyl constants and ten rounds |
| Philox.MultiplyHighIsExact | include/exec/philox_rng.hpp:127-136 | The high word of the product, exactly |
| Philox.PartsFit | include/exec/philox_rng.hpp:127-136 | No partial product or sum leaves 64 bits |
| Philox.ScaledIsInRange | include/exec/philox_rng.hpp:91-100 | A draw stays within its range |
| Philox.DrawsOfValue | include/exec/philox_rng.hpp:91-100 | Each value of the range is drawn from exactly one interval of 64-bit draws |
| Philox.DrawsAreEven | include/exec/philox_rng.hpp:91-100 | These intervals follow each other, make all draws, and differ in length by at most one |
| Philox.ReachesAllUnlessWrapped | include/exec/philox_rng.hpp:91-100 | Every value of the range is reached exactly when the span does not wrap to 0; when it does, only the lower end |
| Sha256Stream.Sha256.Update | include/risk/limits_verifier.hpp:13 | Feeding bytes appends to the message; refused once finished |
| Sha256Stream.Sha256.Finish | include/risk/limits_verifier.hpp:14 | The digest folds exactly the blocks of the padded message, and stays |
| Sha256Stream.Sha256.ZerosToFill | include/risk/limits_verifier.hpp:14 | The zeros of the padding rule of FIPS 180-4, section 5.1.1 |
| Sha256Stream.PaddingReadsBack | include/risk/limits_verifier.hpp:14 | The padded message is the message, a one bit, fewer zeros than a block, and its length in bits, most significant byte first |
| Sha256Stream.HashPieces | include/risk/limits_verifier.hpp:12-14 | However a message is split, the digest is that of the whole |

## Left out

- Disk, memory mapping, CRC framing, SQLite, logging, dashboards, strategies, models and benchmarks: a segment is a growing sequence of records that ends cleanly or in a torn frame, and the outputs of the latency, slippage, rejection and queue models are inputs.
- Threads, spin-waits and memory orderings: concurrent parts take one atomic load, store or add per step, in any order; the queues in front of the shards are not modelled, so requests are applied one at a time.
- Order fields the kernel only carries (side, type, timestamps, fees) are not in the order store's model; the kill switch is a flag on a create request, and the completion handed back to the caller is not modelled.
- Integer widths: volumes, prices, money and counters are unbounded integers; wrap-around is modelled only for ring counters, the two hashes, Philox and the SHA-256 length.
- Hash functions of the store and of the duplicate window are parameters; the real ones are modelled in `RefHash` and `RecordHash`.
- SecondCrash.SecondCrashRecovers: the second run does not create a reference the first has written about, its requests are journalable, its journal is complete, and the store has room for every order either run created; that the recorder numbers its segments on from the first run's is the caller's doing.
- CrashRecovery.CrashRecovers: assumes that the file holds every record of the run; `TornCrash.TornCrashRecovers` covers a crash that loses the end of some shards' streams, with a store that has room for every order created. No record is dropped at a full ring. Portfolio and position updates of the journal are read but never written by the shards.
- ShardedOms.Shard.ApplyRequest: snapshot and restore requests, the operation log, the completion and `resolve_unknown` are not modelled. The shards in `JournalRuns` are values; this class is one shard's imperative form.
- RecoveryStreaming.RecoverStreaming: counts of open orders and positions, the kill flag and the persisted halt, which are copied to the result, are not modelled.
- WalMerge.Recorder.Pop: a record that the file refuses is dropped by the source; here an append succeeds. So a recorder over a directory that has a segment 0 already, whose log never opens and which drops everything, is not modelled either.
- WalMerge.Recorder.DrainOnce: an append succeeds here too, and no shard pushes during its pass.
- RecoveryWorkflows.RecoveryWorkflow.RunReconciliation: the reports and the venue's book are inputs, as they come out of the venue's calls; what a venue leaves out of its answer is not modelled.
- The batch form of recovery, the restart orchestration around a venue connection, `rebuild_from_snapshot` and position reconciliation would add only easier members.
- RiskLedgers.RiskLedger.Reserve: the reservation table is a bounded map; its deletion without tombstones, after which probes can miss, is not modelled. `attribute_strategy` is left out.
- RiskConcurrency.NeverOversubscribed: one thread owns one reservation at a time; position counters are not part of the transition system.
- PaperBrokers.PaperBroker.ApplyFill: the order's own average price, the journal record and the release of reserved margin are left out.
- PaperBrokers.PaperBroker.OnQuote: the stop-out decision is an input, and mark-to-market is left out.
- PaperBrokers.PaperBroker.SubmitOrder: margin, quote age, timestamps, the duplicate set and reduce-only checks are inputs, because margin reservation and release use different prices. Hedging accounts are left out.
- BrokerSlots.NeverAcceptsIffStuck: the margin and the age of the quote are inputs, so its other half speaks of brokers for which those checks can pass; `NeverASlotIffStuck` holds whatever they are. Runs and continuations name orders by references other than 0, which no submitted order has; a cancel of reference 0 would free a blank slot (`NamelessCancelFrees`).
- RateLimiters.RateIsBounded: rates and tokens are real numbers; rounding of the doubles is not modelled.
- Sha256Stream.Sha256.Finish: the compression of one block is a parameter; messages are under 2^61 bytes.
- WalTailers.ExecutionWalTailer.Next: a call takes the observations its attempts make; with too few of them it has not returned yet.
- The book's checksum and the wire form of a rebase are left out.
