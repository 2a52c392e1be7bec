# fastetcd, modelled and proved in Dafny

fastetcd is an etcd-compatible store: an MVCC key-value store replicated with
openraft. Its own hard parts are the layer around openraft, and this project
models those: what survives a crash, what a batched log entry means, when a
read may be served, who holds a lock or a lease, how a snapshot travels, and
what a transaction may touch. `dafny verify dfyconfig.toml` checks everything.

| file | component |
|---|---|
| `Common.dfy` | an option type and two small definitions used throughout |
| `Wal.dfy`, `Durability.dfy` | the WAL, the data file, checkpoints, purges and crashes as one step system |
| `WalWriter.dfy`, `Segments.dfy` | the WAL's group-commit writer thread, and its segment files |
| `Votes.dfy` | saved votes across crashes |
| `SlotMap.dfy` | the in-memory log with eviction |
| `Batch.dfy`, `Proposer.dfy` | batched proposals, their application across crashes, and the queue in front |
| `ReadIndex.dfy`, `TwoLeaders.dfy` | the linearizable read barrier, and where it falls short |
| `Keys.dfy`, `RangeOptions.dfy` | byte-string ranges; sort, filters and limit of a Range |
| `Lock.dfy`, `WaitDeletes.dfy`, `Lessor.dfy` | lock and election services, waiting for deletions, lease deadlines |
| `SnapshotBody.dfy`, `SnapshotInstall.dfy`, `SnapshotFile.dfy` | writing, installing and receiving a snapshot |
| `ProposalLog.dfy` | proposals counted per log index |
| `Authz.dfy`, `Precheck.dfy` | authorization of nested transactions, and the leader's check before proposing |
| `Recovery.dfy` | restoring a corrupt data file from a backup |

Concurrency is a step system: a state, the steps with their guards, and theorems
over every run. Objects the source updates in place are classes; loops are loops.

## What is taken as given

- openraft: leaders are ordered by term and then by node id; a leader has a
  quorum of saved votes; committed entries are in every later leader's log below
  its first entry (Leader Completeness, section 5.4 of the Raft paper); it
  appends, truncates and purges where the guards of the steps say; a leader
  answers a write after applying it.
- In `ReadIndex.dfy` a saved vote and a durable log survive a restart.
  `Votes.VoteNeverFalls` and `Durability.CrashThenReplayIsNeverCrashing` say in
  which runs they do.
- The engine keeps a prefix of its commits in a crash, all of each or none; the
  WAL keeps its synced records and a prefix of the rest. What a power cut leaves
  is on the disk. What a crash of the process alone leaves may be in the page
  cache only, so a later power cut may still take it.
- Applying a request is a deterministic function of the store, and one that
  commits nothing changes nothing.
- The byte encodings of the applied id, the membership and the two trailers of a
  snapshot decode the values that fit them from their own bytes whatever follows,
  and not from fewer. For the 64-bit counts and the records this is proved.
- Each call of the lessor, and each request of a lock call, is one atomic step.
- Clocks, I/O failures, arrivals, and the answers of other members are
  parameters or free choices of the steps.

## Where the code falls short of the property

Each names the exact condition under which the property holds, most with a
concrete run that breaks it.

- A purge recorded late. The checkpointer reads the pending purge, and a
  snapshot's purge can be recorded while it syncs; recording the older one
  afterwards leaves a log whose reported start is below its first entry
  (`Durability.LatePurgeLeavesGap`). Gap-free if and only if the last recorded
  purge is the highest or no entry is left (`Durability.GapFreeIff`).
- A reopened log counts its last entry as durable and syncs nothing. After a
  crash of the process alone, records no fdatasync covered are read back, counted
  and applied, and a power cut can then lose them (`Durability.AppliedThenLost`).
  A process crash is harmless if and only if no entry the data file may lack was
  left in the WAL by a record past the last sync (`Durability.ProcessCrashExact`);
  the theorems on crashes hold over all runs whose process crashes are.
- A snapshot of a member that restarted half-way through a batch carries its
  progress, but the installing member goes on with the progress it read when it
  opened: sub-entries take effect twice (`Batch.HalfBatchSnapshotAppliesTwice`,
  `Batch.InstallExact`).
- The read barrier compares terms. openraft is built here without
  `single-term-leader`: a member that voted in a term may vote again in it for a
  higher node id, so two can lead in one term. A member that voted for both
  confirms the first, and a read there can miss a write the second answered
  (`TwoLeaders.StaleRead`). Only writes of such leaders can be missed
  (`ReadIndex.ReleasedReadMissesOnlyTwins`); with one leader a term, none.
- A vote read back after a crash of the process alone is acted on before any
  fdatasync covers it; a power cut can take it back, and the member then votes
  again in the same term (`Votes.TwoVotesInOneTerm`). Harmless if and only if the
  vote read back is not newer than the last one synced (`Votes.ProcessCrashExact`).
- Lock reads back that its key exists, not that it is the one it waited with:
  with a key deleted and made again during the wait there are two holders
  (`Lock.MadeAgainTwoHold`, `Lock.ReadBackExact`), and also with two keys made
  at one revision (`Lock.MadeTogetherTwoHold`).
- A waiter on a member ahead of the leader that answered its read, or on one
  that installs a snapshot, can miss the deletion it waits for: exactly if the
  key was deleted before the subscription or in a snapshot and not again since
  (`WaitDeletes.AheadOfTheReadLoses`, `WaitDeletes.InstalledDeletionLoses`,
  `WaitDeletes.LostExactly`).
- A lease granted again with a shorter TTL keeps its old RAM deadline until a
  promotion or a renewal takes it back (`Lessor.LeftoverTakenBack`,
  `Lessor.PromotionExact`).
- Installing a snapshot leaves target keys at or above 64 bytes of 0xFF
  (`SnapshotInstall.LongKeyStays`, `SnapshotInstall.InstalledExactly`).
- An empty write past the end pads a cursor and not a file
  (`SnapshotFile.AgreeExactly`).
- The precheck leaves a put that keeps what the same txn deleted to the apply
  (`Precheck.RefusalIsExact`), as its own comment says.
- A corrupt file moved to a name already taken replaces the older one
  (`Recovery.KeptExactly`).
- The comment on `purge_point_keeping` says there is no purge point if the log
  holds less than the bytes to keep. There is none either if it holds just
  those: the point is an entry, and what is kept lies after it.

## Model

| member | source | states |
|---|---|---|
| Wal.PlayIsAlive | crates/storage/src/raft_wal.rs:424-441 | replaying entry, truncate and purge records in order leaves exactly the entries of records nothing later cuts or purges, each with that record's payload |
| Wal.PlayedPurge | crates/storage/src/raft_wal.rs:435-441 | the purge a replay reports is the last purge record's, and zero exactly if there is none |
| Wal.NoHoleBelow | crates/storage/src/raft_wal.rs:424-441 | in a log written by append, truncate and purge, below a live entry every index not purged is live too |
| Durability.EveryRunKeepsInv | crates/raft/src/wal_log_store.rs:887-1003 | every run of append, group sync, apply, install, checkpoint, purge, truncate, power cut and process crash keeps the invariants that tie WAL, data file and in-memory log together; and, if every process crash of it meets the condition on unsynced records, what counts as durable is synced or in the data file |
| Durability.AppendKeepsInv | crates/raft/src/wal_log_store.rs:887-951 | an append keeps them |
| Durability.TruncateKeepsInv | crates/raft/src/wal_log_store.rs:953-970 | a truncation keeps them |
| Durability.PurgeKeepsInv | crates/raft/src/wal_log_store.rs:972-1003 | a purge, deferred or over a hole, keeps them |
| Durability.CheckpointPurgeKeepsInv | crates/raft/src/wal_log_store.rs:1094-1130 | recording a purge after the checkpoint that covers it keeps them |
| Durability.SyncKeepsInv | crates/raft/src/wal_log_store.rs:289-410 | a group sync and its callbacks keep them |
| Durability.ApplyKeepsInv | crates/raft/src/state_machine.rs:775-779 | applying only what this member's log holds durably keeps them |
| Durability.InstallKeepsInv | crates/raft/src/state_machine.rs:916-1003 | installing a snapshot keeps them |
| Durability.CrashKeepsInv | crates/raft/src/wal_log_store.rs:512-613 | a power cut that keeps the synced records and some of the rest, then a reopen, keeps them |
| Durability.ProcessCrashKeepsInv | crates/storage/src/raft_wal.rs:385-497 | a process crash and a reopen, which syncs nothing, keep them, the durability part if no entry the data file may lack comes from an unsynced record |
| Durability.ReplayableWithoutGap | crates/raft/src/wal_log_store.rs:1094-1130 | after every run whose process crashes meet that condition, however the next crash falls, the purge on record is not past the data file, and every entry from there to the last applied or durable one is in the replayed WAL as it was |
| Durability.CrashThenReplayIsNeverCrashing | crates/raft/src/state_machine.rs:767-879 | after such a run, in a crash of either kind, nothing applied or counted durable is lost, and applying just the entries after the data file's position, one by one and with no other step between, reaches exactly the store of a member that never crashed |
| Durability.RecordedPurgeGapFree | crates/raft/src/wal_log_store.rs:699-709 | recording a purge keeps a log gap-free if and only if it is not below the one on record or no entry is left |
| Durability.GapFreeIff | crates/raft/src/wal_log_store.rs:1094-1130 | in every reachable state the surviving records replay gap-free if and only if they leave no entry or no earlier purge among them is above the last |
| Durability.LatePurgeLeavesGap | crates/raft/src/wal_log_store.rs:1094-1130 | a run that ends with a gap |
| Durability.ProcessCrashExact | crates/raft/src/wal_log_store.rs:578-585 | the condition is exact: a process crash meets it if and only if every power cut after the reopen leaves all that then counts as durable |
| Durability.UnsyncedEntryCanBeLost | crates/raft/src/wal_log_store.rs:578-585 | where it fails, the power cut that loses the entry, from every such state |
| Durability.AppliedThenLost | crates/raft/src/wal_log_store.rs:578-585 | an entry counted durable after a process crash, applied, and lost in a power cut |
| Wal.DroppedReplaySame | crates/storage/src/raft_wal.rs:581-595 | records dropped from the front change no replay if every entry among them is purged somewhere in the log and, where a purge is among them, one stays |
| Durability.DroppedSegmentsReplaySame | crates/storage/src/raft_wal.rs:578-581 | so after any run, records dropped under synced purges change no replay, whatever crash comes |
| Segments.Files.CrashReplays | crates/storage/src/raft_wal.rs:383-497 | whatever was rolled and dropped, a crash leaves files that replay to a prefix of the records handed in, with every synced one in it |
| Segments.Files.FilesReplay | crates/storage/src/raft_wal.rs:383-497 | the files replay to exactly what all the records handed in replay to |
| Segments.Files.Roll | crates/storage/src/raft_wal.rs:510-528 | the old segment is synced and the new one starts with a copy of the last purge, which changes no replay |
| Segments.Files.Append | crates/storage/src/raft_wal.rs:532-571 | a record goes to the end of the last segment, in a new one if that is full |
| Segments.Files.DropUpto | crates/storage/src/raft_wal.rs:581-595 | with all synced and a purge at or above the index on record, maybe itself in a segment that goes, the oldest segments go up to the first with a higher entry, never the last |
| Segments.CopyOfPurge | crates/storage/src/raft_wal.rs:519-522 | the copied purge is a no-op on the log |
| Votes.VoteNeverFalls | crates/raft/src/wal_log_store.rs:842-853 | in every run whose process crashes meet the condition, the held vote is never behind one granted or acted on, across crashes of both kinds |
| Votes.EveryRunKeepsInv | crates/raft/src/wal_log_store.rs:842-853 | saving, syncing, acting, power cuts and such process crashes keep the held vote within the synced records |
| Votes.ProcessCrashExact | crates/raft/src/wal_log_store.rs:573-577 | a process crash meets the condition if and only if every power cut after the reopen leaves the vote that was read back |
| Votes.TwoVotesInOneTerm | crates/raft/src/wal_log_store.rs:573-577 | for any two votes of one term, a run that acts on both |
| WalWriter.Writer.Group | crates/raft/src/wal_log_store.rs:289-410 | a writer fails exactly if it had failed, an append fails, or a sync is asked for and fails; then nothing is Ok, synced or dropped any more; else all is Ok, synced if any command asks, and the highest index asked for is dropped; Ok answers precede every failure, synced commands told Ok are synced, the file holds the commands' records without a gap, and segments are dropped only for purge records already synced |
| WalWriter.Writer.AppendAll | crates/raft/src/wal_log_store.rs:311-342 | the group's records land in order, all of them or up to the append that fails and as many of its as land; a sync is asked for exactly if a command asks, and the highest drop is passed on |
| WalWriter.SyncMore | crates/raft/src/wal_log_store.rs:343-408 | one more group keeps every synced command told Ok within the synced records |
| WalWriter.FileMore | crates/raft/src/wal_log_store.rs:296-342 | one more group keeps the file a gap-free prefix of what was asked for |
| SlotMap.State.RemoveFrom | crates/raft/src/wal_log_store.rs:240-245 | the log loses everything from the index on; cached bytes stay the sum of cached lengths, without underflow; nothing below the cursor is cached |
| SlotMap.State.RemoveUpto | crates/raft/src/wal_log_store.rs:247-252 | the log loses everything up to the index, same invariants |
| SlotMap.State.Append | crates/raft/src/wal_log_store.rs:920-928 | an entry replaces what is at its index and after in the plain log |
| SlotMap.State.Place | crates/raft/src/wal_log_store.rs:254-276 | every slot whose bytes are still those written gets the location they were last written at, a replaced entry's late placement is ignored, and the cache ends within its limit unless its oldest entry is not in the WAL |
| SlotMap.State.Evict | crates/raft/src/wal_log_store.rs:262-275 | eviction from the oldest on changes nothing readable |
| SlotMap.State.Forget | crates/raft/src/wal_log_store.rs:232-238 | exactly the dropped slots' bytes are subtracted |
| SlotMap.State.TryGet | crates/raft/src/wal_log_store.rs:781-826 | reading a range gives the plain log at exactly its indexes in the range, ascending, and entry by entry where none is missing, cached or not; it never finds a slot without data |
| SlotMap.State.LimitedGet | crates/raft/src/wal_log_store.rs:755-779 | in the same order a run from the start, its bytes within the limit unless one entry alone is larger, stopped only where the next does not fit, and never empty for a non-empty range |
| SlotMap.SizeIsBytes | crates/raft/src/wal_log_store.rs:755-779 | the size counted for a range is the length of its entries' bytes put together |
| SlotMap.State.PurgePointKeeping | crates/raft/src/wal_log_store.rs:638-652 | the newest index with at least so many bytes after it, or none if there is none |
| Batch.EveryRequestOnce | crates/raft/src/state_machine.rs:383-449 | through any number of crashes, each back to any commit, the store is that of every request so far applied exactly once, in order; at the end, each sub-entry as its own entry |
| Batch.BatchedKeepsInv | crates/raft/src/state_machine.rs:811-832 | a batch resumed at its persisted progress ends with all of it applied exactly once |
| Batch.UnitKeepsInv | crates/raft/src/state_machine.rs:413-443 | one commit of a run, or of one sub-entry, moves store and recorded position together |
| Batch.ExecuteKeepsInv | crates/storage/src/mvcc/store.rs:863-872 | a commit folds in the staged metadata; requests that commit nothing leave it staged and lose nothing |
| Batch.Machine.ApplyMany | crates/storage/src/mvcc/store.rs:1642-1690 | one working copy, the answers of the requests in turn, one commit if any wrote |
| Batch.Machine.ApplyUnit | crates/raft/src/state_machine.rs:413-443 | progress and applied index are staged before the commit that carries them |
| Batch.Machine.ApplyPlain | crates/raft/src/state_machine.rs:834-843 | one request alone: its applied index goes into its own commit, or stays staged if it commits nothing |
| Batch.BatchedStore | crates/raft/src/state_machine.rs:383-449 | however a batch is cut into commits, it leaves the store its sub-entries leave in turn |
| Batch.Machine.ApplyBatch | crates/raft/src/state_machine.rs:383-449 | fails exactly on a nested batch; else one answer per sub-entry, those from `skip` on as applied in turn |
| Batch.RunLength | crates/raft/src/state_machine.rs:413-413 | the longest groupable run, at most 256 |
| Batch.UnwrittenUnchanged | crates/raft/src/state_machine.rs:379-382 | skipping requests that commit nothing is the same as applying them |
| Batch.ProgressRoundTrip | crates/raft/src/state_machine.rs:93-103 | the progress read back is the one written |
| Batch.BytesDigit | crates/raft/src/state_machine.rs:93-103 | the persisted numbers are big-endian: each byte is the digit of its place |
| Batch.FlushedResumes | crates/storage/src/mvcc/store.rs:863-872 | a flush commits the staged position and nothing else, and a crash back to it goes on exactly where the member was |
| Batch.AnswerAt | crates/storage/src/mvcc/store.rs:1642-1690 | each request of a run is answered on the store the ones before it leave |
| Batch.InstallExact | crates/raft/src/state_machine.rs:997-1002 | an install keeps every request exactly once if and only if the snapshot was not taken of a half-applied batch |
| Batch.HalfBatchSnapshotAppliesTwice | crates/raft/src/state_machine.rs:811-816 | the run that commits a half-applied batch, and the install of that commit that applies a sub-entry twice |
| Proposer.Queue.Turn | crates/raft/src/proposer.rs:246-303 | every queued proposal goes into exactly one submission, in order; a batch stays within 4096 proposals and 512 KiB and stops only when the next does not fit |
| Proposer.Queue.Fill | crates/raft/src/proposer.rs:275-291 | as much of the queue as fits, in order; what does not fit is carried over |
| Proposer.BytesAdd | crates/raft/src/proposer.rs:275-291 | the bytes counted are the sum of the proposals' own |
| Proposer.Queue.Take | crates/raft/src/proposer.rs:256-262 | the carried proposal goes first |
| Proposer.Reply | crates/raft/src/proposer.rs:318-348 | one reply per caller: its own answer, or an error for all |
| Proposer.ServeBatch | crates/raft/src/proposer.rs:318-348 | a submission, single or batched, applied and answered: every caller gets the answer to its own entry, as if applied one after the other, and the store is what that leaves |
| Proposer.ServeAll | crates/raft/src/proposer.rs:246-348 | all a queue submitted, served in turn: the i-th reply goes to the i-th caller that queued, with the answer its entry gets when everything queued is applied one by one |
| Proposer.GroupingIsInvisible | crates/raft/src/proposer.rs:246-303 | however proposals are grouped into log entries, store and answers in log order are those of each on its own in the order queued |
| ReadIndex.ReleasedReadMissesOnlyTwins | crates/raft/src/read_index.rs:144-223 | in every run, a read released by the quorum path or the sole-voter path is served from a state that has applied every write answered before the read arrived by any leader that is the only one of its term |
| ReadIndex.ReleasedReadSeesEveryAck | crates/raft/src/read_index.rs:144-223 | so where no two leaders were of one term, a released read sees every write answered, by any leader, before it arrived |
| TwoLeaders.StaleRead | vendor/openraft/src/vote/leader_id/leader_id_adv.rs:15-24 | a run with two leaders in one term that releases a read without a write answered before it arrived |
| ReadIndex.TermCovers | crates/raft/src/read_index.rs:187-193 | the first index of the leader's term covers every write answered in that term or earlier, but those of one of several leaders of a term |
| ReadIndex.EveryRunKeepsInv | crates/raft/src/read_index.rs:260-291 | every step of elections, appends, commits, answers, restarts and rounds keeps the invariants behind it |
| ReadIndex.QuorumExcludesNewer | crates/raft/src/read_index.rs:197-221 | a quorum of answers at most the leader's term, in every config of a joint membership, excludes a leader of a newer term that answered a write before the round began |
| ReadIndex.AnswererNotAhead | crates/raft/src/kv_log_store.rs:87-92 | a member whose saved term is at most the leader's voted for no leader of a newer term |
| ReadIndex.Ask | crates/raft/src/read_index.rs:195-219 | stopping at the first quorum confirms exactly if this member and every one that answered with a saved term of at most the round's are a quorum |
| ReadIndex.RoundDecides | crates/raft/src/read_index.rs:195-222 | for answers that are the members' saved terms, the loop is a run of confirmations of exactly those members, and the round ends with its index exactly if they are a quorum and the own saved term is still the round's |
| ReadIndex.QuorumsMeet | crates/raft/src/read_index.rs:196-198 | two quorums share a member |
| ReadIndex.EndRoundKeepsInv | crates/raft/src/read_index.rs:155-164 | a finished round's result covers every write answered before the round began, by the only leader of its term |
| ReadIndex.JoinKeepsInv | crates/raft/src/read_index.rs:154-160 | a read that takes the result of a round begun after it arrived is covered |
| ReadIndex.SoleKeepsInv | crates/raft/src/read_index.rs:228-254 | the sole voter's index, with the first index known or not, covers every write answered |
| ReadIndex.BlankKeepsInv | crates/raft/src/wal_log_store.rs:902-912 | a new leader's first entry lies above everything earlier leaders committed |
| ReadIndex.AppendKeepsInv | crates/raft/src/wal_log_store.rs:902-912 | a first index noted after a restart still covers what the only leader of the term answered before it |
| ReadIndex.NotedIsFirst | crates/raft/src/wal_log_store.rs:907-912 | what is noted is the newest term and the first index in it |
| ReadIndex.LogProgress.NoteAppend | crates/raft/src/wal_log_store.rs:902-912 | appends keep the first index of the newest term, as the appends of the step system do one by one |
| ReadIndex.LogProgress.NoteTruncate | crates/raft/src/wal_log_store.rs:958-968 | a truncation lowers what is durable and forgets a first index it cuts off, as its step does |
| ReadIndex.LogProgress.NoteVote | crates/raft/src/kv_log_store.rs:123-125 | a saved vote only raises the term, to that of the leader id voted for, as its step does |
| ReadIndex.LogProgress.RaiseDurable | crates/raft/src/kv_log_store.rs:100-103 | a finished fsync only raises what is durable, as its step does |
| ReadIndex.AppendsNote | crates/raft/src/wal_log_store.rs:902-912 | a run of appends to one member changes only what it noted, to what one pass over them notes |
| Keys.PrefixRangeExact | crates/storage/src/mvcc/store.rs:2822-2830 | for every prefix, empty and all-0xFF ones included, the range built from it names exactly the keys that start with it |
| Keys.RangeEndOfPrefix | crates/server/src/concurrency.rs:66-75 | the server's loop computes that range's end |
| Keys.PrefixRangeEnd | crates/ctl/src/main.rs:458-467 | the client's loop computes the same |
| RangeOptions.ArrangedExactly | crates/server/src/range_options.rs:74-93 | exactly the records that pass the filters, as often as the store has them, in order, ties in the store's order |
| RangeOptions.ArrangedByField | crates/server/src/range_options.rs:61-69 | any two records of the answer are in the order of the field asked for, rising or falling |
| RangeOptions.KeepExactly | crates/server/src/range_options.rs:78-83 | a record passes if it is within each of the four revision bounds that is not zero |
| RangeOptions.StoreOrder | crates/server/src/range_options.rs:29-37 | the store's order is kept exactly for ascending or unordered keys, and then the answer is the records that pass, in it |
| RangeOptions.Apply | crates/server/src/range_options.rs:74-99 | a prefix of that arrangement within the limit; `more` says whether it was cut; the count stays the store's |
| RangeOptions.Range | crates/server/src/range_options.rs:51-59 | reading the store with a limit where that is allowed is never seen: whatever the options, the answer is the first `limit` records of the arrangement of the whole range |
| RangeOptions.ReadFirstCreate | crates/server/src/concurrency.rs:118-127 | the oldest key, or none exactly if there is none |
| RangeOptions.ReadLastCreate | crates/server/src/concurrency.rs:185-194 | the newest key created at or below the bound, or none exactly if there is none |
| Lock.MutualExclusion | crates/server/src/concurrency.rs:277-309 | for any interleaving of Lock, Campaign, Unlock and lease expiry in which no revision creates two keys and no Lock reads back a key other than the one it waited with, at most one key is both live and returned Ok: the wait makes that key the oldest |
| Lock.NotMadeAgainExclusive | crates/server/src/concurrency.rs:277-309 | in particular if no key is made again while a call of its session waits, whatever is deleted |
| Lock.WaitedIsOldest | crates/server/src/concurrency.rs:300-303 | the key a call waited with is the oldest when it is read back |
| Lock.OldestReadBackExclusive | crates/server/src/concurrency.rs:302-308 | at most one holder in every run in which each key read back is the oldest, the condition of ReadBackExact |
| Lock.OwnsAlready | crates/server/src/concurrency.rs:291-299 | the first-created read decides ownership: true exactly if nothing under the prefix is older |
| Lock.WaitIsOver | crates/server/src/concurrency.rs:173-198 | the wait ends exactly if nothing under the prefix is older, revision 1 included |
| Lock.ElectionsExclusive | crates/server/src/concurrency.rs:365-401 | elections need no condition on keys made again |
| Lock.ReadBackExact | crates/server/src/concurrency.rs:302-308 | the read-back keeps one holder from then on if and only if the key it finds is the oldest |
| Lock.MadeAgainTwoHold | crates/server/src/concurrency.rs:302-308 | a run with two holders after a key was deleted and made again |
| Lock.MadeTogetherTwoHold | crates/server/src/concurrency.rs:291-299 | from any state, two keys made at one revision lead to two holders |
| Lock.LeaseKeyInjective | crates/server/src/concurrency.rs:85-88 | different sessions have different keys |
| Lock.HexReadsBack | crates/server/src/concurrency.rs:85-88 | the name is the lease id in lower-case hexadecimal without leading zeros |
| WaitDeletes.NoLostWakeup | crates/server/src/concurrency.rs:173-214 | in every run, a waiter that subscribed no later than its read, with no snapshot installed since, has a wakeup pending whenever its key is gone |
| WaitDeletes.PendingExactly | crates/server/src/concurrency.rs:199-212 | a wakeup is pending exactly if the waiter fell behind or was sent a deletion after its read |
| WaitDeletes.PendingEndsWait | crates/server/src/concurrency.rs:198-212 | a waiter with a wakeup pending reads again after receiving at most what is waiting for it |
| WaitDeletes.LostExactly | crates/server/src/concurrency.rs:181-196 | a wakeup is lost exactly if the key was deleted before the subscription or in a snapshot, no revision applied from the log since deletes it, and the waiter did not fall behind |
| WaitDeletes.UnsentExactly | crates/server/src/concurrency.rs:181-196 | an applied revision was not sent exactly if it came before the subscription or in a snapshot |
| WaitDeletes.AheadOfTheReadLoses | crates/server/src/concurrency.rs:181-196 | a run that loses one on a member ahead of the leader's read |
| WaitDeletes.InstalledDeletionLoses | crates/storage/src/mvcc/store.rs:926-960 | a run that loses one in an installed snapshot |
| Lessor.Lessor.Promote | crates/raft/src/lessor.rs:201-228 | the first time in a term every lease's deadline is its own TTL in seconds from now; no deadline moves back unless left over from an earlier grant |
| Lessor.Lessor.EffectiveDeadline | crates/raft/src/lessor.rs:235-240 | noting a deadline changes none |
| Lessor.EffectiveExactly | crates/raft/src/lessor.rs:235-240 | the effective deadline is the later of the RAM deadline and the lease's seconds from its last applied grant or keep-alive, or from now if there is neither |
| Lessor.Lessor.Renew | crates/raft/src/lessor.rs:243-279 | Renewed exactly for a lease that is there and not due, and leaves its deadline its own TTL in seconds from now; NotFound means gone or due, Propose exactly off the RAM path; no deadline moves back but one left over from an earlier grant |
| Lessor.Lessor.Expired | crates/raft/src/lessor.rs:299-317 | exactly the leases that are due, in their own seconds: RAM deadline passed and TTL over since the last applied grant or keep-alive; none sooner than its TTL after the promotion and the last Renewed |
| Lessor.Lessor.Prune | crates/raft/src/lessor.rs:304-310 | dropping the deadlines of leases that are gone moves none back |
| Lessor.Lessor.ApplyKeepAlive | crates/storage/src/mvcc/store.rs:1477-1486 | a logged keep-alive moves no deadline back |
| Lessor.PromotionExact | crates/raft/src/lessor.rs:216-218 | starting a lease's TTL again from now, as a promotion and a renewal do, takes time away exactly from a lease whose RAM deadline is left over |
| Lessor.LeftoverTakenBack | crates/raft/src/lessor.rs:216-218 | a lease granted again with a shorter TTL whose deadline moves back |
| SnapshotBody.WriteBody | crates/raft/src/state_machine.rs:579-614 | the chunked, count-patched body is the whole-value encoding byte for byte, for every table size |
| SnapshotBody.WriteTable | crates/raft/src/state_machine.rs:587-609 | a zero count, the records, and the real count over it make the table's encoding |
| SnapshotBody.WritePairs | crates/raft/src/state_machine.rs:592-604 | reading on after the last key, 128 at a time, writes every record once |
| SnapshotBody.FormatIsLawful | crates/raft/src/state_machine.rs:587-609 | the 64-bit little-endian counts and length-prefixed records the body is written with decode from their own bytes and not from fewer |
| SnapshotBody.LeDigit | crates/raft/src/state_machine.rs:587-609 | counts are little-endian: each byte is the digit of its place |
| SnapshotBody.BothLawful | crates/raft/src/state_machine.rs:592-604 | one value after another decodes as the two, and not from fewer bytes |
| SnapshotInstall.BodyRoundTrip | crates/raft/src/state_machine.rs:631-683 | decoding a body gives back everything it was written from |
| SnapshotInstall.PayloadCut | crates/raft/src/state_machine.rs:643-655 | a body cut off anywhere before its tables end does not decode |
| SnapshotInstall.StreamBody | crates/raft/src/state_machine.rs:631-683 | the streaming decoder sends exactly the operations of the body it decodes and fails exactly where there is none |
| SnapshotInstall.InstallDoes | crates/raft/src/state_machine.rs:646-683 | on any target the three tables become the source's over what the clears left, with the applied id and membership from the header |
| SnapshotInstall.AnyBodyInstalls | crates/raft/src/state_machine.rs:664-683 | a body with no trailer, the auth trailer, or both: refused exactly if a magic is unknown; else auth and lease tables are replaced by those the body has and stay where it has none |
| SnapshotInstall.InstalledExactly | crates/raft/src/state_machine.rs:646-662 | on any target, an installed body leaves the source's three tables, with the header's applied id and membership, exactly if the source has every key the target held at or above 64 bytes of 0xFF |
| SnapshotInstall.LongKeyStays | crates/raft/src/state_machine.rs:646-648 | from any target, such a key is still there after the install, with its value |
| SnapshotInstall.Install | crates/raft/src/state_machine.rs:690-722 | all of a body or nothing |
| SnapshotFile.Receive | crates/raft/src/snapshot_data.rs:266-325 | for any seeks and writes and any failures that are recovered, the bytes and position are a plain cursor's unless an empty write lands past the end, and the retained snapshots were discarded at most once |
| SnapshotFile.Received.Write | crates/raft/src/snapshot_data.rs:266-289 | a write that does not fail does what a cursor's does, whatever part of it landed before; an empty one past the end of the file may do nothing |
| SnapshotFile.Received.RecoverWrite | crates/raft/src/snapshot_data.rs:155-216 | the retry and the switch to memory write the whole data over whatever landed |
| SnapshotFile.Received.SeekTo | crates/raft/src/snapshot_data.rs:307-325 | a seek moves as a cursor's, and one before the start moves nothing |
| SnapshotFile.OverPartial | crates/raft/src/snapshot_data.rs:183-216 | writing all of the data over a part that landed is writing it once |
| SnapshotFile.AgreeExactly | crates/raft/src/snapshot_data.rs:266-289 | a file and a cursor agree on a write exactly unless it is empty and past the end |
| SnapshotFile.CursorWriteAt | crates/raft/src/snapshot_data.rs:266-289 | after a write every byte is the written one, the one that was there, or a zero in a gap |
| SnapshotFile.SeekMoves | crates/raft/src/snapshot_data.rs:307-325 | where each seek leaves the position |
| ProposalLog.Log.CumulativeAt | crates/raft/src/snapshot_policy.rs:63-75 | from the floor up, the count of the full history, whatever was forgotten; below it, zero |
| ProposalLog.CumulativeAdds | crates/raft/src/snapshot_policy.rs:48-54 | the count is the sum of the proposals recorded at or below the index |
| ProposalLog.Log.PurgePoint | crates/raft/src/snapshot_policy.rs:81-95 | the newest retained index that leaves at least `keep` proposals up to the snapshot, or none exactly if there is none; the count after an index is taken as a natural number, so it does not underflow |
| ProposalLog.Log.ForgetUpto | crates/raft/src/snapshot_policy.rs:98-104 | only entries up to the index are forgotten and the history stays known |
| ProposalLog.Log.Record | crates/raft/src/snapshot_policy.rs:48-54 | an entry with proposals extends the history |
| Authz.AuthorizeTxn | crates/server/src/kv.rs:255-264 | from the request to the verdict: for a user who is not exempt, Ok means that under any choice of branches at any depth every key read is in a permission to read of one of the user's roles, every key written or deleted in one to write, and so is every key on the leases the txn names |
| Authz.AuthorizedTxnStaysInside | crates/server/src/kv.rs:91-108 | a txn whose accesses are covered touches, on every store and under every choice of branches at every depth, only keys inside a held permission of the right kind |
| Authz.TouchedIsListed | crates/server/src/kv.rs:91-108 | every key any execution compares, reads, writes or deletes is in the list |
| Authz.ListedExactly | crates/server/src/kv.rs:91-108 | a key is listed for reading or writing if and only if some outcome of the compares has the txn read or write it |
| Authz.CollectAccesses | crates/server/src/kv.rs:91-108 | the pushed list is every access of both branches, nested ones in place |
| Authz.CoversExactly | crates/server/src/authz.rs:153-186 | a permission covers a range that names any key exactly if it allows reading for a read, writing for a write, and contains every key of it |
| Authz.CoveredKey | crates/server/src/authz.rs:153-186 | what a permission covers it contains, for every range |
| Authz.BoundsAgree | crates/server/src/authz.rs:188-205 | bounds mean what the request's range means, single keys and open ends included |
| Authz.AuthorizeAll | crates/server/src/authz.rs:63-134 | Ok exactly if auth is off, nothing is accessed, the user is root, or every access is covered by a permission of one of the user's roles that exists |
| Authz.HeldExactly | crates/server/src/authz.rs:100-134 | the permissions gathered are exactly those of the user's roles that exist |
| Precheck.RefusalIsSound | crates/raft/src/precheck.rs:121-135 | if the check finds a kept missing key, applying the txn to that state is refused, at every depth |
| Precheck.RefusalIsExact | crates/raft/src/precheck.rs:117-120 | where no read is refused, the apply refuses exactly what the check refuses and the puts that keep what the txn itself deleted |
| Precheck.RefusesTxn | crates/raft/src/precheck.rs:188-198 | the check, with its shortcut for txns that keep nothing, finds a kept missing key exactly if there is one |
| Precheck.KeepsMissingKey | crates/raft/src/precheck.rs:121-135 | some mutation keeps a key missing now and not put earlier |
| Precheck.ChosenMutations | crates/raft/src/precheck.rs:151-175 | the mutations of the chosen branches, in order |
| Precheck.FlattenTxn | crates/storage/src/mvcc/store.rs:1831-1885 | applying a nested txn is running the actions of its chosen branches in order, and the check sees their mutations |
| Precheck.ProducesExactly | crates/storage/src/mvcc/store.rs:1831-1885 | a txn makes a revision exactly if it puts or deletes a key that is there at that point |
| Recovery.RestoreIsCrashSafe | crates/server/src/recovery.rs:168-208 | however many crashes, wherever: no start opens an empty store in place of data, a missing data file means a complete restored one, and a restored store is the data file only once the old raft state is out of the way |
| Recovery.StartServes | crates/server/src/recovery.rs:168-208 | after any run, a start left to finish serves: its own healthy data, or the restored store with the corrupt file kept |
| Recovery.EveryCorruptFileKept | crates/server/src/recovery.rs:203-204 | with names not reused, every corrupt file is in place or kept |
| Recovery.KeptExactly | crates/server/src/recovery.rs:203-204 | moving one aside keeps it and all before it exactly if its name is fresh |

## Left out

- openraft's elections, replication and log matching are guards of the steps.
- Membership changes during a read: the configs of a joint membership are fixed, and the fall-back to openraft's own barrier is not modelled.
- Batch.EveryRequestOnce: a nested batch stops the member; the runs that stop there are among the runs covered. The marker a batched entry leaves is not modelled.
- Proposer.ServeAll: no write fails; a failed one is `Proposer.Reply`'s error to all. It takes the log order to be the order of submission, as one batch in flight makes it; with batching gated off, single proposals are submitted at once and raft orders them.
- WalWriter.Writer.Group: the group's size, timing and statistics are left out; a failed segment deletion is retried by the next purge and not modelled.
- Segments.Files.Append: only the purge is copied to a new segment; the copies of the vote and the committed id, the torn tail and the sizes of segments are not modelled.
- Votes.VoteNeverFalls: the mirrored copy of the vote in the data file is not modelled; it is read only where there is no WAL yet.
- SlotMap.State.TryGet: the reader finds what was written at a location; segments dropped under purged entries are not modelled.
- Lessor.Lessor.Renew: the version gate and the read barrier are given as booleans; races inside a call are not modelled.
- SnapshotInstall.PayloadCut: a body cut inside a trailer reads as one without it, by design, so nothing is claimed there.
- SnapshotBody.WriteTable: a table has fewer than 2^64 records, each key and value fewer than 2^64 bytes, as their counts need.
- SnapshotFile.Receive: a call that returns an error ends the claim; seek targets are not bounded to 64 bits.
- Authz.AuthorizeTxn: which keys are on the leases its puts name is a parameter.
- Precheck.RefusesTxn: the checks on leases, compaction and single mutations are not modelled.
- Recovery.RestoreIsCrashSafe: choosing and verifying the backup, and a rename that fails, are a refusal.
- `observe`, `proclaim`, the abandoned-call guard: they delete or rewrite keys, which the steps already allow.
- gRPC, TLS, the JSON gateway, health, metrics, password hashing and the migration tool are not modelled.
