# Accounts database: a verified model

The accounts database keeps every account in one or more versions, each written in a slot. A new
version goes to the write cache. Once its slot is rooted, a background service flushes it to a
storage file, and later cleans and shrinks the files. An index leads from a key to its versions. A
reader loads the newest version it can see. Nothing the background service does may change that.

This project models the database in Dafny and proves that it does not.

- **The whole database over whole runs.** `Database`, `Flushing`, `Removing`, `Reclaiming`,
  `Cleaning` and `Shrinking` say what each job does to the state and prove that each keeps the
  invariant and every load. `History` is a reference that never forgets a write, and `Runs` proves
  that in every state of every run of writes, roots, flushes, cleans and shrinks a current reader
  loads exactly what the reference remembers. `Restart` and `Snapshots` do the same for a node that
  starts from its storages, or from a full snapshot and the storages newer than it.
- **The jobs in place.** The class in `AccountsDb` runs the jobs step by step on its fields, and
  each public method is proved to be one sound step of such a run. `DeleteDependencies`,
  `ReclaimSteps`, `CleanSteps`, `FlushMoves`, `ShrinkMoves` and `Dedup` hold the worklist, the loops
  on values and the lemmas behind it.
- **One reader against all jobs.** `ReaderProtocol` interleaves the single steps of a load, the
  three lookups of a storage included, with the single steps of flush, shrink and clean.
  `ReaderJobs` proves that the jobs of whole runs are made of these steps, so that the reader loads
  what the reference remembers.
- **Self-contained parts.** `StartupHash` with `Groups` (hash and data length at startup),
  `Reservation` (flush against removal), `Locks` (account locks), `StorageReader` (files without
  obsolete ranges), `Orderer` (order of storages), `CacheSize` (sizes of the write cache),
  `LargestAccounts` (largest balances) and `CrateOrder` (publishing order of crates).

How to read the main notions:

- A *view* is a set of ancestors and a greatest root. It is *current* when it sees every root up to
  which versions have been cleaned, and each of its ancestors has been rooted or is newer than every
  root. Current readers are the ones the database keeps its answers for.
- A storage is a sequence of records, and the offset of a record is its position.
- Methods of the class take the reference history as a ghost argument. They use it only to state
  that what they did is a sound step.
- The flag of a cached index entry that says the account has no lamports can be out of date: a later
  write to the same slot leaves the entry as it is. The model keeps this.
- The documentation of the storage order (`accounts-db/src/account_storage.rs`, lines 332 to 335)
  promises cycles of small and large storages. The code applies the selection to the index of a
  storage and not to its place in the sort, so it keeps the promise only on some inputs. The model
  follows the code and proves which.
- Slots, counts and sizes are unbounded, so wrapping upwards is not modelled. Wherever the modelled code
  subtracts, the proofs show that the result does not go below zero. The words of the hash wrap.

Nothing was executed; every statement is one the verifier proves.

## Model

| member | source | states |
|---|---|---|
| Runs.EveryLoadIsRemembered | accounts-db/src/accounts_db.rs:3581-3611 | In every state of every run of writes, roots, flushes, cleans and shrinks, every current reader loads the newest version it sees of all that was ever written, or nothing when that has no lamports. |
| Runs.StepIsSound | accounts-db/src/accounts_db.rs:4687-4742 | Every write, root, flush, clean or shrink keeps the invariant of the database and its agreement with the reference. |
| Runs.RunIsSound | accounts-db/src/accounts_db.rs:4687-4742 | The invariant and the agreement hold in every state of every run. |
| Runs.PurgedKeysAreGone | accounts-db/src/accounts_db.rs:1998-2042 | After a purge every storage that held any version of the key is gone. |
| Runs.FlushIsSound | accounts-db/src/accounts_db.rs:4687-4742 | A flush of several roots, each leaving behind only versions that a newer root up to the clean bound supersedes, changes no current load. |
| Runs.CleanIsSound | accounts-db/src/accounts_db.rs:1735-2042 | A clean changes no current load, and no storage is left with any version of a purged key. |
| Runs.ShrinkIsSound | accounts-db/src/accounts_db.rs:2869-2971 | A shrink changes no current load. |
| History.WriteIsSound | accounts-db/src/accounts_db.rs:5710-5755 | A write to an unrooted slot keeps the agreement with the reference, which keeps the account as it was given, data included; the database differs only in what it keeps of accounts without lamports. |
| History.WrittenIsRecalled | accounts-db/src/accounts_db.rs:5710-5755 | After a write the reference answers every reader of the slot that sees no newer version with exactly the account written, or with nothing when it has no lamports. |
| History.RecallIsNewest | accounts-db/src/accounts_db.rs:3581-3611 | The reference answers with the newest version the reader sees, as it was written, unless that has no lamports. |
| History.RecallsNothing | accounts-db/src/accounts_db.rs:3581-3611 | A reader who sees no version gets nothing. |
| History.RememberAddsOne | accounts-db/src/accounts_db.rs:5710-5755 | A write adds one version to the reference and changes no other. |
| History.RootIsSound | accounts-db/src/accounts_db.rs:6026-6038 | Rooting a slot at or above all roots keeps the agreement with the reference. |
| History.EmptyIsSound | accounts-db/src/accounts_db.rs:1023-1146 | A new database agrees with a reference that remembers nothing. |
| Restart.RestartChangesNothing | accounts-db/src/accounts_db.rs:6229-6382 | An index rebuilt from the surviving storages finds for every key what the running database loads; no purged or outdated version comes back. |
| Restart.RestartRecoversHistory | accounts-db/src/accounts_db.rs:6229-6382 | In every run, once the roots are flushed, a restart from the storages recovers for every key the newest rooted version ever written. |
| Restart.NewestRecordIsLive | accounts-db/src/accounts_db.rs:6229-6382 | The newest record of a key in any storage is one the index leads to, so a rebuilt index cannot resurrect an older one. |
| Restart.Rebuild | accounts-db/src/accounts_db.rs:6229-6382 | The index generated at startup from the storages of a flushed database leads for every key to what the running database loads, for any assignment of storages to threads. |
| Restart.FoundIsReload | accounts-db/src/accounts_db.rs:6229-6382 | The newest version in an index of all records is the record that is reloaded. |
| Snapshots.SnapshotRestartChangesNothing | accounts-db/src/accounts_db.rs:2257-2279 | While nothing vanishes from slots above the full snapshot, a restart from it and the newer storages finds for every key what the running node has. |
| Snapshots.ReloadCovered | accounts-db/src/accounts_db.rs:2257-2279 | Reloading from a covered snapshot and the newer storages equals reloading from the current storages. |
| Snapshots.TrimIsSafe | accounts-db/src/accounts_db.rs:2257-2279 | Taking out outdated versions keeps every key reloadable from the snapshot. |
| Snapshots.PurgeIsSafe | accounts-db/src/accounts_db.rs:2280-2338 | Purging keys up to the snapshot keeps every other key reloadable from it. |
| Snapshots.FlushKeepsCover | accounts-db/src/accounts_db.rs:4687-4742 | Flushes after the snapshot keep it good for a restart. |
| Snapshots.RunKeepsCover | accounts-db/src/accounts_db.rs:2257-2279 | Every run without unsafe purges keeps the snapshot good for a restart. |
| Snapshots.CleanKeepsCover | accounts-db/src/accounts_db.rs:2280-2338 | A clean that purges nothing above the snapshot keeps it good for a restart. |
| Snapshots.ShrinkIsSafe | accounts-db/src/accounts_db.rs:2417-2431 | A shrink that lets keys without lamports vanish only from slots of the snapshot keeps it good for a restart. |
| AccountsDb.AccountsDb.constructor | accounts-db/src/accounts_db.rs:1023-1146 | The database starts empty. |
| AccountsDb.AccountsDb.StoreAccount | accounts-db/src/accounts_db.rs:5710-5755 | A store to the write cache is a sound write step, on a reference that keeps the account as given. |
| AccountsDb.AccountsDb.StoreCached | accounts-db/src/accounts_index/in_mem_accounts_index.rs:416-427 | The cache has the account as given, or an empty one when it has no lamports; the index entry of the slot stays when there is one, and otherwise is new, cached, and flagged by the lamports. |
| AccountsDb.AccountsDb.AddRoot | accounts-db/src/accounts_index.rs:1676-1688 | Adding a root at or above the greatest one is a sound root step. |
| AccountsDb.AccountsDb.LatestSlot | accounts-db/src/accounts_index.rs:974-1010 | Returns the newest slot of a slot list that is an ancestor or a root up to the bound, or nothing exactly when there is none. |
| AccountsDb.AccountsDb.LoadAccount | accounts-db/src/accounts_db.rs:3581-3632 | A current reader gets what the reference remembers. |
| AccountsDb.AccountsDb.FlushRootedAccountsCache | accounts-db/src/accounts_db.rs:4687-4742 | Is a sound flush step; slots go newest first; while cleaning, no two slots up to the limit write the same key; a slot above the limit, and every slot without cleaning, writes all its keys; afterwards no cached root is left up to the requested one. |
| AccountsDb.AccountsDb.FlushSlot | accounts-db/src/accounts_db.rs:4744-4860 | One slot moves from the cache to a new storage; keys left behind leave the index, and a slot that writes nothing loses its root. |
| AccountsDb.AccountsDb.PurgeSlotCachePubkeys | accounts-db/src/accounts_db.rs:4301-4320 | Keys left behind leave the index; both assertions hold: the slot has no storage, and there are as many reclaims as keys. |
| AccountsDb.AccountsDb.ClearRoots | accounts-db/src/accounts_cache.rs:233-246 | Splits the unflushed roots at the given root. |
| AccountsDb.AccountsDb.FlushRoot | accounts-db/src/accounts_db.rs:4870-4916 | A root that is still cached joins the flush under way, with everything the flush has kept so far. |
| AccountsDb.AccountsDb.FlushRoots | accounts-db/src/accounts_db.rs:4715-4727 | Exactly the given roots that are cached are flushed, newest first, and each leaves out only what a newer one has. |
| AccountsDb.AccountsDb.DropSlot | accounts-db/src/accounts_db.rs:4791-4794 | A slot all of whose accounts are left behind is flushed without a storage and loses its root. |
| AccountsDb.AccountsDb.MoveSlot | accounts-db/src/accounts_db.rs:4792-4860 | The chosen accounts of a slot end up in its new storage, the others leave the index. |
| AccountsDb.AccountsDb.StoreAccountsFrozen | accounts-db/src/accounts_db.rs:5614-5705 | The accounts are in a new storage of the slot, and the index leads to them. |
| AccountsDb.AccountsDb.WriteAccounts | accounts-db/src/accounts_db.rs:5757-5808 | The new storage has the accounts in order, and counts them and their stored bytes. |
| AccountsDb.AccountsDb.UpdateIndex | accounts-db/src/accounts_db.rs:5124-5190 | Each written key points to its record, flagged exactly when it has no lamports, in a new entry with one reference when the index has none; otherwise a reference is added exactly when the slot had no stored entry before. |
| AccountsDb.AccountsDb.CleanAccounts | accounts-db/src/accounts_db.rs:1735-2042 | Is a sound clean step; the bound is the smaller of the proposed root and the oldest root a scan needs, or the greatest root; a version of a candidate is trimmed exactly when it is stored and a newer root up to the bound has the key; a key is purged exactly when it is in a slot up to the last full snapshot whose live accounts are all candidates without lamports that no other storage holds, and noted for later exactly when it is in such a slot above it. |
| AccountsDb.AccountsDb.ScanCandidates | accounts-db/src/accounts_db.rs:1786-1899 | Every candidate loses its outdated stored versions and nothing else; kept are exactly the candidates whose newest rooted version has no lamports, with their rooted slots. |
| AccountsDb.AccountsDb.ScanBin | accounts-db/src/accounts_db.rs:1787-1889 | Each candidate of a bin is scanned, and kept exactly when its newest rooted version has no lamports. |
| AccountsDb.AccountsDb.ScanCandidate | accounts-db/src/accounts_db.rs:1798-1882 | One candidate: rooted slots are noted exactly when its newest rooted version has no lamports, outdated versions leave the index. |
| AccountsDb.AccountsDb.CleanRootedEntries | accounts-db/src/accounts_index.rs:1493-1565 | A slot list loses exactly its outdated stored versions, and they are what is reclaimed; says whether the index is left without the key; a missing key is left alone. |
| AccountsDb.AccountsDb.NewestRooted | accounts-db/src/accounts_index.rs:1166-1178 | The newest rooted slot of a slot list up to the bound, or nothing exactly when there is none. |
| AccountsDb.AccountsDb.PurgeKeysExact | accounts-db/src/accounts_db.rs:1347-1386 | Each slot list loses the given slots, empty entries leave the index, and the reclaims are exactly the removed entries, as many as keys when each loses one. |
| AccountsDb.AccountsDb.PurgeExact | accounts-db/src/accounts_index.rs:948-966 | One slot list loses the given slots, what it loses is reclaimed, and other entries stay. |
| AccountsDb.AccountsDb.PurgeExactAll | accounts-db/src/accounts_db.rs:1347-1373 | The same for many keys; every entry that becomes empty is reported, and when each key loses one entry there are as many reclaims as keys. |
| AccountsDb.AccountsDb.HandleDeadKeys | accounts-db/src/accounts_index.rs:865-884 | Of the given keys exactly those with an empty slot list leave the index. |
| AccountsDb.AccountsDb.HandleReclaims | accounts-db/src/accounts_db.rs:2221-2255 | Storages lose the reclaimed records, those left without a live account go with their roots, and every reference they held is dropped. |
| AccountsDb.AccountsDb.ProcessDeadSlots | accounts-db/src/accounts_db.rs:2348-2394 | Dead slots lose their storage and their root, and every key its reference to them. |
| AccountsDb.AccountsDb.ReduceStorage | accounts-db/src/accounts_db.rs:5279-5314 | A storage loses the given records from its count and bytes, whether sizes are added up or everything goes; the rest stays. |
| ReclaimSteps.CollectOffsets | accounts-db/src/accounts_db.rs:5244-5260 | The offsets of a slot are exactly those of its reclaimed entries. |
| ReclaimSteps.DeadBytes | accounts-db/src/accounts_db.rs:5284-5294 | The stored sizes of exactly the given records. |
| AccountsDb.AccountsDb.UnrefStorage | accounts-db/src/accounts_db.rs:5367-5412 | Every key of a storage loses one reference. |
| AccountsDb.AccountsDb.RemoveDeadAccounts | accounts-db/src/accounts_db.rs:5236-5359 | Counts and bytes go down by the reclaimed records, by lookup or by the remove-all shortcut alike; the dead slots are exactly those whose last account goes. |
| AccountsDb.AccountsDb.RemoveAccounts | accounts-db/src/account_storage_entry.rs:227-243 | Given that no more is removed than there is, which every caller is shown to meet, counts and bytes go down by exactly that. |
| AccountsDb.AccountsDb.UnrefDeadSlots | accounts-db/src/accounts_db.rs:5415-5540 | Every key loses one reference per dead storage that held it, never going below zero, and the dropped slots are noted under exactly those keys. |
| AccountsDb.AccountsDb.CollectStoreCounts | accounts-db/src/accounts_db.rs:1921-1990 | Candidates are adjusted to what the first part of the clean left, and every slot's count is its live accounts minus the candidates in it, never below zero. |
| AccountsDb.AccountsDb.AdjustCandidate | accounts-db/src/accounts_db.rs:1927-1956 | A candidate keeps exactly the slots that were neither dropped nor reclaimed, with a fresh reference count when one was dropped. |
| AccountsDb.AccountsDb.TallySlot | accounts-db/src/accounts_db.rs:1957-1981 | Counting a candidate out of a slot keeps the tally exact; the count it takes from is positive. |
| AccountsDb.AccountsDb.TallyBin | accounts-db/src/accounts_db.rs:1926-1985 | Adjusting and counting a bin of candidates keeps the tally exact. |
| AccountsDb.AccountsDb.FilterCandidates | accounts-db/src/accounts_db.rs:2280-2338 | A candidate is purged exactly when all its slots are left with a zero count and none is above the snapshot limit; those held back are exactly the ones noted for later. |
| AccountsDb.AccountsDb.FilterCandidate | accounts-db/src/accounts_db.rs:2296-2336 | A candidate passes exactly when all its slots do, and is noted for later exactly when only the snapshot holds it back. |
| AccountsDb.AccountsDb.ChoosePurges | accounts-db/src/accounts_db.rs:1921-2006 | Tally, dependency calculation and filter together choose exactly the keys of slots that vanish, all of them can be purged, and exactly the keys held back by the snapshot are noted for later. |
| AccountsDb.AccountsDb.CleanOutdated | accounts-db/src/accounts_db.rs:1221-1240 | The first part of a clean: exactly the outdated versions of the candidates go, with the storages they leave dead. |
| AccountsDb.AccountsDb.PurgeEmptyKeys | accounts-db/src/accounts_db.rs:1921-2042 | The second part of a clean purges exactly the keys of slots that vanish, the storages die with them, and exactly the keys held back by the snapshot are noted for later. |
| AccountsDb.AccountsDb.ShrinkStorage | accounts-db/src/accounts_db.rs:2869-2971 | Shrinks exactly when the alive bytes are positive and below the capacity, and then is a sound shrink step that is safe for the last full snapshot; a live key vanishes exactly when it has no lamports, one reference, and the slot is not above that snapshot. |
| AccountsDb.AccountsDb.ShrinkCollect | accounts-db/src/accounts_db.rs:2400-2494 | The newest records split into alive, dead and vanishing ones, each key in exactly one part; the vanishing ones are exactly the live keys with no lamports and one reference, when the slot is not above the last full snapshot. |
| AccountsDb.AccountsDb.Rewrite | accounts-db/src/accounts_db.rs:2689-2718 | The new storage has the alive accounts, dead keys lose a reference, and vanishing keys lose the slot. |
| AccountsDb.AccountsDb.UnrefKeys | accounts-db/src/accounts_db.rs:2775-2817 | Each given key loses exactly one reference. |
| ShrinkMoves.AliveBytes | accounts-db/src/accounts_db.rs:2578-2677 | The stored sizes of the alive accounts. |
| DeleteDependencies.CalcDeleteDependencies | accounts-db/src/accounts_db.rs:1246-1344 | The slots left all have a zero count, and are the largest set closed under sharing a key in which every key is in all its storages. |
| DeleteDependencies.StrikeOut | accounts-db/src/accounts_db.rs:1298-1341 | Strikes out the given slots and everything connected to them, and nothing that could be deleted. |
| DeleteDependencies.VisitKey | accounts-db/src/accounts_db.rs:1257-1341 | After a key is visited, either all its slots are removable or all are struck out. |
| DeleteDependencies.CanDelete | accounts-db/src/accounts_db.rs:1258-1290 | A key holds nothing back exactly when all its slots have a zero count and hold all its references. |
| DeleteDependencies.LargestIsUnique | accounts-db/src/accounts_db.rs:1246-1344 | Whatever the iteration order, the answer is the same. |
| DeleteDependencies.DeletableIsEmpty | accounts-db/src/accounts_db.rs:1246-1344 | A deletable slot has no account left once its candidates are gone. |
| CleanSteps.FilterIsExact | accounts-db/src/accounts_db.rs:2280-2338 | The dependency calculation and the filter together purge exactly the keys of slots whose every live account is a candidate no other storage holds. |
| CleanSteps.ScannedIsTrimmed | accounts-db/src/accounts_db.rs:1786-1899 | Scanning all candidates takes out exactly their outdated versions, and lists each of them. |
| CleanSteps.TallyFits | accounts-db/src/accounts_db.rs:1957-1976 | The subtractions in the tally never go below zero. |
| CleanSteps.MaxCleanRoot | accounts-db/src/accounts_db.rs:1388-1400 | The bound is the smaller of the proposed root and the oldest root a scan needs, and missing only when both are. |
| CleanSteps.PurgedBelowSnapshot | accounts-db/src/accounts_db.rs:2286-2336 | A clean that is exact about the snapshot purges nothing from a slot above it. |
| CleanSteps.CleanIsExact | accounts-db/src/accounts_db.rs:2286-2336 | Whether or not the clean reaches past the last full snapshot, the keys purged are those of empty slots up to it and the keys noted for later those of empty slots above it. |
| CleanSteps.WaitingIsExact | accounts-db/src/accounts_db.rs:2321-2332 | The filter notes for later exactly the keys of slots that would vanish but lie above the snapshot. |
| CleanSteps.VanishingAreEmpty | accounts-db/src/accounts_db.rs:1786-1899 | After the trim, the slots whose every live account was an empty candidate before it are exactly those whose every live account has no lamports, is a candidate and is held nowhere else. |
| CleanSteps.TrimIsExact | accounts-db/src/accounts_index.rs:1493-1529 | A version of a candidate is outdated exactly when it is stored and a newer root up to the bound has the key. |
| Cleaning.OutdatedIsSuperseded | accounts-db/src/accounts_index.rs:1493-1529 | Whatever is taken out as outdated is older than a stored root of its key that stays. |
| Cleaning.TrimKeepsLoads | accounts-db/src/accounts_db.rs:1221-1240 | Taking out outdated versions changes no load that sees the roots up to the bound. |
| Cleaning.TrimKeepsInv | accounts-db/src/accounts_db.rs:1221-1240 | After outdated versions left the index, the invariant holds up to what is still to be reclaimed. |
| Cleaning.AdjustedIsGathered | accounts-db/src/accounts_db.rs:1927-1956 | After the first part of a clean, a candidate is left with exactly its newest rooted slot and its true reference count. |
| Cleaning.ZeroCountIsAllCandidates | accounts-db/src/accounts_db.rs:1921-1990 | A slot left with a zero count holds candidates only. |
| Cleaning.PurgedLoadsNothing | accounts-db/src/accounts_db.rs:1998-2042 | A current reader finds nothing under a purged key already, unless it sees a newer version that stays. |
| Cleaning.PurgedEverywhere | accounts-db/src/accounts_db.rs:1921-2042 | A purged key is purged from exactly the storages that hold any version of it. |
| Cleaning.PurgeKeepsInv | accounts-db/src/accounts_db.rs:1998-2042 | Purging keeps the invariant, and every slot something is purged from dies in the same clean. |
| Cleaning.PurgeKeepsLoads | accounts-db/src/accounts_db.rs:1998-2042 | Purging a key changes no current load. |
| Cleaning.FilteredArePurgeable | accounts-db/src/accounts_db.rs:2294-2338 | Whatever passes the dependency calculation and the filter may be purged, with the filter active too. |
| Cleaning.LiveKeys | accounts-db/src/account_storage_entry.rs:119-121 | A storage's count is the number of keys the index has at its slot. |
| Reclaiming.DeadWhenNoneLive | accounts-db/src/accounts_db.rs:5279-5331 | A slot is reported dead exactly when its last live account is reclaimed. |
| Reclaiming.StorageCanLose | accounts-db/src/account_storage_entry.rs:227-243 | Reclaims never exceed a storage's count or bytes, and the remove-all shortcut agrees with adding up sizes. |
| Reclaiming.ReclaimKeepsInv | accounts-db/src/accounts_db.rs:5236-5359 | Reclaiming restores counts, bytes, reference counts and the rest of the invariant. |
| Reclaiming.ReclaimKeepsLoads | accounts-db/src/accounts_db.rs:5236-5359 | Reclaiming changes no load. |
| Reclaiming.ReclaimKeepsRoots | accounts-db/src/accounts_db.rs:5361-5363 | The slots that lose their root have no entry left in the index. |
| Flushing.FlushKeepsInv | accounts-db/src/accounts_db.rs:4744-4860 | Flushing a slot keeps the invariant, counts and reference counts included. |
| Flushing.FlushKeepsLoads | accounts-db/src/accounts_db.rs:4744-4860 | Flushing a slot changes no load of a reader that sees the roots up to the clean bound. |
| FlushMoves.ChooseAccounts | accounts-db/src/accounts_db.rs:4770-4802 | The accounts of a slot split into those written and those left behind, which while cleaning are exactly the keys already written. |
| FlushMoves.WrittenOnce | accounts-db/src/accounts_db.rs:4700-4731 | While cleaning, two flushed slots up to the limit never write the same key. |
| FlushMoves.FlushesOnce | accounts-db/src/accounts_db.rs:4700-4731 | While cleaning, slots up to the limit share no written key; a slot above it, and every slot without cleaning, writes all its keys. |
| FlushMoves.FlushedIsBelow | accounts-db/src/accounts_db.rs:4713-4727 | Taking all roots up to the requested one leaves only newer ones in the cache. |
| Types.StoredSize | accounts-db/src/append_vec.rs:1069-1071 | A stored size is a multiple of eight that fits header and data with less than eight bytes to spare. |
| Shrinking.ShrinkKeepsInv | accounts-db/src/accounts_db.rs:2869-2971 | A shrink keeps the invariant. |
| Shrinking.ShrinkKeepsLoads | accounts-db/src/accounts_db.rs:2869-2971 | A shrink changes no current load: alive accounts are the same in the new storage, and a vanishing key loaded as nothing already. |
| Shrinking.SingleHolder | accounts-db/src/accounts_db.rs:2422-2437 | A key that vanishes is held by this storage only. |
| Shrinking.ZeroIsOldest | accounts-db/src/accounts_db.rs:2422-2437 | A current reader that sees a vanishing account sees no older version it would fall back to. |
| Shrinking.VanishingLoadsNothing | accounts-db/src/accounts_db.rs:2422-2437 | When the newest version a current reader sees vanishes in a shrink, it is the only one and loads as nothing. |
| ShrinkMoves.UniqueAccounts | accounts-db/src/accounts_db.rs:2498-2558 | The result has one record per key of the storage, the last one stored. |
| Dedup.SortAndRemoveDups | accounts-db/src/accounts_db.rs:2540-2558 | What is kept in place is the last stored version of every key, in key order, and the rest are counted as duplicates. |
| Dedup.RemoveDups | accounts-db/src/accounts_db.rs:2544-2556 | In-place compaction of a sorted vector keeps the last of every run of equal keys. |
| Dedup.SortIsStable | accounts-db/src/accounts_db.rs:2542-2542 | The sort orders keys and does not change which version of a key comes last. |
| Dedup.RunsOfSorted | accounts-db/src/accounts_db.rs:2544-2556 | The last elements of the runs of a sorted vector are the last versions of all keys. |
| Dedup.SortByPubkey | accounts-db/src/accounts_db.rs:2542-2542 | The in-place sort is the stable one. |
| ReaderProtocol.ReaderIsRight | accounts-db/src/accounts_db.rs:3634-3910 | In every interleaving with flush, shrink and clean steps that do not work on one slot at the same time, whose removals are those the jobs make on a database that shows the key, the load returns the account the key logically has, the bad-index-entry panic is unreachable, the cache misses at most once, and while the reader is looking its lookups have failed at most as often as a visible entry moved. |
| ReaderProtocol.FailureMeansMoved | accounts-db/src/account_storage.rs:52-72 | When a lookup fails, the index entry it started from is no longer in place: while the entry stays, the three lookups find its storage, wherever a shrink's swap and removal fall between them. |
| ReaderProtocol.MovesChange | accounts-db/src/accounts_db.rs:3674-3744 | A job step counts as a move exactly when it changes or removes an index entry the reader sees. |
| ReaderProtocol.InPlaceIsFound | accounts-db/src/account_storage.rs:52-72 | An entry that is in place at the last of the three lookups is found there, if not before; a cached one at once. |
| ReaderProtocol.StorageAssertsHold | accounts-db/src/account_storage.rs:189-310 | The assertions on the two storage maps hold when a shrink begins, swaps and ends. |
| ReaderProtocol.StepKeepsWorld | accounts-db/src/accounts_db.rs:3674-3744 | Every job step keeps each index entry leading to an account that can be found. |
| ReaderProtocol.StepKeepsLogical | accounts-db/src/accounts_db.rs:3674-3744 | Every job step, removals by trim, purge, flush and shrink included, leaves the account the key logically has unchanged, and the newest visible version stays the newest while there is one. |
| ReaderProtocol.RemovalIsSafe | accounts-db/src/accounts_db.rs:3674-3744 | A removal that meets a job's own conditions never takes the newest version the reader sees, unless that is empty and all visible ones go. |
| ReaderProtocol.TrimIsHarmless | accounts-db/src/accounts_index.rs:1493-1529 | What a trim removes of a key is older than a version a current view sees. |
| ReaderProtocol.PurgeIsHarmless | accounts-db/src/accounts_db.rs:1998-2042 | What a purge removes of a key loads as nothing already, unless a newer version stays. |
| ReaderProtocol.LeaveBehindIsHarmless | accounts-db/src/accounts_db.rs:4766-4794 | What a flush leaves behind is older than a root the view sees. |
| ReaderProtocol.VanishIsHarmless | accounts-db/src/accounts_db.rs:2422-2437 | What vanishes in a shrink loads as nothing already, unless a newer version stays. |
| ReaderProtocol.LogicalIsLoad | accounts-db/src/accounts_db.rs:3605-3632 | What the reader should load is what its view loads from the database. |
| ReaderJobs.ReaderLoadsHistory | accounts-db/src/accounts_db.rs:3605-3910 | A reader that starts in any state of any run of the database, among any job steps that follow, loads what the never-forgetting reference remembers, and does not panic. |
| ReaderJobs.RunIsTrace | accounts-db/src/accounts_db.rs:3674-3744 | Every stretch of a run that keeps the reader's slots is, on each key, a sequence of the protocol's steps, from the world of the first state to that of the last. |
| ReaderJobs.StepIsTrace | accounts-db/src/accounts_db.rs:3674-3744 | So is every single write, root, flush, clean or shrink. |
| ReaderJobs.FlushIsTrace | accounts-db/src/accounts_db.rs:4744-4860 | Flushing a slot is: leave the key behind, or create the storage, move the entry and drop the cached account. |
| ReaderJobs.ShrinkIsTrace | accounts-db/src/accounts_db.rs:2869-2971 | A shrink is: create the storage, move or remove the entry, swap the storages and drop the old one. |
| ReaderJobs.CleanIsTrace | accounts-db/src/accounts_db.rs:1735-2042 | A clean is: remove outdated entries, drop dead storages, remove purged entries, drop the storages that die with them. |
| ReaderJobs.RestsIsOk | accounts-db/src/account_storage.rs:52-72 | Between two jobs the world of a key meets the invariant of the protocol. |
| ReaderProtocol.RunKeepsOk | accounts-db/src/accounts_db.rs:3634-3910 | In every state of every interleaving the reader is where its progress so far allows. |
| StartupHash.GenerateIndex | accounts-db/src/accounts_db.rs:6229-6565 | For any commutative group, any assignment of storages to threads and any chunk size, adding all current records and taking out older versions gives the total of the newest version of each key, for the hash and for the data length, which never goes below zero. |
| StartupHash.StartupMatchesWalk | accounts-db/src/accounts_db.rs:4956-5013 | The hash computed while rebuilding the index equals the hash of a walk over the index. |
| StartupHash.WalkIndex | accounts-db/src/accounts_db.rs:4956-5013 | The walk gives the total of the newest version of each key. |
| StartupHash.GenerateIndexForSlot | accounts-db/src/accounts_db.rs:6067-6174 | One storage adds exactly its current records to the index and to the totals. |
| StartupHash.IndexStorages | accounts-db/src/accounts_db.rs:6293-6382 | All storages together give an index of exactly the current records and their totals. |
| StartupHash.VisitDuplicates | accounts-db/src/accounts_db.rs:6778-6830 | The totals of exactly the older versions of the given keys. |
| StartupHash.VisitKey | accounts-db/src/accounts_db.rs:6788-6820 | The versions of one key but the newest join the totals. |
| StartupHash.VisitChunks | accounts-db/src/accounts_db.rs:6524-6557 | Chunk by chunk gives the same totals as all at once. |
| StartupHash.DuplicateKeys | accounts-db/src/accounts_db.rs:6453-6484 | Exactly the keys in more than one slot, each once. |
| StartupHash.IndexThread | accounts-db/src/accounts_db.rs:6306-6342 | What one thread indexes and measures is exactly what its storages hold. |
| StartupHash.LatestAreTheRest | accounts-db/src/accounts_db.rs:6562-6564 | All versions without the older ones are the newest ones. |
| StartupHash.LatestAreNewest | accounts-db/src/accounts_db.rs:6778-6830 | What counts as newest in the index is what no current record of the key is newer than. |
| Groups.LtHashesAreAbelian | lattice-hash/src/lt_hash.rs:12-51 | Elementwise wrapping addition of 1024 sixteen-bit words is a commutative group with mixing out as the inverse. |
| Groups.TotalDifference | lattice-hash/src/lt_hash.rs:43-50 | Taking out part of what was added, in any order, leaves the total of the rest. |
| Groups.MixIn | lattice-hash/src/lt_hash.rs:34-41 | Mixing in is elementwise addition modulo 65536. |
| Groups.MixOut | lattice-hash/src/lt_hash.rs:43-50 | Mixing out is elementwise subtraction modulo 65536. |
| Reservation.StepKeepsInv | accounts-db/src/accounts_db.rs:4406-4490 | The contended slots stay the disjoint union of what flushers and removers hold. |
| Reservation.RunKeepsInv | accounts-db/src/accounts_db.rs:4406-4490 | This holds in every state of every run. |
| Reservation.NeverBoth | accounts-db/src/accounts_db.rs:4870-4916 | No slot is flushed and removed at once, nor flushed twice at once. |
| Reservation.ReleaseAssertsHold | accounts-db/src/accounts_db.rs:4486-4489 | Both assertions that a slot given back was still reserved hold. |
| Reservation.WaitersAreRemembered | accounts-db/src/accounts_db.rs:4446-4467 | No wakeup is lost: a waiting remover is about to be notified, or all slots it waits for are held by flushers. |
| Reservation.RemoversGoOn | accounts-db/src/accounts_db.rs:4446-4467 | Once no flusher is at work or about to notify, nobody waits, and a woken remover gets all its slots. |
| Reservation.Synchronization.ReserveRemove | accounts-db/src/accounts_db.rs:4425-4444 | All slots of any list are reserved, and what remains to wait for is exactly what was reserved before or is named twice; without repeats and other removers of the same slots this is the start of a removal in a run. |
| Reservation.Synchronization.RetryRemove | accounts-db/src/accounts_db.rs:4446-4467 | Is the retry of a woken remover in a run: what remains is exactly what somebody still has. |
| Reservation.Synchronization.ReserveFlush | accounts-db/src/accounts_db.rs:4876-4882 | Is the start of a flush in a run: the flusher gets its slot exactly when nobody has it. |
| Reservation.Synchronization.ReleaseRemove | accounts-db/src/accounts_db.rs:4486-4489 | Is the end of a removal in a run; every slot given back is still reserved. |
| Reservation.Synchronization.ReleaseFlush | accounts-db/src/accounts_db.rs:4897-4907 | Is the end of a flush in a run; the slot given back is still reserved. |
| Locks.AccountLocks.TryLockAccounts | accounts-db/src/account_locks.rs:24-33 | A transaction is granted exactly when no outstanding one shares a key with it that either of them writes; otherwise nothing changes. |
| Locks.AccountLocks.TryLockTransactionBatch | accounts-db/src/account_locks.rs:40-57 | Exactly the valid transactions that conflict with nothing from before the batch succeed, and each that does holds its own keys: the outstanding ones grow by one entry per success, in order. |
| Locks.AccountLocks.TryLockOneByOne | accounts-db/src/accounts.rs:520-527 | Each valid transaction is granted exactly when it conflicts with nothing outstanding, earlier ones of the call included, and each success adds one outstanding entry with its own keys, in order. |
| Locks.AccountLocks.LockTransactions | accounts-db/src/accounts.rs:497-530 | In both modes results and grants are those of the mode, each success adds one outstanding entry with its own keys, grants of different batches never conflict, and in the older mode no two outstanding ones ever do. |
| Locks.TogetherInOrder | accounts-db/src/account_locks.rs:40-57 | The grants of a batch are, one for one and in order, the keys of the transactions that succeed. |
| Locks.OneByOneInOrder | accounts-db/src/accounts.rs:520-527 | So are the grants when transactions are locked one at a time, each a batch of its own. |
| Locks.AccountLocks.UnlockTransactions | accounts-db/src/accounts.rs:533-547 | Exactly the granted transactions of the call are given back. |
| Locks.AccountLocks.UnlockAccounts | accounts-db/src/account_locks.rs:63-71 | Giving an outstanding transaction back never meets a missing lock, and leaves the tables counting the rest. |
| Locks.AccountLocks.LockAccounts | accounts-db/src/account_locks.rs:90-98 | Afterwards the tables count, key by key and mode by mode, one more outstanding transaction, without zero entries. |
| Locks.AvailableIsPeaceful | accounts-db/src/account_locks.rs:73-118 | The table checks say exactly whether a transaction conflicts with an outstanding one. |
| Locks.AccountLocks.CanLockAccounts | accounts-db/src/account_locks.rs:73-88 | All keys are free in the mode wanted. |
| Locks.TogetherIsPeaceful | accounts-db/src/account_locks.rs:40-57 | Granting a batch together keeps grants of different batches free of conflicts. |
| Locks.AccountLocks.CheckBatch | accounts-db/src/account_locks.rs:46-52 | Each transaction is checked against what was held before the batch, and errors from before stay. |
| Locks.AccountLocks.UnlockWrite | accounts-db/src/account_locks.rs:142-156 | One write lock less, and no entry once there is none. |
| Locks.AccountLocks.UnlockReadonly | accounts-db/src/account_locks.rs:127-140 | One read lock less, and no entry once there is none. |
| Locks.TableIsDetermined | accounts-db/src/account_locks.rs:120-156 | The tables follow from what is outstanding, so locking and unlocking restores them. |
| Locks.OneByOneNeverConflicts | accounts-db/src/account_locks.rs:24-33 | Granting one by one keeps all outstanding transactions free of conflicts. |
| Locks.KeyChecker.HasDuplicates | accounts-db/src/account_locks.rs:178-199 | Both ways of checking find a repeated key exactly when there is one, and the reused set ends empty. |
| Locks.KeyChecker.ValidateAccountLocks | accounts-db/src/account_locks.rs:160-171 | Too many keys, then repeated keys, are the errors. |
| StorageReader.AccountStorageReader.constructor | accounts-db/src/account_storage_reader.rs:28-68 | What will be delivered is the file without the ranges obsolete by the slot, and its length is known. |
| StorageReader.AccountStorageReader.Read | accounts-db/src/account_storage_reader.rs:80-130 | The buffer is filled with the next bytes that are not obsolete, up to what is left, however short single file reads are, and the rest of the buffer stays. |
| StorageReader.ReadAll | accounts-db/src/account_storage_reader.rs:80-130 | For any buffer sizes, what is delivered and what is left make up the cut file, and a non-empty buffer stays empty only at the end. |
| StorageReader.CutLength | accounts-db/src/account_storage_entry.rs:143-154 | What is left of a file and the clipped sizes cut out add up to the file. |
| StorageReader.ObsoleteBytes | accounts-db/src/account_storage_entry.rs:143-154 | The sum of the range sizes, each clipped at the end of the file. |
| StorageReader.SortedIsAhead | accounts-db/src/account_storage_reader.rs:53-54 | After the sort the nearest range is last, and all lie ahead of the start. |
| StorageReader.AccountStorageReader.Skip | accounts-db/src/account_storage_reader.rs:86-92 | Skipping a range leaves what will be delivered unchanged. |
| StorageReader.AccountStorageReader.ReadSome | accounts-db/src/account_storage_reader.rs:95-126 | Delivers the next bytes in place, none only at the end. |
| StorageReader.FilterObsolete | accounts-db/src/obsolete_accounts.rs:39-47 | The ranges are exactly those, at the account's offset and of its stored size, of the accounts obsolete in the slot or before, or of all when no slot is given. |
| Orderer.SelectInRange | accounts-db/src/account_storage.rs:455-472 | The selection stays in the range and never underflows. |
| Orderer.SelectIsInjective | accounts-db/src/account_storage.rs:455-472 | Different positions select different values, for all rates with a positive sum. |
| Orderer.SelectCounts | accounts-db/src/account_storage.rs:455-472 | In the first part of each cycle a selected value is as far from the start as values were taken there before, and in the rest as far from the end. |
| Orderer.StartsInClosedForm | accounts-db/src/account_storage.rs:455-472 | The closed form counts the values taken from the start. |
| Orderer.SortByCapacity | accounts-db/src/account_storage.rs:340-342 | The indices of the storages from small to large, each once. |
| Orderer.WithSmallToLargeRatio | accounts-db/src/account_storage.rs:336-350 | The order has every storage once, and is the selection applied to the indices of a sort; it has the documented cycles of small and large storages when ranks are kept, and for different capacities only then. |
| Orderer.InterleavedExactlyWhenKept | accounts-db/src/account_storage.rs:332-350 | For all capacities, equal ones too: every way to sort leads to the documented cycles exactly when the selection takes a storage of each rank to one of the selected rank. |
| Orderer.RatioCanFail | accounts-db/src/account_storage.rs:332-350 | For capacities 2, 0, 1 and ratio 1:1 the code misses the documented order: the first storage handed out is not the smallest. |
| Orderer.GrowingIsKept | accounts-db/src/account_storage.rs:332-350 | For strictly growing capacities the documented order is met. |
| Orderer.SortHasRank | accounts-db/src/account_storage.rs:342-342 | The storage at a position of any sort has that rank. |
| Orderer.ConcurrentConsumer.Next | accounts-db/src/account_storage.rs:411-436 | Each call hands out a storage nobody got before, and none exactly when all have been handed out. |
| CacheSize.AccountsCache.Insert | accounts-db/src/accounts_cache.rs:72-104 | Sizes and counts of the slot and of the whole cache stay exact when an account is added or replaced. |
| CacheSize.InsertKeepsAccurate | accounts-db/src/accounts_cache.rs:78-102 | The difference taken off a slot cache fits, and its sizes are accurate afterwards. |
| CacheSize.AccountsCache.NewSlot | accounts-db/src/accounts_cache.rs:202-211 | A new slot cache is empty and changes no total. |
| CacheSize.AccountsCache.Store | accounts-db/src/accounts_cache.rs:196-214 | Storing makes a slot cache when there is none, all sizes stay exact, and no other slot's cache changes. |
| CacheSize.AccountsCache.RemoveSlot | accounts-db/src/accounts_cache.rs:221-223 | A slot cache taken out of the map still counts. |
| CacheSize.AccountsCache.Drop | accounts-db/src/accounts_cache.rs:34-42 | Dropping a slot cache takes its sizes off the totals, which never go below zero. |
| LargestAccounts.LoadLargestAccounts | accounts-db/src/accounts.rs:254-307 | The result lists scanned accounts with lamports that pass the filter, at most as many as asked for, descending by balance and then key; another such account is missing only when the list is full, and comes after all of it. |
| LargestAccounts.BestAreLargest | accounts-db/src/accounts.rs:254-307 | The best of the eligible set are the largest of the scan, said without the heap's order or the eligibility test. |
| LargestAccounts.TooSmall | accounts-db/src/accounts.rs:287-294 | An account below the smallest of a full heap changes nothing. |
| LargestAccounts.Joins | accounts-db/src/accounts.rs:297-297 | A new account joins a heap that is not full. |
| LargestAccounts.Replaces | accounts-db/src/accounts.rs:295-297 | A larger account takes the place of the smallest in a full heap. |
| CrateOrder.OrderPackages | ci/order-crates-for-publishing.py:110-152 | Succeeds exactly when there are no wrong self-dependencies and no cycle; the order has each package once after its dependencies; the pass budget runs out only on a cyclic graph. |
| CrateOrder.Pass | ci/order-crates-for-publishing.py:138-149 | One pass takes out exactly the packages none of whose dependencies remains, and keeps the order right. |
| CrateOrder.PassMakesProgress | ci/order-crates-for-publishing.py:138-149 | Without a cycle every pass takes something out. |
| CrateOrder.MutualIsCyclic | ci/order-crates-for-publishing.py:110-115 | Packages that depend on each other are a cycle. |
| CrateOrder.HasDirectCycle | ci/order-crates-for-publishing.py:110-115 | Finds packages that depend on each other exactly when there are some. |
| CrateOrder.StuckIsCyclic | ci/order-crates-for-publishing.py:130-149 | When every package left depends on one left, there is a cycle. |
| CrateOrder.OrderedIsAcyclic | ci/order-crates-for-publishing.py:130-149 | A graph that can be ordered has no cycle. |

## Left out

- Reclaiming of old slots while flushing, and the obsolete-account marks it leaves in storages, are not part of the database model; `StorageReader` and `StartupHash` take the marks as given.
- Unrooted slots that an overfull cache flushes to storage, and the purge of unrooted slots, are not modelled; `Reservation` models only how the two exclude each other.
- Several versions of a key in one storage: a flush never writes them, so the database invariant rules them out; `Dedup` handles them for any input.
- Which keys become clean candidates, which storages become shrink candidates, and the lists that remember dirty or uncleaned slots: candidates are arguments, and the proofs hold for any.
- The shortcut that answers a shrink scan without reading the disk index: every scan reads the full index.
- Concurrent writers in the class: its methods run one at a time. Interleavings are modelled in `ReaderProtocol` and `Reservation` only.
- ReaderProtocol.ReaderIsRight: the reader's root is fixed, as for transaction loads; loads with an unspecified hint and their slow path are not modelled.
- ReaderProtocol.RemovalIsSafe: a trim, a purge or a flush takes no entry from a slot another flush or shrink is working on. The background service runs its jobs one after the other (`runtime/src/accounts_background_service.rs`, lines 540 to 567), so none does.
- AccountsDb.AccountsDb.CleanAccounts: the roots up to the clean bound have been flushed. The source asserts this of the accounts it tallies and relies on the flush before a clean for the rest.
- AccountsDb.AccountsDb.CleanOutdated: the roots up to the clean bound have been flushed, as for the whole clean.
- AccountsDb.AccountsDb.PurgeEmptyKeys: the roots up to the clean bound have been flushed, as for the whole clean.
- AccountsDb.AccountsDb.ChoosePurges: the roots up to the clean bound have been flushed, as for the whole clean.
- AccountsDb.AccountsDb.WriteAccounts: a new storage has room for all its accounts; writing in portions when it has not is left out.
- AccountsDb.AccountsDb.HandleReclaims: an empty list is handled like any other, where the source returns early.
- StorageReader.AccountStorageReader.constructor: obsolete ranges start in the file and do not overlap, as those of different accounts do not.
- Reservation.StepKeepsInv: removers at work at the same time want different slots, as the source demands of its callers; a list that names a slot twice is modelled up to the wait, which includes the remover's own slot.
- ReaderJobs.RunIsTrace: a run's jobs follow one another here; overlapping jobs are steps of the protocol only. Writes go to slots the reader does not see, and no slot comes into its view.
- LargestAccounts.LoadLargestAccounts: a scan meets each key once and does not fail; the heap is kept as a sorted sequence.
- StartupHash.WalkIndex: all storages are rooted up to the startup slot, so the walk has no ancestors to tell apart.
- AccountsDb.AccountsDb.LoadAccount: the read-only cache in front of the storages is left out.
- Storage ids do not run out, and slots, counts and sizes are not limited to machine words.
- Capacity ratios in floating point, ancient packing, secondary indexes, notifications, statistics and file input and output.
- The hash of a single account is any function into a commutative group that sends accounts without lamports to zero.
