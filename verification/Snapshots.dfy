/**
 * Restarting from a full snapshot and the storages that are newer. As long as nothing vanishes
 * from slots above the full snapshot, nothing in it comes back.
 */
module Snapshots {
  import opened Types
  import opened Database
  import opened Flushing
  import opened Reclaiming
  import opened Removing
  import opened Cleaning
  import opened Shrinking
  import opened History
  import opened Runs
  import opened Restart

  type Storages = map<Slot, Store>

  /** What an incremental snapshot adds to a full one. */
  function NewerThan(storage: Storages, last: Slot): Storages {
    map s | s in storage && s > last :: storage[s]
  }

  // ---- What a full snapshot and the running database have to do with each other ----

  /** The records still in a storage the full snapshot has are records of the snapshot. */
  ghost predicate SlotCovered(storage: Storages, full: Storages, last: Slot, s: Slot) {
    s in storage && s <= last ==> s in full && forall r :: r in storage[s].accounts ==> r in full[s].accounts
  }

  /**
   * The newest record of a key is not older than the one in the snapshot, or the key is gone
   * and has no lamports in the snapshot either.
   */
  ghost predicate KeyCovered(storage: Storages, full: Storages, k: Pubkey) {
    var now, before := Holders(storage, k), Holders(full, k);
    before != {} ==>
      if now == {} then RecordIn(full[Newest(before)].accounts, k).lamports == 0 else Newest(before) <= Newest(now)
  }

  ghost predicate Covered(storage: Storages, full: Storages, last: Slot) {
    && (forall s :: s in full ==> s <= last && NoDuplicates(full[s].accounts))
    && (forall s :: SlotCovered(storage, full, last, s))
    && (forall k :: KeyCovered(storage, full, k))
  }

  lemma OneRecord(a: seq<Stored>, b: seq<Stored>, k: Pubkey)
    requires k in KeysOf(a) && NoDuplicates(b) && forall r :: r in a ==> r in b
    ensures k in KeysOf(b) && RecordIn(b, k) == RecordIn(a, k)
  {
    var r := Stored(k, RecordIn(a, k));
    assert r in b;
    var i :| 0 <= i < |b| && b[i] == r;
    assert k in KeysOf(b);
    var j :| 0 <= j < |b| && b[j] == Stored(k, RecordIn(b, k));
  }

  /** A record in a covered slot is the snapshot's record of that slot. */
  lemma CoveredRecord(storage: Storages, full: Storages, last: Slot, k: Pubkey, s: Slot)
    requires SlotCovered(storage, full, last, s) && s <= last && s in Holders(storage, k)
    requires s in full ==> NoDuplicates(full[s].accounts)
    ensures s in Holders(full, k) && RecordIn(full[s].accounts, k) == RecordIn(storage[s].accounts, k)
  {
    OneRecord(storage[s].accounts, full[s].accounts, k);
  }

  lemma HoldersJoin(storage: Storages, full: Storages, last: Slot, k: Pubkey)
    requires forall s :: s in full ==> s <= last
    ensures forall s :: s in Holders(full + NewerThan(storage, last), k)
                        <==> s in Holders(full, k) || (s in Holders(storage, k) && s > last)
  {
  }

  /** Restarting from the full snapshot and the newer storages finds what the current storages have. */
  lemma ReloadCovered(storage: Storages, full: Storages, last: Slot, k: Pubkey)
    requires Covered(storage, full, last)
    ensures Reload(full + NewerThan(storage, last), k) == Reload(storage, k)
  {
    var joined := full + NewerThan(storage, last);
    var now, before, all := Holders(storage, k), Holders(full, k), Holders(joined, k);
    HoldersJoin(storage, full, last, k);
    assert KeyCovered(storage, full, k);
    if now == {} {
      assert all == before;
    } else {
      var n := Newest(now);
      if n > last {
        assert n in all && Newest(all) == n;
      } else {
        assert SlotCovered(storage, full, last, n);
        CoveredRecord(storage, full, last, k, n);
        assert all == before && Newest(before) == n;
      }
    }
  }

  // ---- Steps ----

  /** The newest record of a key stays, or the key vanishes from a slot of the snapshot with no lamports. */
  ghost predicate NewestKept(storage: Storages, storage': Storages, last: Slot, k: Pubkey) {
    var now, next := Holders(storage, k), Holders(storage', k);
    now != {} ==>
      || Newest(now) in next
      || (next == {} && Newest(now) <= last && RecordIn(storage[Newest(now)].accounts, k).lamports == 0)
  }

  lemma KeyStep(storage: Storages, storage': Storages, full: Storages, last: Slot, k: Pubkey)
    requires Covered(storage, full, last) && NewestKept(storage, storage', last, k)
    requires forall s :: s in Holders(storage', k) ==> s in Holders(storage, k) || s > last
    ensures KeyCovered(storage', full, k)
  {
    var now, next, before := Holders(storage, k), Holders(storage', k), Holders(full, k);
    assert KeyCovered(storage, full, k);
    if before != {} {
      if now != {} && Newest(now) !in next {
        var n := Newest(now);
        assert SlotCovered(storage, full, last, n);
        CoveredRecord(storage, full, last, k, n);
        assert n == Newest(before);
      }
    }
  }

  /** A step that only drops records of the snapshot's slots, and only outdated or vanishing ones. */
  ghost predicate SafeStep(storage: Storages, storage': Storages, last: Slot) {
    && (forall s :: s in storage' && s <= last ==> s in storage && forall r :: r in storage'[s].accounts ==>
          r in storage[s].accounts)
    && (forall k :: NewestKept(storage, storage', last, k))
  }

  lemma SafeStepKeepsCover(storage: Storages, storage': Storages, full: Storages, last: Slot)
    requires Covered(storage, full, last) && SafeStep(storage, storage', last)
    ensures Covered(storage', full, last)
  {
    forall s
      ensures SlotCovered(storage', full, last, s)
    {
      assert SlotCovered(storage, full, last, s);
    }
    forall k
      ensures KeyCovered(storage', full, k)
    {
      forall s | s in Holders(storage', k) && s <= last
        ensures s in Holders(storage, k)
      {
        var o :| 0 <= o < |storage'[s].accounts| && storage'[s].accounts[o].pubkey == k;
        assert storage'[s].accounts[o] in storage[s].accounts;
      }
      assert NewestKept(storage, storage', last, k);
      KeyStep(storage, storage', full, last, k);
    }
  }

  // ---- The background jobs ----

  /** Dropping dead storages keeps the newest record of every key that stays live. */
  lemma ReclaimIsSafe(db: Db, pending: Reclaims, dead: set<Slot>, db': Db, last: Slot, gone: set<Pubkey>)
    requires IndexOk(db) && CountsOk(db, pending) && CacheOk(db) && Reclaimed(db, pending, dead, db')
    requires forall k :: k !in gone && Holders(db.storage, k) != {} ==>
               IsLive(db.index, Newest(Holders(db.storage, k)), k)
    requires forall k :: k in gone ==> NewestKept(db.storage, db'.storage, last, k)
    ensures SafeStep(db.storage, db'.storage, last)
  {
    forall k
      ensures NewestKept(db.storage, db'.storage, last, k)
    {
      if k !in gone && Holders(db.storage, k) != {} {
        LiveKeyIsSafe(db, pending, dead, db', last, k);
      }
    }
    ReclaimedRecords(db, pending, dead, db');
  }

  lemma LiveKeyIsSafe(db: Db, pending: Reclaims, dead: set<Slot>, db': Db, last: Slot, k: Pubkey)
    requires IndexOk(db) && CountsOk(db, pending) && CacheOk(db) && Reclaimed(db, pending, dead, db')
    requires Holders(db.storage, k) != {} && IsLive(db.index, Newest(Holders(db.storage, k)), k)
    ensures NewestKept(db.storage, db'.storage, last, k)
  {
    LiveIsNotDead(db, pending, k, Newest(Holders(db.storage, k)));
    ReclaimedRecords(db, pending, dead, db');
    DropKeepsNewest(db.storage, db'.storage, dead, last, k);
  }

  lemma DropKeepsNewest(storage: Storages, storage': Storages, dead: set<Slot>, last: Slot, k: Pubkey)
    requires storage'.Keys == storage.Keys - dead && forall s :: s in storage' ==>
               storage'[s].accounts == storage[s].accounts
    requires Holders(storage, k) != {} && Newest(Holders(storage, k)) !in dead
    ensures NewestKept(storage, storage', last, k)
  {
    HoldersDropped(storage, storage', dead, k);
  }

  lemma TrimIsSafe(db: Db, bound: Slot, run: CleanRun, last: Slot)
    requires Inv(db) && FlushedUpTo(db, bound) && TrimStep(db, bound, run) && InvExcept(run.trimmed, run.outdated)
    ensures SafeStep(db.storage, run.middle.storage, last)
  {
    forall k | Holders(run.trimmed.storage, k) != {}
      ensures IsLive(run.trimmed.index, Newest(Holders(run.trimmed.storage, k)), k)
    {
      NewestSurvivesTrim(db, bound, run.trim, run.trimmed, k);
    }
    ReclaimIsSafe(run.trimmed, run.outdated, run.outDead, run.middle, last, {});
  }

  lemma NewestSurvivesTrim(db: Db, bound: Slot, trim: Gone, trimmed: Db, k: Pubkey)
    requires IndexOk(db) && CacheOk(db) && StoresOk(db) && ShadowsOk(db, map[])
    requires FlushedUpTo(db, bound) && OutdatedOnly(db, bound, trim) && Removed(db, trim, trimmed)
    requires Holders(trimmed.storage, k) != {}
    ensures IsLive(trimmed.index, Newest(Holders(trimmed.storage, k)), k)
  {
    var n := Newest(Holders(db.storage, k));
    NewestRecordIsLive(db, k);
    RemoveLiveness(db, trim, trimmed, k, n);
    if IsGone(db.index, trim, k, n) {
      OutdatedIsSuperseded(db, bound, trim, k, n);
      LiveRecord(db, k, NewestRoot(db.index[k].slots, db.roots, bound));
    }
  }

  /** Nothing is purged from a slot above the last full snapshot. */
  ghost predicate PurgesUpTo(run: CleanRun, last: Slot) {
    forall k, s :: k in run.purge && s in run.purge[k] ==> s <= last
  }

  lemma PurgedKeyIsSafe(bound: Slot, run: CleanRun, db': Db, last: Slot, k: Pubkey)
    requires IndexOk(run.middle) && CacheOk(run.middle) && StoresOk(run.middle) && RefsOk(run.middle, map[])
    requires PurgeStep(bound, run, db') && AllDie(run.purge, run.emptyDead) && PurgesUpTo(run, last) && k in run.purge
    ensures NewestKept(run.purged.storage, db'.storage, last, k)
  {
    PurgedKeysAreGone(bound, run, db', k);
    PurgedEverywhere(run.middle, bound, run.purge, k);
    assert PurgeableKey(run.middle, bound, run.purge, k);
    var n := Newest(run.purge[k]);
    assert IsLive(run.middle.index, n, k) && Located(run.middle, k, n);
    LiveRecord(run.middle, k, n);
  }

  lemma NewestSurvivesPurge(bound: Slot, run: CleanRun, db': Db, k: Pubkey)
    requires IndexOk(run.middle) && CacheOk(run.middle) && ShadowsOk(run.middle, map[])
    requires PurgeStep(bound, run, db') && k !in run.purge && Holders(run.purged.storage, k) != {}
    ensures IsLive(run.purged.index, Newest(Holders(run.purged.storage, k)), k)
  {
    NewestRecordIsLive(run.middle, k);
    RemoveLiveness(run.middle, run.purge, run.purged, k, Newest(Holders(run.middle.storage, k)));
  }

  lemma PurgeIsSafe(bound: Slot, run: CleanRun, db': Db, last: Slot)
    requires Inv(run.middle) && PurgeStep(bound, run, db') && AllDie(run.purge, run.emptyDead) && PurgesUpTo(run, last)
    requires InvExcept(run.purged, run.empty)
    ensures SafeStep(run.middle.storage, db'.storage, last)
  {
    forall k | k in run.purge
      ensures NewestKept(run.purged.storage, db'.storage, last, k)
    {
      PurgedKeyIsSafe(bound, run, db', last, k);
    }
    forall k | k !in run.purge && Holders(run.purged.storage, k) != {}
      ensures IsLive(run.purged.index, Newest(Holders(run.purged.storage, k)), k)
    {
      NewestSurvivesPurge(bound, run, db', k);
    }
    ReclaimIsSafe(run.purged, run.empty, run.emptyDead, db', last, run.purge.Keys);
  }

  /** A clean that purges nothing above the snapshot keeps it good. */
  lemma CleanKeepsCover(db: Db, h: History, cleaned: Slot, bound: Slot, run: CleanRun, db': Db, full: Storages,
                        last: Slot)
    requires Sound(db, h, cleaned) && FlushedUpTo(db, bound) && TrimStep(db, bound, run) && PurgeStep(bound, run, db')
    requires PurgesUpTo(run, last) && Covered(db.storage, full, last)
    ensures Covered(db'.storage, full, last)
  {
    TrimIsSound(db, h, cleaned, bound, run);
    TrimIsSafe(db, bound, run, last);
    SafeStepKeepsCover(db.storage, run.middle.storage, full, last);
    PurgeIsSound(h, Max(cleaned, bound), bound, run, db');
    PurgeIsSafe(bound, run, db', last);
    SafeStepKeepsCover(run.middle.storage, db'.storage, full, last);
  }

  lemma ShrunkHolders(db: Db, slot: Slot, alive: seq<Stored>, dead: set<Pubkey>, zeros: set<Pubkey>, db': Db, k: Pubkey)
    requires Shrunk(db, slot, alive, dead, zeros, db')
    ensures forall s :: s in Holders(db'.storage, k) <==>
              if s == slot then k in KeysOf(alive) else s in Holders(db.storage, k)
  {
  }

  lemma ShrunkKeyIsSafe(db: Db, slot: Slot, alive: seq<Stored>, dead: set<Pubkey>, zeros: set<Pubkey>, db': Db,
                        last: Slot, k: Pubkey)
    requires IndexOk(db) && CacheOk(db) && StoresOk(db) && RefsOk(db, map[]) && ShadowsOk(db, map[])
    requires Shrunk(db, slot, alive, dead, zeros, db') && (zeros != {} ==> slot <= last)
    ensures NewestKept(db.storage, db'.storage, last, k)
  {
    var now := Holders(db.storage, k);
    ShrunkHolders(db, slot, alive, dead, zeros, db', k);
    if now != {} && Newest(now) == slot && k !in KeysOf(alive) {
      NewestRecordIsLive(db, k);
      assert k in zeros && |now| == 1;
      SubsetSameSize({slot}, now);
      LiveRecord(db, k, slot);
      assert Located(db, k, slot);
    }
  }

  lemma ShrinkIsSafe(db: Db, slot: Slot, alive: seq<Stored>, dead: set<Pubkey>, zeros: set<Pubkey>, db': Db, last: Slot)
    requires Inv(db) && Shrunk(db, slot, alive, dead, zeros, db') && (zeros != {} ==> slot <= last)
    ensures SafeStep(db.storage, db'.storage, last)
  {
    forall k
      ensures NewestKept(db.storage, db'.storage, last, k)
    {
      ShrunkKeyIsSafe(db, slot, alive, dead, zeros, db', last, k);
    }
    ShrunkRecords(db, slot, alive, dead, zeros, db');
  }

  lemma ShrunkRecords(db: Db, slot: Slot, alive: seq<Stored>, dead: set<Pubkey>, zeros: set<Pubkey>, db': Db)
    requires Shrunk(db, slot, alive, dead, zeros, db')
    ensures forall s :: s in db'.storage ==> s in db.storage && forall r :: r in db'.storage[s].accounts ==>
              r in db.storage[s].accounts
  {
    forall r | r in alive
      ensures r in db.storage[slot].accounts
    {
      var o :| 0 <= o < |alive| && alive[o] == r;
    }
  }

  lemma FlushStepIsSafe(db: Db, slot: Slot, keep: seq<Stored>, db': Db, last: Slot)
    requires CacheOk(db) && Flushed(db, slot, keep, db') && last < slot
    ensures SafeStep(db.storage, db'.storage, last)
  {
    forall k
      ensures NewestKept(db.storage, db'.storage, last, k)
    {
      FlushHolders(db, slot, keep, db', k);
    }
  }

  lemma {:induction false} FlushKeepsCover(db: Db, h: History, bound: Slot, run: FlushRun, full: Storages, last: Slot,
                                           i: nat)
    requires Inv(db) && RootsOk(db, h.roots) && FlushSteps(db, bound, run) && i <= |run.slots|
    requires FlushedUpTo(db, last) && Covered(db.storage, full, last)
    ensures Covered(run.states[i].storage, full, last)
  {
    if i > 0 {
      FlushKeepsCover(db, h, bound, run, full, last, i - 1);
      FlushKeepsAll(db, h, bound, run, i - 1);
      var a, b := run.states[i - 1], run.states[i];
      assert FlushStep(a, run.slots[i - 1], run.keeps[i - 1], bound, b);
      FlushStepIsSafe(a, run.slots[i - 1], run.keeps[i - 1], b, last);
      SafeStepKeepsCover(a.storage, b.storage, full, last);
    }
  }

  // ---- Whole runs ----

  /** What the database promises while a full snapshot up to `last` is the latest. */
  ghost predicate SnapshotSafe(e: Event, last: Slot) {
    match e
    case Clean(_, run) => PurgesUpTo(run, last)
    case Shrink(slot, _, _, zeros) => zeros != {} ==> slot <= last
    case _ => true
  }

  /** A full snapshot holds all storages up to its slot. */
  function FullSnapshot(storage: Storages, last: Slot): Storages {
    map s | s in storage && s <= last :: storage[s]
  }

  /** The snapshot's slot is a root, and every root up to it has been flushed. */
  ghost predicate SnapshotReady(a: State, last: Slot) {
    last in a.history.roots && FlushedUpTo(a.db, last)
  }

  lemma FreshSnapshotCovers(storage: Storages, last: Slot)
    requires forall s :: s in storage ==> NoDuplicates(storage[s].accounts)
    ensures Covered(storage, FullSnapshot(storage, last), last)
  {
    var full := FullSnapshot(storage, last);
    forall k
      ensures KeyCovered(storage, full, k)
    {
      assert Holders(full, k) <= Holders(storage, k);
    }
  }

  lemma StepKeepsReady(a: State, e: Event, b: State, last: Slot)
    requires SoundState(a) && Step(a, e, b) && SnapshotReady(a, last)
    ensures SnapshotReady(b, last)
  {
    if e.Flush? {
      FlushKeepsAll(a.db, a.history, e.bound, e.flush, |e.flush.slots|);
    }
  }

  lemma StepKeepsCover(a: State, e: Event, b: State, full: Storages, last: Slot)
    requires SoundState(a) && Step(a, e, b) && SnapshotReady(a, last) && SnapshotSafe(e, last)
    requires Covered(a.db.storage, full, last)
    ensures Covered(b.db.storage, full, last)
  {
    match e
    case Write(_, _, _) =>
    case Root(_) =>
    case Flush(bound, run) => FlushKeepsCover(a.db, a.history, bound, run, full, last, |run.slots|);
    case Clean(bound, run) => CleanKeepsCover(a.db, a.history, a.cleaned, bound, run, b.db, full, last);
    case Shrink(slot, alive, dead, zeros) =>
      ShrinkIsSafe(a.db, slot, alive, dead, zeros, b.db, last);
      SafeStepKeepsCover(a.db.storage, b.db.storage, full, last);
  }

  lemma {:induction false} RunKeepsCover(states: seq<State>, events: seq<Event>, i: nat, last: Slot, j: nat)
    requires IsRun(states, events) && i <= j < |states| && SnapshotReady(states[i], last)
    requires forall n :: i <= n < j ==> SnapshotSafe(events[n], last)
    ensures Covered(states[j].db.storage, FullSnapshot(states[i].db.storage, last), last)
            && SnapshotReady(states[j], last)
  {
    if i == j {
      RunIsSound(states, events, i);
      FreshSnapshotCovers(states[i].db.storage, last);
    } else {
      RunKeepsCover(states, events, i, last, j - 1);
      RunIsSound(states, events, j - 1);
      StepKeepsReady(states[j - 1], events[j - 1], states[j], last);
      StepKeepsCover(states[j - 1], events[j - 1], states[j], FullSnapshot(states[i].db.storage, last), last);
    }
  }

  /**
   * A node restarted from a full snapshot and the storages that are newer than it finds for every
   * key what the running node has. In particular no purged account comes back from the snapshot.
   */
  lemma SnapshotRestartChangesNothing(states: seq<State>, events: seq<Event>, i: nat, last: Slot, j: nat, k: Pubkey)
    requires IsRun(states, events) && i <= j < |states| && SnapshotReady(states[i], last)
    requires forall n :: i <= n < j ==> SnapshotSafe(events[n], last)
    ensures var storage := states[j].db.storage;
            Reload(FullSnapshot(states[i].db.storage, last) + NewerThan(storage, last), k) == Reload(storage, k)
  {
    RunKeepsCover(states, events, i, last, j);
    ReloadCovered(states[j].db.storage, FullSnapshot(states[i].db.storage, last), last, k);
  }
}
