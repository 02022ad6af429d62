/**
 * Cleaning: outdated rooted versions leave the index, then keys whose newest version has no
 * lamports leave it altogether when every storage that holds them goes with them.
 */
module Cleaning {
  import opened Types
  import opened Database
  import opened DeleteDependencies
  import opened Reclaiming
  import opened Removing

  // ---- Outdated versions ----

  /** The rooted slots of a slot list, up to the clean bound. */
  function RootedSlots(slots: map<Slot, AccountInfo>, roots: set<Slot>, bound: Slot): set<Slot> {
    set s | s in slots && s in roots && s <= bound
  }

  ghost function NewestRoot(slots: map<Slot, AccountInfo>, roots: set<Slot>, bound: Slot): Slot {
    var rooted := RootedSlots(slots, roots, bound);
    if rooted == {} then 0 else Newest(rooted)
  }

  /** The stored versions below the bound other than the newest rooted one. */
  ghost function Outdated(slots: map<Slot, AccountInfo>, roots: set<Slot>, bound: Slot): set<Slot> {
    set s | s in slots && slots[s].location != Cached && s < bound && s != NewestRoot(slots, roots, bound)
  }

  ghost predicate OutdatedOnly(db: Db, bound: Slot, gone: Gone) {
    forall k :: k in gone ==> k in db.index && gone[k] == Outdated(db.index[k].slots, db.roots, bound)
  }

  /** No root up to the bound is still in the write cache. */
  ghost predicate FlushedUpTo(db: Db, bound: Slot) {
    forall s :: s in db.cache && s in db.roots ==> bound < s
  }

  /** What is outdated is older than a stored root that stays. */
  lemma OutdatedIsSuperseded(db: Db, bound: Slot, gone: Gone, k: Pubkey, s: Slot)
    requires IndexOk(db) && StoresOk(db) && FlushedUpTo(db, bound) && OutdatedOnly(db, bound, gone)
    requires IsGone(db.index, gone, k, s)
    ensures var n := NewestRoot(db.index[k].slots, db.roots, bound);
            && s < n <= bound && n in db.storage && n in db.roots
            && IsLive(db.index, n, k) && !IsGone(db.index, gone, k, n)
  {
    assert Located(db, k, s);
    var rooted := RootedSlots(db.index[k].slots, db.roots, bound);
    assert s in rooted;
    var n := Newest(rooted);
    assert IsLive(db.index, n, k);
    assert Located(db, k, n);
  }

  lemma TrimKeepsInv(db: Db, bound: Slot, gone: Gone, db': Db, pending: Reclaims)
    requires Inv(db) && FlushedUpTo(db, bound) && OutdatedOnly(db, bound, gone)
    requires Removed(db, gone, db') && AllStored(db.index, gone) && Collects(db.index, gone, pending)
    ensures InvExcept(db', pending)
  {
    RemoveKeepsMost(db, gone, db', pending);
    TrimKeepsRefs(db, bound, gone, db', pending);
    TrimKeepsShadows(db, bound, gone, db', pending);
  }

  lemma TrimKeepsRefs(db: Db, bound: Slot, gone: Gone, db': Db, pending: Reclaims)
    requires IndexOk(db) && StoresOk(db) && RefsOk(db, map[])
    requires FlushedUpTo(db, bound) && OutdatedOnly(db, bound, gone) && Removed(db, gone, db')
    ensures RefsOk(db', pending)
  {
    forall k
      ensures k in db'.index <==> k in db.index
      ensures k in db'.index ==> db'.index[k].refCount == db.index[k].refCount
    {
      assert RemovedKey(db.index, gone, db'.index, k);
      if k in db.index {
        var s :| s in db.index[k].slots;
        RemoveLiveness(db, gone, db', k, s);
        if IsGone(db.index, gone, k, s) {
          OutdatedIsSuperseded(db, bound, gone, k, s);
          RemoveLiveness(db, gone, db', k, NewestRoot(db.index[k].slots, db.roots, bound));
        }
      }
    }
  }

  lemma TrimKeepsShadows(db: Db, bound: Slot, gone: Gone, db': Db, pending: Reclaims)
    requires IndexOk(db) && StoresOk(db) && ShadowsOk(db, map[])
    requires FlushedUpTo(db, bound) && OutdatedOnly(db, bound, gone) && Removed(db, gone, db')
    ensures ShadowsOk(db', pending)
  {
    forall s, k | s in db'.storage && k in KeysOf(db'.storage[s].accounts)
      ensures IsLive(db'.index, s, k) || LiveStoredAbove(db', s, k)
    {
      var t :| s <= t && t in db.storage && IsLive(db.index, t, k);
      RemoveLiveness(db, gone, db', k, t);
      if IsGone(db.index, gone, k, t) {
        OutdatedIsSuperseded(db, bound, gone, k, t);
        var n := NewestRoot(db.index[k].slots, db.roots, bound);
        RemoveLiveness(db, gone, db', k, n);
        assert s < n && n in db'.storage && IsLive(db'.index, n, k);
      } else if s < t {
        assert t in db'.storage && IsLive(db'.index, t, k);
      }
    }
  }

  lemma TrimKeepsLoads(db: Db, bound: Slot, gone: Gone, db': Db, k: Pubkey, view: View)
    requires Inv(db) && IndexOk(db') && FlushedUpTo(db, bound) && OutdatedOnly(db, bound, gone)
    requires Removed(db, gone, db') && bound <= view.maxRoot
    ensures Load(db', k, view) == Load(db, k, view)
  {
    var visible := VisibleSlots(db, k, view);
    forall s | s in visible && IsGone(db.index, gone, k, s)
      ensures s < Newest(visible)
    {
      OutdatedIsSuperseded(db, bound, gone, k, s);
      assert NewestRoot(db.index[k].slots, db.roots, bound) in visible;
    }
    RemoveKeepsLoads(db, gone, db', k, view);
  }

  // ---- Keys without lamports ----

  /** Every live account of the slot leaves the index. */
  ghost predicate AllGoneAt(index: Index, gone: Gone, s: Slot) {
    forall k :: IsLive(index, s, k) ==> IsGone(index, gone, k, s)
  }

  /**
   * A key may be purged from its rooted slots when they are all the storages that hold it,
   * its newest version there has no lamports, and every other account of those slots goes too.
   */
  ghost predicate PurgeableKey(db: Db, bound: Slot, gone: Gone, k: Pubkey)
    requires k in gone
  {
    && k in db.index && gone[k] != {}
    && gone[k] == RootedSlots(db.index[k].slots, db.roots, bound)
    && gone[k] <= db.storage.Keys
    && |gone[k]| == db.index[k].refCount
    && Newest(gone[k]) in db.index[k].slots && db.index[k].slots[Newest(gone[k])].zeroLamport
    && forall s :: s in gone[k] ==> AllGoneAt(db.index, gone, s)
  }

  ghost predicate Purgeable(db: Db, bound: Slot, gone: Gone) {
    forall k :: k in gone ==> PurgeableKey(db, bound, gone, k)
  }

  lemma PurgedEverywhere(db: Db, bound: Slot, gone: Gone, k: Pubkey)
    requires IndexOk(db) && CacheOk(db) && RefsOk(db, map[]) && Purgeable(db, bound, gone) && k in gone
    ensures Holders(db.storage, k) == gone[k]
  {
    assert PurgeableKey(db, bound, gone, k);
    forall s | s in gone[k]
      ensures s in Holders(db.storage, k)
    {
      assert IsLive(db.index, s, k);
      assert Located(db, k, s);
    }
    SubsetSameSize(gone[k], Holders(db.storage, k));
  }

  lemma PurgedAreStored(db: Db, bound: Slot, gone: Gone)
    requires IndexOk(db) && CacheOk(db) && Purgeable(db, bound, gone)
    ensures AllStored(db.index, gone)
  {
    forall k, s | IsGone(db.index, gone, k, s)
      ensures db.index[k].slots[s].location.AppendVec?
    {
      assert PurgeableKey(db, bound, gone, k);
      assert Located(db, k, s);
    }
  }

  lemma NoneLiveLeft(db: Db, gone: Gone, db': Db, s: Slot)
    requires Removed(db, gone, db') && s in db.storage && AllGoneAt(db.index, gone, s)
    ensures LiveOffsets(db'.index, s, db.storage[s].accounts) == {}
  {
    forall k
      ensures !IsLive(db'.index, s, k)
    {
      RemoveLiveness(db, gone, db', k, s);
    }
  }

  /** A slot from which a key is purged dies. */
  lemma PurgedSlotDies(db: Db, bound: Slot, gone: Gone, db': Db, pending: Reclaims, k: Pubkey, s: Slot)
    requires CountsOk(db', pending) && Purgeable(db, bound, gone)
    requires Removed(db, gone, db') && AllStored(db.index, gone) && Collects(db.index, gone, pending)
    requires k in gone && s in gone[k]
    ensures s in DeadSlots(db', pending)
  {
    assert PurgeableKey(db, bound, gone, k);
    assert IsGone(db.index, gone, k, s);
    NoneLiveLeft(db, gone, db', s);
    DeadWhenNoneLive(db', pending, s);
  }

  /** Every slot from which something is purged is in `dead`. */
  ghost predicate AllDie(gone: Gone, dead: set<Slot>) {
    forall k, s :: k in gone && s in gone[k] ==> s in dead
  }

  lemma PurgeKeepsInv(db: Db, bound: Slot, gone: Gone, db': Db, pending: Reclaims)
    requires Inv(db) && Purgeable(db, bound, gone)
    requires Removed(db, gone, db') && AllStored(db.index, gone) && Collects(db.index, gone, pending)
    ensures InvExcept(db', pending)
    ensures AllDie(gone, DeadSlots(db', pending))
  {
    RemoveKeepsMost(db, gone, db', pending);
    forall k, s | k in gone && s in gone[k]
      ensures s in DeadSlots(db', pending)
    {
      PurgedSlotDies(db, bound, gone, db', pending, k, s);
    }
    PurgeKeepsRefs(db, bound, gone, db', pending);
    PurgeKeepsShadows(db, bound, gone, db', pending);
  }

  lemma PurgeKeepsRef(db: Db, bound: Slot, gone: Gone, db': Db, dead: set<Slot>, k: Pubkey)
    requires IndexOk(db) && CacheOk(db) && RefsOk(db, map[]) && Purgeable(db, bound, gone)
    requires Removed(db, gone, db') && AllDie(gone, dead)
    ensures k in db'.index ==> db'.index[k].refCount == |Holders(db'.storage, k)|
    ensures k !in db'.index ==> Holders(db'.storage, k) <= dead
  {
    assert RemovedKey(db.index, gone, db'.index, k);
    if k in gone {
      PurgedEverywhere(db, bound, gone, k);
    } else if k in db.index {
      assert db.index[k].slots - {} == db.index[k].slots;
    }
  }

  lemma PurgeKeepsRefs(db: Db, bound: Slot, gone: Gone, db': Db, pending: Reclaims)
    requires IndexOk(db) && CacheOk(db) && RefsOk(db, map[]) && Purgeable(db, bound, gone)
    requires Removed(db, gone, db') && AllDie(gone, DeadSlots(db', pending))
    ensures RefsOk(db', pending)
  {
    forall k
      ensures k in db'.index ==> db'.index[k].refCount == |Holders(db'.storage, k)|
      ensures k !in db'.index ==> Holders(db'.storage, k) <= DeadSlots(db', pending)
    {
      PurgeKeepsRef(db, bound, gone, db', DeadSlots(db', pending), k);
    }
  }

  lemma PurgeKeepsShadows(db: Db, bound: Slot, gone: Gone, db': Db, pending: Reclaims)
    requires IndexOk(db) && CacheOk(db) && RefsOk(db, map[]) && ShadowsOk(db, map[]) && Purgeable(db, bound, gone)
    requires Removed(db, gone, db') && AllDie(gone, DeadSlots(db', pending))
    ensures ShadowsOk(db', pending)
  {
    forall s, k | s in db'.storage && s !in DeadSlots(db', pending) && k in KeysOf(db'.storage[s].accounts)
      ensures IsLive(db'.index, s, k) || LiveStoredAbove(db', s, k)
    {
      assert s in Holders(db.storage, k);
      if k in gone {
        PurgedEverywhere(db, bound, gone, k);
      }
      var t :| s <= t && t in db.storage && IsLive(db.index, t, k);
      RemoveLiveness(db, gone, db', k, t);
      if s < t {
        assert t in db'.storage && IsLive(db'.index, t, k);
      }
    }
  }

  /** What a current reader sees of a purged key is purged, up to its newest purged version. */
  lemma PurgedIsVisible(db: Db, bound: Slot, gone: Gone, everRooted: set<Slot>, k: Pubkey, view: View)
    requires StoresOk(db) && k in gone && PurgeableKey(db, bound, gone, k)
    requires RootsOk(db, everRooted) && Current(everRooted, bound, view)
    ensures Newest(gone[k]) in VisibleSlots(db, k, view)
    ensures forall s :: s in VisibleSlots(db, k, view) && s <= Newest(gone[k]) ==> IsGone(db.index, gone, k, s)
  {
    forall s | s in VisibleSlots(db, k, view) && s <= Newest(gone[k])
      ensures IsGone(db.index, gone, k, s)
    {
      assert IsLive(db.index, s, k);
    }
  }

  /** A current reader already found nothing under a purged key, unless it sees a version that stays. */
  lemma PurgedLoadsNothing(db: Db, bound: Slot, gone: Gone, everRooted: set<Slot>, k: Pubkey, view: View)
    requires IndexOk(db) && StoresOk(db) && CacheOk(db) && k in gone && PurgeableKey(db, bound, gone, k)
    requires RootsOk(db, everRooted) && Current(everRooted, bound, view)
    ensures var visible := VisibleSlots(db, k, view);
            && visible != {}
            && (!IsGone(db.index, gone, k, Newest(visible))
                || (Load(db, k, view) == None && forall s :: s in visible ==> IsGone(db.index, gone, k, s)))
  {
    PurgedIsVisible(db, bound, gone, everRooted, k, view);
    var n := Newest(gone[k]);
    assert IsLive(db.index, n, k) && Located(db, k, n);
  }

  /** Purging a key changes no load of a current reader. */
  lemma PurgeKeepsLoads(db: Db, bound: Slot, gone: Gone, db': Db, everRooted: set<Slot>, k: Pubkey, view: View)
    requires IndexOk(db) && StoresOk(db) && CacheOk(db) && IndexOk(db') && Purgeable(db, bound, gone)
             && Removed(db, gone, db')
    requires RootsOk(db, everRooted) && Current(everRooted, bound, view)
    ensures Load(db', k, view) == Load(db, k, view)
  {
    if k in gone {
      PurgedLoadsNothing(db, bound, gone, everRooted, k, view);
    }
    RemoveKeepsLoads(db, gone, db', k, view);
  }

  // ---- From candidates to purgeable keys ----

  /** A candidate after outdated versions are gone: one rooted slot is left, and it has no lamports. */
  ghost predicate GatheredKey(db: Db, bound: Slot, info: CleaningInfo, k: Pubkey) {
    && k in db.index && info.refCount == db.index[k].refCount
    && info.slotList.Keys == RootedSlots(db.index[k].slots, db.roots, bound)
    && exists n :: info.slotList.Keys == {n} && IsLive(db.index, n, k) && db.index[k].slots[n].zeroLamport
                   && info.slotList[n].zeroLamport
  }

  ghost predicate Gathered(db: Db, bound: Slot, infos: Candidates) {
    forall k :: k in infos ==> GatheredKey(db, bound, infos[k], k)
  }

  /** The counts are what would be left alive in each slot if every candidate went. */
  ghost predicate Tallied(db: Db, infos: Candidates, counts: StoreCounts) {
    && Consistent(infos, counts)
    && (forall s :: s in counts ==> s in db.storage && counts[s].count + |counts[s].pubkeys| == db.storage[s].count)
  }

  /**
   * A key is purged when all its slots are left with a zero count. While a newer full snapshot
   * is awaited, a key whose newest slot is above the last one is withheld.
   */
  ghost predicate Passes(info: CleaningInfo, left: StoreCounts, lastFull: Option<Slot>) {
    && (forall s :: s in info.slotList ==> s in left && left[s].count == 0)
    && (lastFull.Some? ==> forall s :: s in info.slotList ==> s <= lastFull.value)
  }

  ghost predicate Filtered(infos: Candidates, left: StoreCounts, lastFull: Option<Slot>, gone: Gone) {
    && (forall k :: k in gone <==> k in infos && Passes(infos[k], left, lastFull))
    && (forall k :: k in gone ==> gone[k] == infos[k].slotList.Keys)
  }

  function KeysAt(index: Index, s: Slot): set<Pubkey> {
    set k | k in index && s in index[k].slots
  }

  function KeysIn(accounts: seq<Stored>, offsets: set<Offset>): set<Pubkey>
    requires forall o :: o in offsets ==> o < |accounts|
  {
    set o | o in offsets :: accounts[o].pubkey
  }

  lemma {:induction false} KeysInSize(accounts: seq<Stored>, offsets: set<Offset>)
    requires NoDuplicates(accounts) && forall o :: o in offsets ==> o < |accounts|
    ensures |KeysIn(accounts, offsets)| == |offsets|
  {
    if offsets != {} {
      var x :| x in offsets;
      KeysInSize(accounts, offsets - {x});
      assert KeysIn(accounts, offsets) == KeysIn(accounts, offsets - {x}) + {accounts[x].pubkey};
      assert accounts[x].pubkey !in KeysIn(accounts, offsets - {x});
    }
  }

  lemma KeysAtAreLive(db: Db, s: Slot)
    requires IndexOk(db) && db.cache.Keys !! db.storage.Keys && s in db.storage
    ensures var accounts := db.storage[s].accounts;
            KeysAt(db.index, s) == KeysIn(accounts, LiveOffsets(db.index, s, accounts))
  {
    var accounts := db.storage[s].accounts;
    var live := LiveOffsets(db.index, s, accounts);
    forall k | k in KeysAt(db.index, s)
      ensures k in KeysIn(accounts, live)
    {
      assert IsLive(db.index, s, k) && Located(db, k, s);
      assert db.index[k].slots[s].location.offset in live;
    }
  }

  /** A storage's count is the number of keys the index has at its slot. */
  lemma LiveKeys(db: Db, s: Slot)
    requires IndexOk(db) && db.cache.Keys !! db.storage.Keys && s in db.storage
    requires NoDuplicates(db.storage[s].accounts) && CountOk(db.index, s, db.storage[s], {})
    ensures |KeysAt(db.index, s)| == db.storage[s].count
  {
    var accounts := db.storage[s].accounts;
    var live := LiveOffsets(db.index, s, accounts);
    KeysAtAreLive(db, s);
    KeysInSize(accounts, live);
    assert live + {} == live;
  }

  /** A slot left with a zero count holds candidates only. */
  lemma ZeroCountIsAllCandidates(db: Db, bound: Slot, infos: Candidates, counts: StoreCounts, s: Slot)
    requires Gathered(db, bound, infos) && Tallied(db, infos, counts)
    requires s in counts && counts[s].count == 0 && |KeysAt(db.index, s)| == db.storage[s].count
    ensures KeysAt(db.index, s) == counts[s].pubkeys
  {
    forall k | k in counts[s].pubkeys
      ensures k in KeysAt(db.index, s)
    {
      assert GatheredKey(db, bound, infos[k], k);
    }
    SubsetSameSize(counts[s].pubkeys, KeysAt(db.index, s));
  }

  lemma FilteredKeyIsPurgeable(db: Db, bound: Slot, infos: Candidates, counts: StoreCounts, left: StoreCounts,
                               lastFull: Option<Slot>, gone: Gone, n: Slot, k: Pubkey)
    requires Filtered(infos, left, lastFull, gone) && k in gone && GatheredKey(db, bound, infos[k], k)
    requires infos[k].slotList.Keys == {n} && IsLive(db.index, n, k) && db.index[k].slots[n].zeroLamport
    requires n in db.storage && Removable(infos[k], counts) && AllGoneAt(db.index, gone, n)
    ensures PurgeableKey(db, bound, gone, k)
  {
    assert gone[k] == {n} && Newest(gone[k]) == n;
    assert |infos[k].slotList| == |infos[k].slotList.Keys|;
  }

  /** The keys that survive the dependency calculation and the filter may be purged. */
  lemma FilteredArePurgeable(db: Db, bound: Slot, infos: Candidates, counts: StoreCounts, left: StoreCounts,
                             lastFull: Option<Slot>, gone: Gone)
    requires Inv(db) && FlushedUpTo(db, bound)
    requires Gathered(db, bound, infos) && Tallied(db, infos, counts)
    requires Deletable(infos, counts, left.Keys) && forall s :: s in left ==> left[s] == counts[s]
    requires Filtered(infos, left, lastFull, gone)
    ensures Purgeable(db, bound, gone)
  {
    forall k | k in gone
      ensures PurgeableKey(db, bound, gone, k)
    {
      assert GatheredKey(db, bound, infos[k], k) && Passes(infos[k], left, lastFull);
      var n :| infos[k].slotList.Keys == {n} && IsLive(db.index, n, k) && db.index[k].slots[n].zeroLamport;
      assert n in infos[k].slotList && n in left;
      assert n in db.storage by {
        assert Located(db, k, n);
        assert n in RootedSlots(db.index[k].slots, db.roots, bound);
      }
      assert KeysAt(db.index, n) == counts[n].pubkeys by {
        assert CountOk(db.index, n, db.storage[n], {});
        LiveKeys(db, n);
        ZeroCountIsAllCandidates(db, bound, infos, counts, n);
      }
      NeighboursPass(db, bound, infos, counts, left, lastFull, gone, n, k);
      FilteredKeyIsPurgeable(db, bound, infos, counts, left, lastFull, gone, n, k);
    }
  }

  lemma NeighboursPass(db: Db, bound: Slot, infos: Candidates, counts: StoreCounts, left: StoreCounts,
                       lastFull: Option<Slot>, gone: Gone, n: Slot, k: Pubkey)
    requires Gathered(db, bound, infos) && Consistent(infos, counts) && Filtered(infos, left, lastFull, gone)
    requires k in gone && gone[k] == {n} && n in counts && KeysAt(db.index, n) == counts[n].pubkeys
    ensures AllGoneAt(db.index, gone, n)
  {
    assert n in infos[k].slotList && Passes(infos[k], left, lastFull);
    forall k' | IsLive(db.index, n, k')
      ensures IsGone(db.index, gone, k', n)
    {
      assert k' in KeysAt(db.index, n) && GatheredKey(db, bound, infos[k'], k');
      NeighbourPasses(infos[k], infos[k'], left, lastFull, n);
    }
  }

  /** What passes depends on the slot only. */
  lemma NeighbourPasses(info: CleaningInfo, other: CleaningInfo, left: StoreCounts, lastFull: Option<Slot>, n: Slot)
    requires Passes(info, left, lastFull) && n in info.slotList && n in other.slotList
    requires exists m :: other.slotList.Keys == {m}
    ensures other.slotList.Keys == {n} && Passes(other, left, lastFull)
  {
  }

  // ---- From the index scan to candidates ----

  /** What the scan notes of a key whose newest rooted version has no lamports. */
  ghost predicate ScannedKey(db: Db, bound: Slot, info: CleaningInfo, k: Pubkey) {
    && k in db.index && info.refCount == db.index[k].refCount
    && info.slotList.Keys == RootedSlots(db.index[k].slots, db.roots, bound) != {}
    && (forall s :: s in info.slotList ==> info.slotList[s] == db.index[k].slots[s])
    && db.index[k].slots[NewestRoot(db.index[k].slots, db.roots, bound)].zeroLamport
  }

  /** The slots dropped so far, by the keys their storages held. */
  ghost predicate PurgedSlots(db: Db, dead: set<Slot>, purged: Gone) {
    forall k :: GoneOf(purged, k) == Holders(db.storage, k) * dead
  }

  /** A slot list without what the first part of the clean took away, and a fresh reference count. */
  ghost predicate AdjustedKey(db: Db, info: CleaningInfo, pending: Reclaims, purged: Gone, k: Pubkey,
                              info': CleaningInfo) {
    && info'.slotList.Keys <= info.slotList.Keys
    && (forall s :: s in info'.slotList ==> info'.slotList[s] == info.slotList[s])
    && (forall s :: s in info.slotList ==>
          (s in info'.slotList <==> s !in GoneOf(purged, k)
                                    && !(info.slotList[s].location.AppendVec?
                                         && info.slotList[s].location.offset in At(pending, s))))
    && info'.refCount == if k !in purged then info.refCount else if k in db.index then db.index[k].refCount else 0
  }

  lemma RootedAreStored(db: Db, bound: Slot, k: Pubkey, s: Slot)
    requires IndexOk(db) && FlushedUpTo(db, bound)
    requires k in db.index && s in RootedSlots(db.index[k].slots, db.roots, bound)
    ensures s in db.storage && db.index[k].slots[s].location.AppendVec?
  {
    assert IsLive(db.index, s, k) && Located(db, k, s);
  }

  /** The newest rooted version is not among the reclaimed records. */
  lemma NewestNotReclaimed(db: Db, bound: Slot, gone: Gone, pending: Reclaims, k: Pubkey, n: Slot)
    requires IndexOk(db) && StoresOk(db) && AllStored(db.index, gone) && Collects(db.index, gone, pending)
    requires IsLive(db.index, n, k) && db.index[k].slots[n].location.AppendVec? && !IsGone(db.index, gone, k, n)
    ensures db.index[k].slots[n].location.offset !in At(pending, n)
  {
    var o := db.index[k].slots[n].location.offset;
    assert Located(db, k, n);
    forall k' | IsGone(db.index, gone, k', n)
      ensures db.index[k'].slots[n].location.offset != o
    {
      assert Located(db, k', n);
    }
  }

  lemma NewestStays(db: Db, bound: Slot, gone: Gone, db1: Db, pending: Reclaims, k: Pubkey)
    requires IndexOk(db) && FlushedUpTo(db, bound) && OutdatedOnly(db, bound, gone) && Removed(db, gone, db1)
    requires IndexOk(db1) && CacheOk(db1) && CountsOk(db1, pending)
    requires k in gone && RootedSlots(db.index[k].slots, db.roots, bound) != {}
    ensures var n := NewestRoot(db.index[k].slots, db.roots, bound);
            && IsLive(db.index, n, k) && db.index[k].slots[n].location.AppendVec? && !IsGone(db.index, gone, k, n)
            && IsLive(db1.index, n, k) && n !in DeadSlots(db1, pending)
  {
    var n := NewestRoot(db.index[k].slots, db.roots, bound);
    RootedAreStored(db, bound, k, n);
    RemoveLiveness(db, gone, db1, k, n);
    LiveIsNotDead(db1, pending, k, n);
  }

  lemma OldAreReclaimed(db: Db, bound: Slot, gone: Gone, pending: Reclaims, k: Pubkey, s: Slot)
    requires IndexOk(db) && FlushedUpTo(db, bound) && OutdatedOnly(db, bound, gone)
    requires AllStored(db.index, gone) && Collects(db.index, gone, pending) && k in gone
    requires s in RootedSlots(db.index[k].slots, db.roots, bound) && s != NewestRoot(db.index[k].slots, db.roots, bound)
    ensures db.index[k].slots[s].location.AppendVec? && db.index[k].slots[s].location.offset in At(pending, s)
  {
    RootedAreStored(db, bound, k, s);
    assert IsGone(db.index, gone, k, s);
  }

  /** Exactly the newest rooted slot is left of a candidate's slot list. */
  lemma AdjustedIsNewest(db: Db, bound: Slot, gone: Gone, db1: Db, pending: Reclaims, db2: Db,
                         purged: Gone, info: CleaningInfo, k: Pubkey, info': CleaningInfo)
    requires IndexOk(db) && StoresOk(db) && FlushedUpTo(db, bound) && OutdatedOnly(db, bound, gone)
    requires AllStored(db.index, gone) && Collects(db.index, gone, pending)
    requires PurgedSlots(db1, DeadSlots(db1, pending), purged)
    requires ScannedKey(db, bound, info, k) && k in gone && AdjustedKey(db2, info, pending, purged, k, info')
    requires var n := NewestRoot(db.index[k].slots, db.roots, bound);
             && db.index[k].slots[n].location.AppendVec? && !IsGone(db.index, gone, k, n)
             && n !in DeadSlots(db1, pending)
    ensures info'.slotList.Keys == {NewestRoot(db.index[k].slots, db.roots, bound)}
  {
    var n := NewestRoot(db.index[k].slots, db.roots, bound);
    assert GoneOf(purged, k) == Holders(db1.storage, k) * DeadSlots(db1, pending);
    NewestNotReclaimed(db, bound, gone, pending, k, n);
    forall s | s in info.slotList && s != n
      ensures s !in info'.slotList
    {
      OldAreReclaimed(db, bound, gone, pending, k, s);
    }
  }

  /** Without what is outdated and what is dropped, a slot list has one rooted slot. */
  lemma OneRootLeft(slots: map<Slot, AccountInfo>, roots: set<Slot>, bound: Slot, dead: set<Slot>)
    requires RootedSlots(slots, roots, bound) != {} && NewestRoot(slots, roots, bound) !in dead
    requires forall s :: s in RootedSlots(slots, roots, bound) ==> slots[s].location != Cached
    ensures RootedSlots(slots - Outdated(slots, roots, bound), roots - dead, bound) == {NewestRoot(slots, roots, bound)}
  {
    var n := NewestRoot(slots, roots, bound);
    forall s | s in RootedSlots(slots - Outdated(slots, roots, bound), roots - dead, bound)
      ensures s == n
    {
      assert s in RootedSlots(slots, roots, bound);
    }
  }

  lemma RootedAfterTrim(db: Db, bound: Slot, gone: Gone, db1: Db, pending: Reclaims, dead: set<Slot>, db2: Db,
                        k: Pubkey)
    requires IndexOk(db) && FlushedUpTo(db, bound) && OutdatedOnly(db, bound, gone)
    requires Removed(db, gone, db1) && Reclaimed(db1, pending, dead, db2)
    requires k in gone && RootedSlots(db.index[k].slots, db.roots, bound) != {}
    requires var n := NewestRoot(db.index[k].slots, db.roots, bound); n !in dead && IsLive(db1.index, n, k)
    ensures RootedSlots(db2.index[k].slots, db2.roots, bound) == {NewestRoot(db.index[k].slots, db.roots, bound)}
  {
    forall s | s in RootedSlots(db.index[k].slots, db.roots, bound)
      ensures db.index[k].slots[s].location != Cached
    {
      RootedAreStored(db, bound, k, s);
    }
    OneRootLeft(db.index[k].slots, db.roots, bound, dead);
    assert RemovedKey(db.index, gone, db1.index, k);
  }

  lemma RefsAfterTrim(db: Db, gone: Gone, db1: Db, pending: Reclaims, dead: set<Slot>, db2: Db, purged: Gone, k: Pubkey)
    requires Removed(db, gone, db1) && Reclaimed(db1, pending, dead, db2) && PurgedSlots(db1, dead, purged)
    requires k in db.index && k in db1.index && k !in purged
    ensures db2.index[k].refCount == db.index[k].refCount
  {
    assert RemovedKey(db.index, gone, db1.index, k);
    assert GoneOf(purged, k) == Holders(db1.storage, k) * dead;
  }

  /** The candidates that enter the dependency calculation are as it expects them. */
  lemma AdjustedIsGathered(db: Db, bound: Slot, gone: Gone, db1: Db, pending: Reclaims, dead: set<Slot>, db2: Db,
                           purged: Gone, info: CleaningInfo, k: Pubkey, info': CleaningInfo)
    requires Inv(db) && FlushedUpTo(db, bound) && OutdatedOnly(db, bound, gone)
    requires Removed(db, gone, db1) && AllStored(db.index, gone) && Collects(db.index, gone, pending)
    requires InvExcept(db1, pending) && Reclaimed(db1, pending, dead, db2) && PurgedSlots(db1, dead, purged)
    requires ScannedKey(db, bound, info, k) && k in gone && AdjustedKey(db2, info, pending, purged, k, info')
    ensures GatheredKey(db2, bound, info', k)
  {
    var n := NewestRoot(db.index[k].slots, db.roots, bound);
    NewestStays(db, bound, gone, db1, pending, k);
    AdjustedIsNewest(db, bound, gone, db1, pending, db2, purged, info, k, info');
    RootedAfterTrim(db, bound, gone, db1, pending, dead, db2, k);
    RemoveLiveness(db, gone, db1, k, n);
    if k !in purged {
      RefsAfterTrim(db, gone, db1, pending, dead, db2, purged, k);
    }
    assert IsLive(db2.index, n, k) && db2.index[k].slots[n].zeroLamport;
  }
}
