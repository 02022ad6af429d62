/**
 * Taking reclaimed accounts off their storages: counts go down, and a storage whose last
 * live account goes is dropped together with its root and its references.
 */
module Reclaiming {
  import opened Types
  import opened Database

  /** `store'` is `store` with the given offsets taken off its counts. */
  ghost predicate Reduced(store: Store, offsets: set<Offset>, store': Store) {
    && store'.id == store.id && store'.accounts == store.accounts
    && store'.count + |offsets| == store.count
    && store'.aliveBytes + Bytes(store.accounts, offsets) == store.aliveBytes
  }

  /** Every reference a dropped storage held is gone. */
  ghost predicate Unreferenced(index: Index, storage: map<Slot, Store>, dead: set<Slot>, index': Index) {
    && index'.Keys == index.Keys
    && (forall k :: k in index ==>
          index'[k].slots == index[k].slots && index'[k].refCount + |Holders(storage, k) * dead| == index[k].refCount)
  }

  ghost predicate Reclaimed(db: Db, pending: Reclaims, dead: set<Slot>, db': Db) {
    && dead == DeadSlots(db, pending)
    && db'.cache == db.cache && db'.unflushed == db.unflushed && db'.nextId == db.nextId
    && db'.roots == db.roots - dead
    && db'.storage.Keys == db.storage.Keys - dead
    && (forall s :: s in db'.storage ==> Reduced(db.storage[s], At(pending, s), db'.storage[s]))
    && Unreferenced(db.index, db.storage, dead, db'.index)
  }

  /** A storage dies exactly when its last live account is reclaimed. */
  lemma DeadWhenNoneLive(db: Db, pending: Reclaims, s: Slot)
    requires CountsOk(db, pending) && s in pending && s in db.storage
    ensures s in DeadSlots(db, pending) <==> LiveOffsets(db.index, s, db.storage[s].accounts) == {}
  {
    var live := LiveOffsets(db.index, s, db.storage[s].accounts);
    assert CountOk(db.index, s, db.storage[s], At(pending, s));
    assert |live + pending[s]| == |live| + |pending[s]|;
  }

  lemma LiveIsNotDead(db: Db, pending: Reclaims, k: Pubkey, s: Slot)
    requires IndexOk(db) && CountsOk(db, pending) && CacheOk(db)
    requires IsLive(db.index, s, k)
    ensures s !in DeadSlots(db, pending)
  {
    if s in pending && s in db.storage {
      assert Located(db, k, s);
      match db.index[k].slots[s].location
      case AppendVec(_, o) =>
        assert o in LiveOffsets(db.index, s, db.storage[s].accounts);
        DeadWhenNoneLive(db, pending, s);
    }
  }

  /** The assertion against removing too many bytes or accounts from a storage never fires. */
  lemma StorageCanLose(db: Db, pending: Reclaims, s: Slot)
    requires CountsOk(db, pending) && s in db.storage
    ensures |At(pending, s)| <= db.storage[s].count
    ensures Bytes(db.storage[s].accounts, At(pending, s)) <= db.storage[s].aliveBytes
    ensures |At(pending, s)| == db.storage[s].count ==>
              Bytes(db.storage[s].accounts, At(pending, s)) == db.storage[s].aliveBytes
  {
    var live := LiveOffsets(db.index, s, db.storage[s].accounts);
    assert CountOk(db.index, s, db.storage[s], At(pending, s));
    BytesSplit(db.storage[s].accounts, live, At(pending, s));
    SubsetSize(At(pending, s), live + At(pending, s));
    if |At(pending, s)| == db.storage[s].count {
      SubsetSameSize(At(pending, s), live + At(pending, s));
      assert live + At(pending, s) == At(pending, s);
    }
  }

  lemma ReclaimKeepsCount(index: Index, index': Index, s: Slot, store: Store, pending: set<Offset>, store': Store)
    requires CountOk(index, s, store, pending) && Reduced(store, pending, store')
    requires forall k :: IsLive(index, s, k) == IsLive(index', s, k)
    ensures CountOk(index', s, store', {})
  {
    var live := LiveOffsets(index, s, store.accounts);
    assert LiveOffsets(index', s, store.accounts) == live;
    BytesSplit(store.accounts, live, pending);
    assert |live + pending| == |live| + |pending|;
    assert live + {} == live;
  }

  lemma HoldersDropped(storage: map<Slot, Store>, storage': map<Slot, Store>, dead: set<Slot>, k: Pubkey)
    requires storage'.Keys == storage.Keys - dead
    requires forall s :: s in storage' ==> storage'[s].accounts == storage[s].accounts
    ensures Holders(storage', k) == Holders(storage, k) - dead
    ensures |Holders(storage', k)| == |Holders(storage, k)| - |Holders(storage, k) * dead|
  {
    var holders := Holders(storage, k);
    assert Holders(storage', k) == holders - dead;
    assert |holders - dead| == |holders| - |holders * dead|;
  }

  /** Reclaiming changes no record of the storages that stay. */
  lemma ReclaimedRecords(db: Db, pending: Reclaims, dead: set<Slot>, db': Db)
    requires Reclaimed(db, pending, dead, db')
    ensures forall s :: s in db'.storage ==> s in db.storage && db'.storage[s].accounts == db.storage[s].accounts
  {
  }

  lemma ReclaimKeepsRefs(db: Db, pending: Reclaims, dead: set<Slot>, db': Db)
    requires RefsOk(db, pending) && Reclaimed(db, pending, dead, db')
    ensures RefsOk(db', map[])
  {
    ReclaimedRecords(db, pending, dead, db');
    forall k
      ensures k in db'.index ==> db'.index[k].refCount == |Holders(db'.storage, k)|
      ensures k !in db'.index ==> Holders(db'.storage, k) == {}
    {
      HoldersDropped(db.storage, db'.storage, dead, k);
    }
  }

  lemma ReclaimKeepsShadows(db: Db, pending: Reclaims, dead: set<Slot>, db': Db)
    requires IndexOk(db) && CountsOk(db, pending) && CacheOk(db) && ShadowsOk(db, pending)
    requires Reclaimed(db, pending, dead, db')
    ensures ShadowsOk(db', map[])
  {
    forall s, k | s in db'.storage && k in KeysOf(db'.storage[s].accounts)
      ensures IsLive(db'.index, s, k) || LiveStoredAbove(db', s, k)
    {
      if !IsLive(db.index, s, k) {
        var t :| s < t && t in db.storage && IsLive(db.index, t, k);
        LiveIsNotDead(db, pending, k, t);
        assert t in db'.storage && IsLive(db'.index, t, k);
      }
    }
  }

  lemma ReclaimKeepsAccounts(db: Db, pending: Reclaims, dead: set<Slot>, db': Db, k: Pubkey, s: Slot)
    requires IndexOk(db) && CountsOk(db, pending) && CacheOk(db)
    requires Reclaimed(db, pending, dead, db')
    requires IsLive(db.index, s, k)
    ensures SameAt(db, db', k, s) && s !in dead
  {
    LiveIsNotDead(db, pending, k, s);
    SameRecord(db, db', k, s);
  }

  /** Reclaiming restores the invariant. */
  lemma ReclaimKeepsInv(db: Db, pending: Reclaims, dead: set<Slot>, db': Db)
    requires InvExcept(db, pending) && Reclaimed(db, pending, dead, db')
    ensures Inv(db')
  {
    ReclaimKeepsRefs(db, pending, dead, db');
    ReclaimKeepsShadows(db, pending, dead, db');
    forall k, s | IsLive(db'.index, s, k)
      ensures Located(db', k, s)
    {
      ReclaimKeepsAccounts(db, pending, dead, db', k, s);
    }
    forall s | s in db'.storage
      ensures CountOk(db'.index, s, db'.storage[s], {})
    {
      assert CountOk(db.index, s, db.storage[s], At(pending, s));
      ReclaimKeepsCount(db.index, db'.index, s, db.storage[s], At(pending, s), db'.storage[s]);
    }
  }

  /** Reclaiming changes no load. */
  lemma ReclaimKeepsLoads(db: Db, pending: Reclaims, dead: set<Slot>, db': Db, k: Pubkey, view: View)
    requires IndexOk(db) && CountsOk(db, pending) && CacheOk(db) && Reclaimed(db, pending, dead, db') && IndexOk(db')
    ensures Load(db', k, view) == Load(db, k, view)
  {
    forall s | s in VisibleSlots(db', k, view)
      ensures s in VisibleSlots(db, k, view) && SameAt(db, db', k, s)
    {
      ReclaimKeepsAccounts(db, pending, dead, db', k, s);
    }
    var visible := VisibleSlots(db, k, view);
    if visible != {} {
      ReclaimKeepsAccounts(db, pending, dead, db', k, Newest(visible));
      assert Newest(visible) in VisibleSlots(db', k, view);
    }
    LoadKept(db, db', k, view);
  }

  lemma ReclaimKeepsRoots(db: Db, pending: Reclaims, dead: set<Slot>, db': Db, everRooted: set<Slot>)
    requires IndexOk(db) && CountsOk(db, pending) && CacheOk(db)
    requires Reclaimed(db, pending, dead, db') && RootsOk(db, everRooted)
    ensures RootsOk(db', everRooted)
  {
    forall k, s | IsLive(db'.index, s, k) && s in everRooted
      ensures s in db'.roots
    {
      assert IsLive(db.index, s, k);
      LiveIsNotDead(db, pending, k, s);
    }
  }
}
