/** Moving one rooted slot from the write cache to a storage, leaving outdated versions behind. */
module Flushing {
  import opened Types
  import opened Database

  /** `keep` lists, in some order, the cached accounts of the slot that are written to storage. */
  ghost predicate Chosen(db: Db, slot: Slot, keep: seq<Stored>) {
    && slot in db.cache
    && NoDuplicates(keep)
    && (forall o :: 0 <= o < |keep| ==>
          keep[o].pubkey in db.cache[slot] && keep[o].account == db.cache[slot][keep[o].pubkey])
  }

  function StoredInfo(id: StoreId, keep: seq<Stored>, o: Offset): AccountInfo
    requires o < |keep|
  {
    AccountInfo(AppendVec(id, o), keep[o].account.lamports == 0)
  }

  ghost function OffsetOf(keep: seq<Stored>, k: Pubkey): (o: Offset)
    requires k in KeysOf(keep)
    ensures o < |keep| && keep[o].pubkey == k
  {
    var o :| 0 <= o < |keep| && keep[o].pubkey == k;
    o
  }

  /**
   * A written key points to its record. One that stays behind loses the slot, and its entry
   * when that was the last slot. Other keys do not change.
   */
  ghost predicate FlushedKey(db: Db, slot: Slot, keep: seq<Stored>, index': Index, k: Pubkey)
    requires slot in db.cache
  {
    if k !in db.cache[slot] then
      (k in index' <==> k in db.index) && (k in db.index ==> index'[k] == db.index[k])
    else
      && IsLive(db.index, slot, k)
      && var Entry(slots, refCount) := db.index[k];
         if k in KeysOf(keep) then
           k in index'
           && index'[k] == Entry(slots[slot := StoredInfo(db.nextId, keep, OffsetOf(keep, k))], refCount + 1)
         else if slots - {slot} == map[] then k !in index'
         else k in index' && index'[k] == Entry(slots - {slot}, refCount)
  }

  ghost predicate FlushedStorage(db: Db, slot: Slot, keep: seq<Stored>, db': Db) {
    if keep == [] then
      db'.roots == db.roots - {slot} && db'.storage == db.storage && db'.nextId == db.nextId
    else
      && db'.roots == db.roots && db'.nextId == db.nextId + 1
      && db'.storage == db.storage[slot := Store(db.nextId, keep, |keep|, Bytes(keep, Range(|keep|)))]
  }

  ghost predicate FlushedIndex(db: Db, slot: Slot, keep: seq<Stored>, db': Db) {
    && Chosen(db, slot, keep)
    && db'.cache == db.cache - {slot} && db'.unflushed == db.unflushed
    && forall k :: FlushedKey(db, slot, keep, db'.index, k)
  }

  ghost predicate Flushed(db: Db, slot: Slot, keep: seq<Stored>, db': Db) {
    FlushedIndex(db, slot, keep, db') && FlushedStorage(db, slot, keep, db')
  }

  lemma FlushLiveness(db: Db, slot: Slot, keep: seq<Stored>, db': Db, s: Slot, k: Pubkey)
    requires CacheOk(db) && IndexOk(db) && FlushedIndex(db, slot, keep, db')
    ensures s != slot ==> IsLive(db'.index, s, k) == IsLive(db.index, s, k)
    ensures s != slot && IsLive(db.index, s, k) ==> db'.index[k].slots[s] == db.index[k].slots[s]
    ensures IsLive(db'.index, slot, k) <==> k in KeysOf(keep)
    ensures k in KeysOf(keep) ==> IsLive(db.index, slot, k)
  {
    assert FlushedKey(db, slot, keep, db'.index, k);
    if k !in db.cache[slot] {
      assert IsLive(db.index, slot, k) ==> Located(db, k, slot);
    } else if k !in KeysOf(keep) && IsLive(db.index, s, k) && s != slot {
      assert s in db.index[k].slots - {slot};
    }
  }

  lemma FlushLocates(db: Db, slot: Slot, keep: seq<Stored>, db': Db, s: Slot, k: Pubkey)
    requires CacheOk(db) && IndexOk(db) && Flushed(db, slot, keep, db')
    requires IsLive(db'.index, s, k)
    ensures Located(db', k, s)
    ensures IsLive(db.index, s, k) && SameAt(db, db', k, s)
  {
    FlushLiveness(db, slot, keep, db', s, k);
    assert Located(db, k, s);
    if s == slot {
      assert FlushedKey(db, slot, keep, db'.index, k);
    }
  }

  lemma FlushKeepsOldCount(db: Db, slot: Slot, keep: seq<Stored>, db': Db, s: Slot)
    requires CacheOk(db) && IndexOk(db) && FlushedIndex(db, slot, keep, db')
    requires s in db.storage && s != slot && CountOk(db.index, s, db.storage[s], {})
    ensures CountOk(db'.index, s, db.storage[s], {})
  {
    forall k
      ensures IsLive(db'.index, s, k) == IsLive(db.index, s, k)
    {
      FlushLiveness(db, slot, keep, db', s, k);
    }
    SameLiveSameCount(db.index, db'.index, s, db.storage[s]);
  }

  lemma FlushNewCount(db: Db, slot: Slot, keep: seq<Stored>, db': Db)
    requires CacheOk(db) && IndexOk(db) && FlushedIndex(db, slot, keep, db')
    ensures CountOk(db'.index, slot, Store(db.nextId, keep, |keep|, Bytes(keep, Range(|keep|))), {})
  {
    forall k
      ensures IsLive(db'.index, slot, k) <==> k in KeysOf(keep)
    {
      FlushLiveness(db, slot, keep, db', slot, k);
    }
    AllLiveCount(db'.index, slot, db.nextId, keep);
  }

  /** Every count is right once those of the new store and of the old ones are. */
  lemma CombineCounts(db: Db, slot: Slot, store: Store, db': Db)
    requires forall s :: s in db.storage && s != slot ==> CountOk(db'.index, s, db.storage[s], {})
    requires CountOk(db'.index, slot, store, {}) && db'.storage == db.storage[slot := store]
    ensures CountsOk(db', map[])
  {
  }

  lemma FlushKeepsCounts(db: Db, slot: Slot, keep: seq<Stored>, db': Db)
    requires CacheOk(db) && IndexOk(db) && CountsOk(db, map[]) && Flushed(db, slot, keep, db')
    ensures CountsOk(db', map[])
  {
    forall s | s in db.storage && s != slot
      ensures CountOk(db'.index, s, db.storage[s], {})
    {
      FlushKeepsOldCount(db, slot, keep, db', s);
    }
    if keep != [] {
      FlushNewCount(db, slot, keep, db');
      CombineCounts(db, slot, db'.storage[slot], db');
    }
  }

  lemma FlushHolders(db: Db, slot: Slot, keep: seq<Stored>, db': Db, k: Pubkey)
    requires CacheOk(db) && Flushed(db, slot, keep, db')
    ensures k in KeysOf(keep) ==> Holders(db'.storage, k) == Holders(db.storage, k) + {slot}
    ensures k !in KeysOf(keep) ==> Holders(db'.storage, k) == Holders(db.storage, k)
  {
  }

  /** A key whose only slot is cached is in no storage. */
  lemma OnlyCachedNotStored(db: Db, slot: Slot, k: Pubkey)
    requires CacheOk(db) && ShadowsOk(db, map[]) && slot in db.cache
    requires k in db.index && db.index[k].slots - {slot} == map[]
    ensures Holders(db.storage, k) == {}
  {
    assert forall t :: t in db.index[k].slots && t != slot ==> t in db.index[k].slots - {slot};
  }

  lemma FlushKeepsRef(db: Db, slot: Slot, keep: seq<Stored>, db': Db, k: Pubkey)
    requires CacheOk(db) && RefsOk(db, map[]) && ShadowsOk(db, map[]) && Flushed(db, slot, keep, db')
    ensures k in db'.index ==> db'.index[k].refCount == |Holders(db'.storage, k)|
    ensures k !in db'.index ==> Holders(db'.storage, k) == {}
  {
    FlushHolders(db, slot, keep, db', k);
    assert FlushedKey(db, slot, keep, db'.index, k);
    if k !in KeysOf(keep) && k in db.cache[slot] && k !in db'.index {
      OnlyCachedNotStored(db, slot, k);
    }
  }

  lemma FlushKeepsRefs(db: Db, slot: Slot, keep: seq<Stored>, db': Db)
    requires CacheOk(db) && RefsOk(db, map[]) && ShadowsOk(db, map[]) && Flushed(db, slot, keep, db')
    ensures RefsOk(db', map[])
  {
    forall k
      ensures k in db'.index ==> db'.index[k].refCount == |Holders(db'.storage, k)|
      ensures k !in db'.index ==> Holders(db'.storage, k) == {}
    {
      FlushKeepsRef(db, slot, keep, db', k);
    }
  }

  lemma FlushKeepsShadows(db: Db, slot: Slot, keep: seq<Stored>, db': Db)
    requires CacheOk(db) && IndexOk(db) && ShadowsOk(db, map[]) && Flushed(db, slot, keep, db')
    ensures ShadowsOk(db', map[])
  {
    forall s, k | s in db'.storage && k in KeysOf(db'.storage[s].accounts)
      ensures IsLive(db'.index, s, k) || LiveStoredAbove(db', s, k)
    {
      FlushLiveness(db, slot, keep, db', s, k);
      if s != slot && !IsLive(db.index, s, k) {
        var t :| s < t && t in db.storage && IsLive(db.index, t, k);
        FlushLiveness(db, slot, keep, db', t, k);
        assert t in db'.storage && IsLive(db'.index, t, k);
      }
    }
  }

  lemma FlushKeepsIndex(db: Db, slot: Slot, keep: seq<Stored>, db': Db)
    requires CacheOk(db) && IndexOk(db) && Flushed(db, slot, keep, db')
    ensures IndexOk(db') && CacheOk(db')
  {
    forall k, s
      ensures IsLive(db'.index, s, k) ==> Located(db', k, s)
      ensures s != slot ==> IsLive(db'.index, s, k) == IsLive(db.index, s, k)
    {
      FlushLiveness(db, slot, keep, db', s, k);
      if IsLive(db'.index, s, k) {
        FlushLocates(db, slot, keep, db', s, k);
      }
    }
    forall k | k in db'.index
      ensures db'.index[k].slots != map[]
    {
      assert FlushedKey(db, slot, keep, db'.index, k);
    }
  }

  lemma FlushKeepsStores(db: Db, slot: Slot, keep: seq<Stored>, db': Db)
    requires StoresOk(db) && slot in db.roots && slot !in db.storage
    requires NoDuplicates(keep) && FlushedStorage(db, slot, keep, db')
    ensures StoresOk(db')
  {
  }

  lemma FlushKeepsInv(db: Db, slot: Slot, keep: seq<Stored>, db': Db)
    requires Inv(db) && slot in db.roots && Flushed(db, slot, keep, db')
    ensures Inv(db')
  {
    FlushKeepsIndex(db, slot, keep, db');
    FlushKeepsStores(db, slot, keep, db');
    FlushKeepsCounts(db, slot, keep, db');
    FlushKeepsRefs(db, slot, keep, db');
    FlushKeepsShadows(db, slot, keep, db');
  }

  /** A version left behind is outdated by a newer root at or below `cleaned`. */
  ghost predicate Superseded(db: Db, slot: Slot, cleaned: Slot, k: Pubkey) {
    exists t :: slot < t <= cleaned && t in db.roots && IsLive(db.index, t, k)
  }

  /** Flushing a slot changes no load of a reader that sees the roots up to `cleaned`. */
  lemma FlushKeepsLoads(db: Db, slot: Slot, keep: seq<Stored>, db': Db, cleaned: Slot, k: Pubkey, view: View)
    requires Inv(db) && Inv(db') && Flushed(db, slot, keep, db')
    requires forall k :: k in db.cache[slot] && k !in KeysOf(keep) ==> Superseded(db, slot, cleaned, k)
    requires cleaned <= view.maxRoot
    ensures Load(db', k, view) == Load(db, k, view)
  {
    forall s
      ensures IsLive(db'.index, s, k) ==> IsLive(db.index, s, k) && SameAt(db, db', k, s)
      ensures s != slot ==> IsLive(db'.index, s, k) == IsLive(db.index, s, k)
    {
      FlushLiveness(db, slot, keep, db', s, k);
      if IsLive(db'.index, s, k) {
        FlushLocates(db, slot, keep, db', s, k);
      }
    }
    FlushKeepsVisible(db, slot, keep, db', cleaned, k, view);
    LoadKept(db, db', k, view);
  }

  lemma FlushKeepsVisible(db: Db, slot: Slot, keep: seq<Stored>, db': Db, cleaned: Slot, k: Pubkey, view: View)
    requires CacheOk(db) && IndexOk(db) && Flushed(db, slot, keep, db')
    requires forall k :: k in db.cache[slot] && k !in KeysOf(keep) ==> Superseded(db, slot, cleaned, k)
    requires cleaned <= view.maxRoot
    ensures VisibleSlots(db', k, view) <= VisibleSlots(db, k, view)
    ensures var visible := VisibleSlots(db, k, view); visible != {} ==> Newest(visible) in VisibleSlots(db', k, view)
  {
    forall s
      ensures s in VisibleSlots(db', k, view) ==> s in VisibleSlots(db, k, view)
      ensures s != slot && s in VisibleSlots(db, k, view) ==> s in VisibleSlots(db', k, view)
    {
      FlushLiveness(db, slot, keep, db', s, k);
    }
    FlushLiveness(db, slot, keep, db', slot, k);
    assert IsLive(db.index, slot, k) ==> Located(db, k, slot);
    if k in db.cache[slot] && k !in KeysOf(keep) {
      var t :| slot < t <= cleaned && t in db.roots && IsLive(db.index, t, k);
      assert t in VisibleSlots(db, k, view);
    }
  }

  lemma FlushKeepsRoots(db: Db, slot: Slot, keep: seq<Stored>, db': Db, everRooted: set<Slot>)
    requires CacheOk(db) && IndexOk(db) && Flushed(db, slot, keep, db') && RootsOk(db, everRooted)
    ensures RootsOk(db', everRooted)
  {
    forall k, s | IsLive(db'.index, s, k) && s in everRooted
      ensures s in db'.roots
    {
      FlushLiveness(db, slot, keep, db', s, k);
      if keep == [] {
        FlushLiveness(db, slot, keep, db', slot, k);
      }
    }
  }
}
