/** Rewriting a storage with only its alive accounts. */
module Shrinking {
  import opened Types
  import opened Database
  import opened Flushing

  /**
   * The records of the slot fall into those still in the index, those the index has
   * forgotten, and those without lamports that no other storage holds.
   */
  ghost predicate Sorted(db: Db, slot: Slot, alive: seq<Stored>, dead: set<Pubkey>, zeros: set<Pubkey>)
    requires slot in db.storage
  {
    var accounts := db.storage[slot].accounts;
    && NoDuplicates(alive)
    && KeysOf(accounts) == KeysOf(alive) + dead + zeros
    && KeysOf(alive) !! dead !! zeros
    && (forall o :: 0 <= o < |alive| ==> alive[o] in accounts && IsLive(db.index, slot, alive[o].pubkey))
    && (forall k :: k in dead ==> k in db.index && !IsLive(db.index, slot, k))
    && (forall k :: k in zeros ==> IsLive(db.index, slot, k) && db.index[k].refCount == 1
                                   && db.index[k].slots[slot].zeroLamport)
  }

  ghost predicate ShrunkKey(db: Db, slot: Slot, alive: seq<Stored>, dead: set<Pubkey>, zeros: set<Pubkey>,
                            index': Index, k: Pubkey)
  {
    if k !in db.index then k !in index'
    else
      var Entry(slots, refCount) := db.index[k];
      if k in KeysOf(alive) then
        k in index' && index'[k] == Entry(slots[slot := StoredInfo(db.nextId, alive, OffsetOf(alive, k))], refCount)
      else if k in dead then
        k in index' && index'[k].slots == slots && index'[k].refCount + 1 == refCount
      else if k in zeros then
        if slots - {slot} == map[] then k !in index'
        else k in index' && index'[k].slots == slots - {slot} && index'[k].refCount + 1 == refCount
      else
        k in index' && index'[k] == db.index[k]
  }

  ghost predicate ShrunkIndex(db: Db, slot: Slot, alive: seq<Stored>, dead: set<Pubkey>, zeros: set<Pubkey>, db': Db) {
    && slot in db.storage && Sorted(db, slot, alive, dead, zeros)
    && forall k :: ShrunkKey(db, slot, alive, dead, zeros, db'.index, k)
  }

  ghost predicate Shrunk(db: Db, slot: Slot, alive: seq<Stored>, dead: set<Pubkey>, zeros: set<Pubkey>, db': Db) {
    && ShrunkIndex(db, slot, alive, dead, zeros, db')
    && db'.roots == db.roots && db'.cache == db.cache && db'.unflushed == db.unflushed
    && db'.nextId == db.nextId + 1
    && db'.storage == db.storage[slot := Store(db.nextId, alive, |alive|, Bytes(alive, Range(|alive|)))]
  }

  lemma ShrinkLiveness(db: Db, slot: Slot, alive: seq<Stored>, dead: set<Pubkey>, zeros: set<Pubkey>, db': Db,
                       s: Slot, k: Pubkey)
    requires IndexOk(db) && db.cache.Keys !! db.storage.Keys && ShrunkIndex(db, slot, alive, dead, zeros, db')
    ensures s != slot ==> IsLive(db'.index, s, k) == IsLive(db.index, s, k)
    ensures s != slot && IsLive(db.index, s, k) ==> db'.index[k].slots[s] == db.index[k].slots[s]
    ensures IsLive(db'.index, slot, k) <==> k in KeysOf(alive)
    ensures k in KeysOf(alive) ==> IsLive(db.index, slot, k)
  {
    assert ShrunkKey(db, slot, alive, dead, zeros, db'.index, k);
    if k in KeysOf(alive) {
      assert alive[OffsetOf(alive, k)] in db.storage[slot].accounts;
    } else {
      assert IsLive(db.index, slot, k) ==> Located(db, k, slot);
      if k in zeros && s != slot && IsLive(db.index, s, k) {
        assert s in db.index[k].slots - {slot};
      }
    }
  }

  /** The record of an alive account is the one the index pointed to. */
  lemma AliveIsSame(db: Db, slot: Slot, alive: seq<Stored>, dead: set<Pubkey>, zeros: set<Pubkey>, o: Offset)
    requires IndexOk(db) && StoresOk(db) && db.cache.Keys !! db.storage.Keys
    requires slot in db.storage && Sorted(db, slot, alive, dead, zeros) && o < |alive|
    ensures var k := alive[o].pubkey;
            IsLive(db.index, slot, k) && Located(db, k, slot) && AccountAt(db, k, slot) == alive[o].account
  {
    var k := alive[o].pubkey;
    var i :| 0 <= i < |db.storage[slot].accounts| && db.storage[slot].accounts[i] == alive[o];
    LiveOffset(db, k, slot, i);
    assert Located(db, k, slot);
  }

  lemma ShrinkLocates(db: Db, slot: Slot, alive: seq<Stored>, dead: set<Pubkey>, zeros: set<Pubkey>, db': Db,
                      s: Slot, k: Pubkey)
    requires IndexOk(db) && StoresOk(db) && db.cache.Keys !! db.storage.Keys
             && Shrunk(db, slot, alive, dead, zeros, db')
    requires IsLive(db'.index, s, k)
    ensures Located(db', k, s)
    ensures IsLive(db.index, s, k) && SameAt(db, db', k, s)
  {
    ShrinkLiveness(db, slot, alive, dead, zeros, db', s, k);
    assert Located(db, k, s);
    if s == slot {
      assert ShrunkKey(db, slot, alive, dead, zeros, db'.index, k);
      AliveIsSame(db, slot, alive, dead, zeros, OffsetOf(alive, k));
    }
  }

  lemma ShrinkKeepsIndex(db: Db, slot: Slot, alive: seq<Stored>, dead: set<Pubkey>, zeros: set<Pubkey>, db': Db)
    requires IndexOk(db) && StoresOk(db) && CacheOk(db) && Shrunk(db, slot, alive, dead, zeros, db')
    ensures IndexOk(db') && CacheOk(db')
  {
    forall k, s
      ensures IsLive(db'.index, s, k) ==> Located(db', k, s)
      ensures s != slot ==> IsLive(db'.index, s, k) == IsLive(db.index, s, k)
    {
      ShrinkLiveness(db, slot, alive, dead, zeros, db', s, k);
      if IsLive(db'.index, s, k) {
        ShrinkLocates(db, slot, alive, dead, zeros, db', s, k);
      }
    }
    forall k | k in db'.index
      ensures db'.index[k].slots != map[]
    {
      assert ShrunkKey(db, slot, alive, dead, zeros, db'.index, k);
    }
  }

  lemma ShrinkNewCount(db: Db, slot: Slot, alive: seq<Stored>, dead: set<Pubkey>, zeros: set<Pubkey>, db': Db)
    requires IndexOk(db) && db.cache.Keys !! db.storage.Keys && ShrunkIndex(db, slot, alive, dead, zeros, db')
    ensures CountOk(db'.index, slot, Store(db.nextId, alive, |alive|, Bytes(alive, Range(|alive|))), {})
  {
    forall k
      ensures IsLive(db'.index, slot, k) <==> k in KeysOf(alive)
    {
      ShrinkLiveness(db, slot, alive, dead, zeros, db', slot, k);
    }
    AllLiveCount(db'.index, slot, db.nextId, alive);
  }

  lemma ShrinkKeepsOldCount(db: Db, slot: Slot, alive: seq<Stored>, dead: set<Pubkey>, zeros: set<Pubkey>, db': Db,
                            s: Slot)
    requires IndexOk(db) && db.cache.Keys !! db.storage.Keys && ShrunkIndex(db, slot, alive, dead, zeros, db')
    requires s in db.storage && s != slot && CountOk(db.index, s, db.storage[s], {})
    ensures CountOk(db'.index, s, db.storage[s], {})
  {
    forall k
      ensures IsLive(db'.index, s, k) == IsLive(db.index, s, k)
    {
      ShrinkLiveness(db, slot, alive, dead, zeros, db', s, k);
    }
    SameLiveSameCount(db.index, db'.index, s, db.storage[s]);
  }

  lemma ShrinkKeepsCounts(db: Db, slot: Slot, alive: seq<Stored>, dead: set<Pubkey>, zeros: set<Pubkey>, db': Db)
    requires IndexOk(db) && CacheOk(db) && CountsOk(db, map[]) && Shrunk(db, slot, alive, dead, zeros, db')
    ensures CountsOk(db', map[])
  {
    ShrinkNewCount(db, slot, alive, dead, zeros, db');
    forall s | s in db'.storage
      ensures CountOk(db'.index, s, db'.storage[s], {})
    {
      if s != slot {
        ShrinkKeepsOldCount(db, slot, alive, dead, zeros, db', s);
      }
    }
  }

  lemma ShrinkHolders(db: Db, slot: Slot, alive: seq<Stored>, dead: set<Pubkey>, zeros: set<Pubkey>, db': Db, k: Pubkey)
    requires Shrunk(db, slot, alive, dead, zeros, db')
    ensures k in dead + zeros ==>
              slot in Holders(db.storage, k) && Holders(db'.storage, k) == Holders(db.storage, k) - {slot}
    ensures k !in dead + zeros ==> Holders(db'.storage, k) == Holders(db.storage, k)
  {
  }

  /** A key without lamports that is dropped sits in this storage only. */
  lemma SingleHolder(db: Db, slot: Slot, alive: seq<Stored>, dead: set<Pubkey>, zeros: set<Pubkey>, k: Pubkey)
    requires RefsOk(db, map[]) && slot in db.storage && Sorted(db, slot, alive, dead, zeros) && k in zeros
    ensures Holders(db.storage, k) == {slot}
  {
    assert slot in Holders(db.storage, k);
    SubsetSameSize({slot}, Holders(db.storage, k));
  }

  lemma ShrinkKeepsRefs(db: Db, slot: Slot, alive: seq<Stored>, dead: set<Pubkey>, zeros: set<Pubkey>, db': Db)
    requires RefsOk(db, map[]) && Shrunk(db, slot, alive, dead, zeros, db')
    ensures RefsOk(db', map[])
  {
    forall k
      ensures k in db'.index ==> db'.index[k].refCount == |Holders(db'.storage, k)|
      ensures k !in db'.index ==> Holders(db'.storage, k) == {}
    {
      ShrinkHolders(db, slot, alive, dead, zeros, db', k);
      assert ShrunkKey(db, slot, alive, dead, zeros, db'.index, k);
      if k in zeros {
        SingleHolder(db, slot, alive, dead, zeros, k);
      }
    }
  }

  lemma ShrinkKeepsShadow(db: Db, slot: Slot, alive: seq<Stored>, dead: set<Pubkey>, zeros: set<Pubkey>, db': Db,
                          s: Slot, k: Pubkey)
    requires IndexOk(db) && CacheOk(db) && RefsOk(db, map[]) && Shrunk(db, slot, alive, dead, zeros, db')
    requires s != slot && s in Holders(db.storage, k) && (IsLive(db.index, s, k) || LiveStoredAbove(db, s, k))
    ensures IsLive(db'.index, s, k) || LiveStoredAbove(db', s, k)
  {
    if k in zeros {
      SingleHolder(db, slot, alive, dead, zeros, k);
    }
    var t :| s <= t && t in db.storage && IsLive(db.index, t, k);
    assert t == slot ==> Located(db, k, t);
    ShrinkLiveness(db, slot, alive, dead, zeros, db', t, k);
    if s < t {
      assert t in db'.storage && IsLive(db'.index, t, k);
    }
  }

  lemma ShrinkKeepsShadows(db: Db, slot: Slot, alive: seq<Stored>, dead: set<Pubkey>, zeros: set<Pubkey>, db': Db)
    requires IndexOk(db) && CacheOk(db) && RefsOk(db, map[]) && ShadowsOk(db, map[])
    requires Shrunk(db, slot, alive, dead, zeros, db')
    ensures ShadowsOk(db', map[])
  {
    forall s, k | s in db'.storage && k in KeysOf(db'.storage[s].accounts)
      ensures IsLive(db'.index, s, k) || LiveStoredAbove(db', s, k)
    {
      if s == slot {
        ShrinkLiveness(db, slot, alive, dead, zeros, db', s, k);
      } else {
        ShrinkKeepsShadow(db, slot, alive, dead, zeros, db', s, k);
      }
    }
  }

  lemma ShrinkKeepsInv(db: Db, slot: Slot, alive: seq<Stored>, dead: set<Pubkey>, zeros: set<Pubkey>, db': Db)
    requires Inv(db) && Shrunk(db, slot, alive, dead, zeros, db')
    ensures Inv(db')
  {
    ShrinkKeepsIndex(db, slot, alive, dead, zeros, db');
    ShrinkKeepsCounts(db, slot, alive, dead, zeros, db');
    ShrinkKeepsRefs(db, slot, alive, dead, zeros, db');
    ShrinkKeepsShadows(db, slot, alive, dead, zeros, db');
  }

  /** Every cached root is newer than every storage. */
  ghost predicate CacheAhead(db: Db) {
    forall c, s :: c in db.cache && c in db.roots && s in db.storage ==> s < c
  }

  /** A current reader that sees a dropped account without lamports sees no older version of its key. */
  lemma ZeroIsOldest(db: Db, slot: Slot, alive: seq<Stored>, dead: set<Pubkey>, zeros: set<Pubkey>,
                     everRooted: set<Slot>, k: Pubkey, view: View)
    requires IndexOk(db) && StoresOk(db) && RefsOk(db, map[]) && CacheAhead(db)
    requires slot in db.storage && Sorted(db, slot, alive, dead, zeros) && k in zeros
    requires RootsOk(db, everRooted) && Current(everRooted, 0, view)
    ensures forall s :: s in VisibleSlots(db, k, view) ==> slot <= s
  {
    SingleHolder(db, slot, alive, dead, zeros, k);
    forall s | s in VisibleSlots(db, k, view)
      ensures slot <= s
    {
      assert IsLive(db.index, s, k) && Located(db, k, s);
      if s in db.storage {
        assert db.index[k].slots[s].location.AppendVec? ==> s in Holders(db.storage, k);
      }
    }
  }

  /** A current reader finds nothing under a key that vanishes, unless it sees a newer version. */
  lemma VanishingLoadsNothing(db: Db, slot: Slot, alive: seq<Stored>, dead: set<Pubkey>, zeros: set<Pubkey>,
                              everRooted: set<Slot>, k: Pubkey, view: View)
    requires IndexOk(db) && StoresOk(db) && RefsOk(db, map[]) && CacheAhead(db) && db.cache.Keys !! db.storage.Keys
    requires slot in db.storage && Sorted(db, slot, alive, dead, zeros) && k in zeros
    requires RootsOk(db, everRooted) && Current(everRooted, 0, view)
    ensures var visible := VisibleSlots(db, k, view);
            visible != {} && Newest(visible) == slot ==> visible == {slot} && Load(db, k, view) == None
  {
    ZeroIsOldest(db, slot, alive, dead, zeros, everRooted, k, view);
    assert IsLive(db.index, slot, k) && Located(db, k, slot);
  }

  lemma ShrinkKeepsVisible(db: Db, slot: Slot, alive: seq<Stored>, dead: set<Pubkey>, zeros: set<Pubkey>, db': Db,
                           k: Pubkey, view: View)
    requires IndexOk(db) && db.cache.Keys !! db.storage.Keys && ShrunkIndex(db, slot, alive, dead, zeros, db')
    requires db'.roots == db.roots
    requires k in zeros ==> forall s :: s in VisibleSlots(db, k, view) ==> slot <= s
    ensures VisibleSlots(db', k, view) <= VisibleSlots(db, k, view)
    ensures var visible := VisibleSlots(db, k, view);
            visible != {} ==> Newest(visible) in VisibleSlots(db', k, view)
                              || (VisibleSlots(db', k, view) == {} && Load(db, k, view) == None)
  {
    forall s
      ensures s in VisibleSlots(db', k, view) ==> s in VisibleSlots(db, k, view)
      ensures s != slot && s in VisibleSlots(db, k, view) ==> s in VisibleSlots(db', k, view)
    {
      ShrinkLiveness(db, slot, alive, dead, zeros, db', s, k);
    }
    ShrinkLiveness(db, slot, alive, dead, zeros, db', slot, k);
    assert IsLive(db.index, slot, k) ==> Located(db, k, slot);
  }

  /** Shrinking a storage changes no load of a current reader. */
  lemma ShrinkKeepsLoads(db: Db, slot: Slot, alive: seq<Stored>, dead: set<Pubkey>, zeros: set<Pubkey>, db': Db,
                         everRooted: set<Slot>, k: Pubkey, view: View)
    requires Inv(db) && IndexOk(db') && CacheAhead(db) && Shrunk(db, slot, alive, dead, zeros, db')
    requires RootsOk(db, everRooted) && Current(everRooted, 0, view)
    ensures Load(db', k, view) == Load(db, k, view)
  {
    if k in zeros {
      ZeroIsOldest(db, slot, alive, dead, zeros, everRooted, k, view);
    }
    ShrinkKeepsVisible(db, slot, alive, dead, zeros, db', k, view);
    forall s | s in VisibleSlots(db', k, view)
      ensures SameAt(db, db', k, s)
    {
      ShrinkLocates(db, slot, alive, dead, zeros, db', s, k);
    }
    LoadKept(db, db', k, view);
  }

  lemma ShrinkKeepsRoots(db: Db, slot: Slot, alive: seq<Stored>, dead: set<Pubkey>, zeros: set<Pubkey>, db': Db,
                         everRooted: set<Slot>)
    requires IndexOk(db) && CacheOk(db) && StoresOk(db) && Shrunk(db, slot, alive, dead, zeros, db')
             && RootsOk(db, everRooted)
    ensures RootsOk(db', everRooted)
  {
    forall k, s | IsLive(db'.index, s, k) && s in everRooted
      ensures s in db'.roots
    {
      ShrinkLiveness(db, slot, alive, dead, zeros, db', s, k);
    }
  }
}
