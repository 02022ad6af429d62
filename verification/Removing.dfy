/** Taking stored versions of some keys out of the index, and collecting their records for reclaim. */
module Removing {
  import opened Types
  import opened Database

  /** For each key, the slots to take out of its slot list. */
  type Gone = map<Pubkey, set<Slot>>

  predicate IsGone(index: Index, gone: Gone, k: Pubkey, s: Slot) {
    IsLive(index, s, k) && k in gone && s in gone[k]
  }

  function GoneOf(gone: Gone, k: Pubkey): set<Slot> {
    if k in gone then gone[k] else {}
  }

  /** A slot list loses the given slots. An entry whose slot list is empty leaves the index. */
  ghost predicate RemovedKey(index: Index, gone: Gone, index': Index, k: Pubkey) {
    if k !in index then k !in index'
    else
      var rest := index[k].slots - GoneOf(gone, k);
      if rest == map[] then k !in index' else k in index' && index'[k] == Entry(rest, index[k].refCount)
  }

  ghost predicate AllStored(index: Index, gone: Gone) {
    forall k, s :: IsGone(index, gone, k, s) ==> index[k].slots[s].location.AppendVec?
  }

  /** The reclaims are the records of exactly the removed entries. */
  ghost predicate Collects(index: Index, gone: Gone, pending: Reclaims)
    requires AllStored(index, gone)
  {
    && (forall k, s :: IsGone(index, gone, k, s) ==> index[k].slots[s].location.offset in At(pending, s))
    && (forall s, o :: o in At(pending, s) ==>
          exists k :: IsGone(index, gone, k, s) && index[k].slots[s].location.offset == o)
  }

  ghost predicate Removed(db: Db, gone: Gone, db': Db) {
    && db' == db.(index := db'.index)
    && forall k :: RemovedKey(db.index, gone, db'.index, k)
  }

  lemma RemoveLiveness(db: Db, gone: Gone, db': Db, k: Pubkey, s: Slot)
    requires Removed(db, gone, db')
    ensures IsLive(db'.index, s, k) <==> IsLive(db.index, s, k) && !IsGone(db.index, gone, k, s)
    ensures IsLive(db'.index, s, k) ==> db'.index[k].slots[s] == db.index[k].slots[s]
  {
    assert RemovedKey(db.index, gone, db'.index, k);
    if IsLive(db.index, s, k) && !IsGone(db.index, gone, k, s) {
      assert s in db.index[k].slots - GoneOf(gone, k);
    }
  }

  lemma RemoveKeepsIndex(db: Db, gone: Gone, db': Db)
    requires IndexOk(db) && CacheOk(db) && Removed(db, gone, db') && AllStored(db.index, gone)
    ensures IndexOk(db') && CacheOk(db')
  {
    forall k, s
      ensures IsLive(db'.index, s, k) ==> Located(db', k, s)
      ensures s in db.cache && k in db.cache[s] ==> IsLive(db'.index, s, k)
    {
      RemoveLiveness(db, gone, db', k, s);
      assert IsLive(db.index, s, k) ==> Located(db, k, s);
    }
    forall k | k in db'.index
      ensures db'.index[k].slots != map[]
    {
      assert RemovedKey(db.index, gone, db'.index, k);
    }
  }

  lemma RemoveSplitsLive(db: Db, gone: Gone, db': Db, pending: Reclaims, s: Slot)
    requires IndexOk(db) && StoresOk(db) && CacheOk(db)
    requires Removed(db, gone, db') && AllStored(db.index, gone) && Collects(db.index, gone, pending)
    requires s in db.storage
    ensures var accounts := db.storage[s].accounts;
            && At(pending, s) !! LiveOffsets(db'.index, s, accounts)
            && LiveOffsets(db'.index, s, accounts) + At(pending, s) == LiveOffsets(db.index, s, accounts)
  {
    var accounts := db.storage[s].accounts;
    forall o | 0 <= o < |accounts|
      ensures o in At(pending, s) <==> IsGone(db.index, gone, accounts[o].pubkey, s)
      ensures o in LiveOffsets(db'.index, s, accounts)
              <==> o in LiveOffsets(db.index, s, accounts) && !IsGone(db.index, gone, accounts[o].pubkey, s)
    {
      var k := accounts[o].pubkey;
      RemoveLiveness(db, gone, db', k, s);
      if IsGone(db.index, gone, k, s) {
        LiveOffset(db, k, s, o);
      }
      if o in At(pending, s) {
        var k' :| IsGone(db.index, gone, k', s) && db.index[k'].slots[s].location.offset == o;
        assert Located(db, k', s);
      }
    }
    forall o | o in At(pending, s)
      ensures o < |accounts|
    {
      var k :| IsGone(db.index, gone, k, s) && db.index[k].slots[s].location.offset == o;
      assert Located(db, k, s);
    }
  }

  lemma CountMoves(index: Index, index': Index, s: Slot, store: Store, pending: set<Offset>)
    requires CountOk(index, s, store, {})
    requires pending !! LiveOffsets(index', s, store.accounts)
    requires LiveOffsets(index', s, store.accounts) + pending == LiveOffsets(index, s, store.accounts)
    ensures CountOk(index', s, store, pending)
  {
    var live := LiveOffsets(index, s, store.accounts);
    assert live + {} == live;
    assert forall o :: o in pending ==> o in live;
  }

  lemma RemoveKeepsCounts(db: Db, gone: Gone, db': Db, pending: Reclaims)
    requires IndexOk(db) && StoresOk(db) && CacheOk(db) && CountsOk(db, map[])
    requires Removed(db, gone, db') && AllStored(db.index, gone) && Collects(db.index, gone, pending)
    ensures CountsOk(db', pending)
  {
    forall s | s in db'.storage
      ensures CountOk(db'.index, s, db'.storage[s], At(pending, s))
    {
      RemoveSplitsLive(db, gone, db', pending, s);
      CountMoves(db.index, db'.index, s, db.storage[s], At(pending, s));
    }
  }

  /** All of the invariant that does not depend on why the entries may go. */
  lemma RemoveKeepsMost(db: Db, gone: Gone, db': Db, pending: Reclaims)
    requires Inv(db)
    requires Removed(db, gone, db') && AllStored(db.index, gone) && Collects(db.index, gone, pending)
    ensures IndexOk(db') && CacheOk(db') && StoresOk(db') && CountsOk(db', pending)
  {
    RemoveKeepsIndex(db, gone, db');
    RemoveKeepsCounts(db, gone, db', pending);
  }

  lemma RemoveKeepsRoots(db: Db, gone: Gone, db': Db, everRooted: set<Slot>)
    requires Removed(db, gone, db') && RootsOk(db, everRooted)
    ensures RootsOk(db', everRooted)
  {
    forall k, s | IsLive(db'.index, s, k) && s in everRooted
      ensures s in db'.roots
    {
      RemoveLiveness(db, gone, db', k, s);
    }
  }

  lemma RemoveSameAt(db: Db, gone: Gone, db': Db, k: Pubkey, s: Slot)
    requires IndexOk(db) && IndexOk(db') && Removed(db, gone, db')
    requires IsLive(db'.index, s, k)
    ensures SameAt(db, db', k, s)
  {
    RemoveLiveness(db, gone, db', k, s);
    assert Located(db, k, s) && Located(db', k, s);
  }

  /** A load does not change when the newest visible version stays, or was empty and all visible ones go. */
  lemma RemoveKeepsLoads(db: Db, gone: Gone, db': Db, k: Pubkey, view: View)
    requires IndexOk(db) && IndexOk(db') && Removed(db, gone, db')
    requires var visible := VisibleSlots(db, k, view);
             visible != {} ==>
               !IsGone(db.index, gone, k, Newest(visible))
               || (Load(db, k, view) == None && forall s :: s in visible ==> IsGone(db.index, gone, k, s))
    ensures Load(db', k, view) == Load(db, k, view)
  {
    forall s
      ensures s in VisibleSlots(db', k, view) <==> s in VisibleSlots(db, k, view) && !IsGone(db.index, gone, k, s)
      ensures s in VisibleSlots(db', k, view) ==> SameAt(db, db', k, s)
    {
      RemoveLiveness(db, gone, db', k, s);
      if IsLive(db'.index, s, k) {
        RemoveSameAt(db, gone, db', k, s);
      }
    }
    LoadKept(db, db', k, view);
  }
}
