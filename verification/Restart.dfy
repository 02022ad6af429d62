/** Rebuilding from the storages alone, as a node does when it starts. */
module Restart {
  import opened Types
  import opened Database
  import opened Cleaning
  import opened History
  import opened Runs
  import StartupHash

  /** The record of a key in a storage that holds it. */
  ghost function RecordIn(accounts: seq<Stored>, k: Pubkey): (r: Account)
    requires k in KeysOf(accounts)
    ensures Stored(k, r) in accounts
  {
    var o :| 0 <= o < |accounts| && accounts[o].pubkey == k;
    assert accounts[o] == Stored(k, accounts[o].account);
    accounts[o].account
  }

  /** The account a rebuilt index leads to: the newest record of the key in any storage. */
  ghost function Reload(storage: map<Slot, Store>, k: Pubkey): Option<Account> {
    var holders := Holders(storage, k);
    if holders == {} then None
    else
      var account := RecordIn(storage[Newest(holders)].accounts, k);
      if account.lamports == 0 then None else Some(account)
  }

  /** The newest record of a key is live. */
  lemma NewestRecordIsLive(db: Db, k: Pubkey)
    requires IndexOk(db) && CacheOk(db) && ShadowsOk(db, map[]) && Holders(db.storage, k) != {}
    ensures IsLive(db.index, Newest(Holders(db.storage, k)), k)
  {
    var n := Newest(Holders(db.storage, k));
    forall t | n < t && t in db.storage
      ensures !IsLive(db.index, t, k)
    {
      assert IsLive(db.index, t, k) ==> Located(db, k, t);
      assert t !in Holders(db.storage, k);
    }
  }

  lemma LiveRecord(db: Db, k: Pubkey, s: Slot)
    requires IndexOk(db) && CacheOk(db) && StoresOk(db) && s in db.storage && IsLive(db.index, s, k)
    ensures Located(db, k, s) && s in Holders(db.storage, k)
    ensures AccountAt(db, k, s) == RecordIn(db.storage[s].accounts, k)
  {
    assert Located(db, k, s);
    var accounts := db.storage[s].accounts;
    var o :| 0 <= o < |accounts| && accounts[o] == Stored(k, RecordIn(accounts, k));
    LiveOffset(db, k, s, o);
  }

  /** What a reader of the roots up to `top` sees is exactly the live records. */
  lemma VisibleAreStored(db: Db, k: Pubkey, top: Slot)
    requires IndexOk(db) && CacheOk(db) && StoresOk(db) && FlushedUpTo(db, top)
    requires forall s :: s in db.storage ==> s <= top
    ensures forall s :: s in VisibleSlots(db, k, View({}, top)) <==> s in db.storage && IsLive(db.index, s, k)
  {
    forall s
      ensures s in VisibleSlots(db, k, View({}, top)) <==> s in db.storage && IsLive(db.index, s, k)
    {
      assert IsLive(db.index, s, k) ==> Located(db, k, s);
    }
  }

  /**
   * Once the roots are flushed, rebuilding from the storages finds for every key what the
   * running database loads. No purged or outdated version comes back.
   */
  lemma RestartChangesNothing(db: Db, k: Pubkey, top: Slot)
    requires Inv(db) && FlushedUpTo(db, top) && forall s :: s in db.storage ==> s <= top
    ensures Reload(db.storage, k) == Load(db, k, View({}, top))
  {
    var visible, holders := VisibleSlots(db, k, View({}, top)), Holders(db.storage, k);
    VisibleAreStored(db, k, top);
    forall s | s in visible
      ensures s in holders
    {
      LiveRecord(db, k, s);
    }
    if holders != {} {
      NewestRecordIsLive(db, k);
      var n := Newest(holders);
      assert n in visible && Newest(visible) == n;
      LiveRecord(db, k, n);
    }
  }

  /** In every run, a restart from the storages recovers the newest version ever written. */
  lemma RestartRecoversHistory(states: seq<State>, events: seq<Event>, i: nat, k: Pubkey, top: Slot)
    requires IsRun(states, events) && i < |states| && states[i].cleaned <= top
    requires FlushedUpTo(states[i].db, top) && forall s :: s in states[i].db.storage ==> s <= top
    ensures Reload(states[i].db.storage, k) == Recall(states[i].history, k, View({}, top))
  {
    RunIsSound(states, events, i);
    RestartChangesNothing(states[i].db, k, top);
    EveryLoadIsRemembered(states, events, i, k, View({}, top));
  }

  // ---- The index built at startup ----

  /** The storages found at startup are those of the database, without obsolete marks. */
  ghost predicate Lists(storages: seq<StartupHash.Storage>, storage: map<Slot, Store>) {
    && (forall i :: 0 <= i < |storages| ==>
          && storages[i].slot in storage && storages[i].accounts == storage[storages[i].slot].accounts
          && storages[i].obsolete == {})
    && (forall s :: s in storage ==> exists i :: 0 <= i < |storages| && storages[i].slot == s)
    && (forall i, j :: 0 <= i < j < |storages| ==> storages[i].slot != storages[j].slot)
  }

  lemma ListsOneEach(storages: seq<StartupHash.Storage>, storage: map<Slot, Store>)
    requires Lists(storages, storage) && forall s :: s in storage ==> NoDuplicates(storage[s].accounts)
    ensures StartupHash.OneEach(storages)
  {
    forall p, q | StartupHash.Current(storages, p) && StartupHash.Current(storages, q)
                  && StartupHash.VersionAt(storages, p) == StartupHash.VersionAt(storages, q)
      ensures p == q
    {
      assert p.store == q.store;
      assert NoDuplicates(storage[storages[p.store].slot].accounts);
    }
  }

  /** The index has a key in exactly the slots whose storage holds it. */
  lemma IndexedAreHolders(storages: seq<StartupHash.Storage>, storage: map<Slot, Store>, index: StartupHash.Places,
                          k: Pubkey, s: Slot)
    requires Lists(storages, storage) && StartupHash.IndexesAll(storages, index)
    ensures StartupHash.IsIndexed(index, (k, s)) <==> s in Holders(storage, k)
  {
    if s in Holders(storage, k) {
      var i :| 0 <= i < |storages| && storages[i].slot == s;
      var o :| 0 <= o < |storages[i].accounts| && storages[i].accounts[o].pubkey == k;
      var p := StartupHash.Place(i, o);
      assert StartupHash.Current(storages, p) && StartupHash.VersionAt(storages, p) == (k, s);
    }
    if StartupHash.IsIndexed(index, (k, s)) {
      var p := index[k][s];
      assert StartupHash.Current(storages, p) && StartupHash.VersionAt(storages, p) == (k, s);
      assert storages[p.store].accounts[p.offset].pubkey == k;
    }
  }

  /** What a rebuilt index leads to: the record of the newest version of the key. */
  ghost function Found(storages: seq<StartupHash.Storage>, index: StartupHash.Places, k: Pubkey): Option<Account>
    requires StartupHash.IndexesAll(storages, index)
  {
    if k !in index || index[k].Keys == {} then None
    else
      var newest := Newest(index[k].Keys);
      assert StartupHash.IsIndexed(index, (k, newest));
      var account := StartupHash.AccountAt(storages, index[k][newest]);
      if account.lamports == 0 then None else Some(account)
  }

  lemma SameRecordIn(accounts: seq<Stored>, k: Pubkey, o: Offset)
    requires NoDuplicates(accounts) && o < |accounts| && accounts[o].pubkey == k
    ensures k in KeysOf(accounts) && RecordIn(accounts, k) == accounts[o].account
  {
    var i :| 0 <= i < |accounts| && accounts[i] == Stored(k, RecordIn(accounts, k));
    assert i == o;
  }

  /** The newest version in the index is the record that is reloaded. */
  lemma FoundIsReload(storages: seq<StartupHash.Storage>, storage: map<Slot, Store>, index: StartupHash.Places,
                      k: Pubkey)
    requires Lists(storages, storage) && StartupHash.IndexesAll(storages, index)
    requires forall s :: s in storage ==> NoDuplicates(storage[s].accounts)
    ensures Found(storages, index, k) == Reload(storage, k)
  {
    forall s
      ensures StartupHash.IsIndexed(index, (k, s)) <==> s in Holders(storage, k)
    {
      IndexedAreHolders(storages, storage, index, k, s);
    }
    if k in index && index[k].Keys != {} {
      assert forall s :: s in index[k].Keys <==> StartupHash.IsIndexed(index, (k, s));
      assert index[k].Keys == Holders(storage, k);
      var n := Newest(index[k].Keys);
      assert StartupHash.IsIndexed(index, (k, n));
      var p := index[k][n];
      SameRecordIn(storage[n].accounts, k, p.offset);
    } else {
      assert forall s :: !StartupHash.IsIndexed(index, (k, s));
      assert Holders(storage, k) == {};
    }
  }

  /**
   * Rebuilds the index from the storages of a database whose roots are flushed. It leads for every
   * key to what the running database loads.
   */
  method Rebuild<G(!new)>(m: StartupHash.Measure<G>, storages: seq<StartupHash.Storage>, threads: seq<seq<nat>>,
                          size: nat, ghost db: Db, ghost top: Slot)
    returns (index: StartupHash.Places)
    requires StartupHash.Lawful(m) && StartupHash.Assigned(threads, |storages|) && size > 0
    requires Inv(db) && FlushedUpTo(db, top) && (forall s :: s in db.storage ==> s <= top)
             && Lists(storages, db.storage)
    ensures StartupHash.IndexesAll(storages, index)
    ensures forall k :: Found(storages, index, k) == Load(db, k, View({}, top))
  {
    ListsOneEach(storages, db.storage);
    var sum, dataLen;
    index, sum, dataLen := StartupHash.GenerateIndex(m, storages, threads, size);
    forall k
      ensures Found(storages, index, k) == Load(db, k, View({}, top))
    {
      FoundIsReload(storages, db.storage, index, k);
      RestartChangesNothing(db, k, top);
    }
  }
}
