/** The single steps of a shrink: finding the newest records, sorting them out and rewriting the storage. */
module ShrinkMoves {
  import opened Types
  import opened Database
  import opened Flushing
  import opened Removing
  import opened Shrinking
  import opened Dedup
  import opened ReclaimSteps
  import opened FlushMoves

  // ---- The newest record of every key ----

  predicate Tagged(accounts: seq<Stored>, s: seq<AccountFromStorage>) {
    |s| == |accounts| && forall j :: 0 <= j < |s| ==> s[j] == AccountFromStorage(accounts[j].pubkey, j)
  }

  predicate IsNewestRecord(accounts: seq<Stored>, o: Offset) {
    o < |accounts| && forall j :: o < j < |accounts| ==> accounts[j].pubkey != accounts[o].pubkey
  }

  /** One record for each key of the storage: the last one that was stored. */
  ghost predicate NewestRecords(accounts: seq<Stored>, unique: seq<AccountFromStorage>) {
    && StrictlySorted(unique)
    && (forall i :: 0 <= i < |unique| ==>
          IsNewestRecord(accounts, unique[i].offset) && accounts[unique[i].offset].pubkey == unique[i].pubkey)
    && KeysOf(accounts) == UniqueKeys(unique)
  }

  ghost function UniqueKeys(unique: seq<AccountFromStorage>): set<Pubkey> {
    set i | 0 <= i < |unique| :: unique[i].pubkey
  }

  lemma {:induction false} LastVersionIsNewest(accounts: seq<Stored>, s: seq<AccountFromStorage>, k: Pubkey)
    requires Tagged(accounts, s)
    ensures LastVersion(s, k).Some? <==> k in KeysOf(accounts)
    ensures LastVersion(s, k).Some? ==>
              var o := LastVersion(s, k).value.offset; IsNewestRecord(accounts, o) && accounts[o].pubkey == k
  {
    if s != [] {
      var n := |s| - 1;
      LastVersionIsNewest(accounts[..n], s[..n], k);
      assert accounts == accounts[..n] + [accounts[n]];
      KeysOfMore(accounts[..n], accounts[n]);
    }
  }

  lemma LastVersionsAreNewest(accounts: seq<Stored>, s: seq<AccountFromStorage>, unique: seq<AccountFromStorage>)
    requires Tagged(accounts, s) && LastVersions(s, unique)
    ensures NewestRecords(accounts, unique)
  {
    forall i | 0 <= i < |unique|
      ensures IsNewestRecord(accounts, unique[i].offset) && accounts[unique[i].offset].pubkey == unique[i].pubkey
    {
      assert LastVersion(s, unique[i].pubkey) == Some(unique[i]);
      LastVersionIsNewest(accounts, s, unique[i].pubkey);
    }
    forall k | k in KeysOf(accounts)
      ensures k in UniqueKeys(unique)
    {
      LastVersionIsNewest(accounts, s, k);
      var i :| 0 <= i < |unique| && unique[i] == LastVersion(s, k).value;
    }
  }

  method UniqueAccounts(accounts: seq<Stored>) returns (unique: seq<AccountFromStorage>)
    ensures NewestRecords(accounts, unique)
  {
    var a := new AccountFromStorage[|accounts|](
      i requires 0 <= i < |accounts| => AccountFromStorage(accounts[i].pubkey, i));
    ghost var s := a[..];
    var kept, duplicates := SortAndRemoveDups(a);
    unique := a[..kept];
    LastVersionsAreNewest(accounts, s, unique);
  }

  // ---- Sorting out ----

  /** A key without lamports may go with its only record, unless a full snapshot below the slot could bring it back. */
  ghost predicate IsSingleZero(db: Db, slot: Slot, lastFull: Option<Slot>, k: Pubkey) {
    && IsLive(db.index, slot, k) && db.index[k].refCount == 1 && db.index[k].slots[slot].zeroLamport
    && (lastFull.Some? ==> slot <= lastFull.value)
  }

  ghost predicate SortedSoFar(db: Db, slot: Slot, lastFull: Option<Slot>, keys: set<Pubkey>,
                              alive: seq<Stored>, dead: set<Pubkey>, zeros: set<Pubkey>)
    requires slot in db.storage
  {
    && NoDuplicates(alive) && keys == KeysOf(alive) + dead + zeros
    && (forall o :: 0 <= o < |alive| ==>
          alive[o] in db.storage[slot].accounts && IsLive(db.index, slot, alive[o].pubkey))
    && (forall k :: k in KeysOf(alive) ==> IsLive(db.index, slot, k) && !IsSingleZero(db, slot, lastFull, k))
    && (forall k :: k in dead ==> k in db.index && !IsLive(db.index, slot, k))
    && (forall k :: k in zeros ==> IsSingleZero(db, slot, lastFull, k))
  }

  lemma SortedSoFarIsSorted(db: Db, slot: Slot, lastFull: Option<Slot>, alive: seq<Stored>, dead: set<Pubkey>,
                            zeros: set<Pubkey>)
    requires slot in db.storage
             && SortedSoFar(db, slot, lastFull, KeysOf(db.storage[slot].accounts), alive, dead, zeros)
    ensures Sorted(db, slot, alive, dead, zeros)
    ensures forall k :: k in zeros <==> k in KeysOf(db.storage[slot].accounts) && IsSingleZero(db, slot, lastFull, k)
  {
  }

  lemma SortAlive(db: Db, slot: Slot, lastFull: Option<Slot>, keys: set<Pubkey>, alive: seq<Stored>, dead: set<Pubkey>,
                  zeros: set<Pubkey>, stored: Stored)
    requires slot in db.storage && SortedSoFar(db, slot, lastFull, keys, alive, dead, zeros)
    requires stored in db.storage[slot].accounts && stored.pubkey !in keys
    requires IsLive(db.index, slot, stored.pubkey) && !IsSingleZero(db, slot, lastFull, stored.pubkey)
    ensures SortedSoFar(db, slot, lastFull, keys + {stored.pubkey}, alive + [stored], dead, zeros)
  {
    KeysOfMore(alive, stored);
    forall o | 0 <= o < |alive|
      ensures alive[o].pubkey in keys
    {
      assert alive[o].pubkey in KeysOf(alive);
    }
  }

  lemma UniqueKeysMore(unique: seq<AccountFromStorage>, i: nat)
    requires i < |unique| && StrictlySorted(unique)
    ensures UniqueKeys(unique[..i + 1]) == UniqueKeys(unique[..i]) + {unique[i].pubkey}
    ensures unique[i].pubkey !in UniqueKeys(unique[..i])
  {
    assert unique[..i + 1] == unique[..i] + [unique[i]];
    forall k | k in UniqueKeys(unique[..i]) + {unique[i].pubkey}
      ensures k in UniqueKeys(unique[..i + 1])
    {
      if k == unique[i].pubkey {
        assert unique[..i + 1][i].pubkey == k;
      } else {
        var j :| 0 <= j < i && unique[..i][j].pubkey == k;
        assert unique[..i + 1][j].pubkey == k;
      }
    }
  }

  /** Every key of a storage is in the index, and the flag of a live one is right. */
  lemma RecordIsIndexed(db: Db, slot: Slot, o: Offset)
    requires IndexOk(db) && StoresOk(db) && RefsOk(db, map[]) && db.cache.Keys !! db.storage.Keys
    requires slot in db.storage && o < |db.storage[slot].accounts|
    ensures var Stored(k, account) := db.storage[slot].accounts[o];
            && k in db.index
            && (IsLive(db.index, slot, k) ==> db.index[k].slots[slot].zeroLamport == (account.lamports == 0))
  {
    var k := db.storage[slot].accounts[o].pubkey;
    assert slot in Holders(db.storage, k);
    if IsLive(db.index, slot, k) {
      LiveOffset(db, k, slot, o);
      assert Located(db, k, slot);
    }
  }

  // ---- Rewriting ----

  /** A record is a reference. */
  lemma RecordsAreReferences(db: Db, slot: Slot, keys: set<Pubkey>)
    requires RefsOk(db, map[]) && slot in db.storage && keys <= KeysOf(db.storage[slot].accounts)
    ensures forall k :: k in keys && k in db.index ==> db.index[k].refCount > 0
  {
    forall k | k in keys && k in db.index
      ensures db.index[k].refCount > 0
    {
      assert slot in Holders(db.storage, k);
    }
  }

  lemma IsShrunkKey(db: Db, slot: Slot, alive: seq<Stored>, dead: set<Pubkey>, zeros: set<Pubkey>,
                    a: Index, b: Index, c: Index, index': Index, k: Pubkey)
    requires IndexOk(db) && slot in db.storage && slot !in db.cache && Sorted(db, slot, alive, dead, zeros)
    requires Unreffed(db.index, dead, a) && Moved(a, slot, db.nextId, alive, b, k)
    requires Unreffed(b, zeros, c) && RemovedKey(c, LeftBehind(zeros, slot), index', k)
    ensures ShrunkKey(db, slot, alive, dead, zeros, index', k)
  {
    if k in db.index {
      assert LostRefs(db.index[k], if k in dead then 1 else 0, a[k]) && k in b && k in c;
      assert LostRefs(b[k], if k in zeros then 1 else 0, c[k]);
      assert c[k].slots - {} == c[k].slots;
      if k in KeysOf(alive) {
        assert alive[OffsetOf(alive, k)].pubkey == k && IsLive(db.index, slot, k) && Located(db, k, slot);
      }
    }
  }

  /** The parts of a shrink make up the whole. */
  lemma IsShrunk(db: Db, slot: Slot, alive: seq<Stored>, dead: set<Pubkey>, zeros: set<Pubkey>,
                 unreffed: Db, stored: Db, dropped: Db, db': Db)
    requires IndexOk(db) && CacheOk(db) && slot in db.storage && Sorted(db, slot, alive, dead, zeros)
    requires Unreffed(db.index, dead, unreffed.index) && unreffed == db.(index := unreffed.index)
    requires WroteStorage(unreffed, slot, alive, stored)
    requires Unreffed(stored.index, zeros, dropped.index) && dropped == stored.(index := dropped.index)
    requires Removed(dropped, LeftBehind(zeros, slot), db')
    ensures Shrunk(db, slot, alive, dead, zeros, db')
  {
    forall k
      ensures ShrunkKey(db, slot, alive, dead, zeros, db'.index, k)
    {
      assert Moved(unreffed.index, slot, db.nextId, alive, stored.index, k);
      assert RemovedKey(dropped.index, LeftBehind(zeros, slot), db'.index, k);
      IsShrunkKey(db, slot, alive, dead, zeros, unreffed.index, stored.index, dropped.index, db'.index, k);
    }
  }

  lemma ZerosAreReferenced(db: Db, slot: Slot, alive: seq<Stored>, dead: set<Pubkey>, zeros: set<Pubkey>,
                           unreffed: Index, stored: Index)
    requires slot in db.storage && Sorted(db, slot, alive, dead, zeros) && Unreffed(db.index, dead, unreffed)
    requires forall k :: Moved(unreffed, slot, db.nextId, alive, stored, k)
    ensures forall k :: k in zeros && k in stored ==> stored[k].refCount > 0
  {
    forall k | k in zeros
      ensures k in stored ==> stored[k].refCount > 0
    {
      assert Moved(unreffed, slot, db.nextId, alive, stored, k) && LostRefs(db.index[k], 0, unreffed[k]);
    }
  }

  lemma SlotsAreLeft(db: Db, slot: Slot, alive: seq<Stored>, dead: set<Pubkey>, zeros: set<Pubkey>,
                     unreffed: Index, stored: Index, dropped: Index)
    requires IndexOk(db) && Unreffed(db.index, dead, unreffed) && Unreffed(stored, zeros, dropped)
    requires forall k :: Moved(unreffed, slot, db.nextId, alive, stored, k)
    ensures forall k :: k in dropped ==> dropped[k].slots != map[]
  {
    forall k | k in dropped
      ensures dropped[k].slots != map[]
    {
      assert Moved(unreffed, slot, db.nextId, alive, stored, k);
      assert LostRefs(stored[k], if k in zeros then 1 else 0, dropped[k]);
      assert k in unreffed ==> LostRefs(db.index[k], if k in dead then 1 else 0, unreffed[k]);
      if k in KeysOf(alive) {
        assert slot in dropped[k].slots;
      }
    }
  }

  /** The stored sizes of the alive accounts, added up. */
  method AliveBytes(alive: seq<Stored>) returns (bytes: nat)
    ensures bytes == Bytes(alive, Range(|alive|))
  {
    bytes := 0;
    for i := 0 to |alive|
      invariant bytes == Bytes(alive[..i], Range(i))
    {
      assert alive[..i + 1] == alive[..i] + [alive[i]];
      BytesMore(alive[..i], alive[i]);
      bytes := bytes + StoredSize(|alive[i].account.data|);
    }
    assert alive[..|alive|] == alive;
  }
}
