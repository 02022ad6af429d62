/** The single steps by which index entries are taken out and their records reclaimed. */
module ReclaimSteps {
  import opened Types
  import opened Database
  import opened Reclaiming
  import opened Removing
  import opened Cleaning

  type SlotList = seq<(Slot, AccountInfo)>

  ghost predicate CameFrom(index: Index, gone: Gone, item: (Slot, AccountInfo)) {
    exists k :: IsGone(index, gone, k, item.0) && item.1 == index[k].slots[item.0]
  }

  /** The list has exactly the removed index entries. */
  ghost predicate Lists(index: Index, gone: Gone, list: SlotList) {
    && (forall k, s :: IsGone(index, gone, k, s) ==> (s, index[k].slots[s]) in list)
    && (forall item :: item in list ==> CameFrom(index, gone, item))
  }

  /** How many of the given slots are in the slot list of a key. */
  function Lost(index: Index, k: Pubkey, out: set<Slot>): nat {
    if k in index then |index[k].slots.Keys * out| else 0
  }

  /** Every key loses one entry. */
  ghost predicate OneEntryEach(index: Index, gone: Gone) {
    forall k :: k in gone ==> Lost(index, k, gone[k]) == 1
  }

  ghost predicate TakenOut(entry: Entry, out: set<Slot>, entry': Entry) {
    entry' == Entry(entry.slots - out, entry.refCount)
  }

  /** The slot lists of the keys done so far have lost their slots. Those that became empty are noted. */
  ghost predicate TakenKey(index: Index, gone: Gone, done: set<Pubkey>, index': Index, dead: set<Pubkey>, k: Pubkey) {
    && (k in index <==> k in index')
    && (k in index ==>
          if k in done then TakenOut(index[k], GoneOf(gone, k), index'[k]) && (index'[k].slots == map[] ==> k in dead)
          else index'[k] == index[k])
  }

  ghost predicate TakenFrom(index: Index, gone: Gone, done: set<Pubkey>, index': Index, dead: set<Pubkey>) {
    forall k :: TakenKey(index, gone, done, index', dead, k)
  }

  ghost predicate ListsSoFar(index: Index, gone: Gone, done: set<Pubkey>, list: SlotList) {
    && (forall k, s :: IsGone(index, gone, k, s) && k in done ==> (s, index[k].slots[s]) in list)
    && (forall item :: item in list ==> CameFrom(index, gone, item))
  }

  ghost predicate CountedSoFar(index: Index, gone: Gone, done: set<Pubkey>, n: nat) {
    OneEntryEach(index, gone) ==> n == |done|
  }

  lemma CountMore(index: Index, gone: Gone, done: set<Pubkey>, n: nat, k: Pubkey, m: nat)
    requires CountedSoFar(index, gone, done, n) && k in gone && k !in done && m == Lost(index, k, gone[k])
    ensures CountedSoFar(index, gone, done + {k}, n + m)
  {
  }

  /** What one key loses. */
  ghost predicate TookFrom(index: Index, k: Pubkey, out: set<Slot>, taken: SlotList) {
    && (forall s :: IsLive(index, s, k) && s in out ==> (s, index[k].slots[s]) in taken)
    && (forall item :: item in taken ==> IsLive(index, item.0, k) && item.0 in out && item.1 == index[k].slots[item.0])
  }

  lemma ListsMore(index: Index, gone: Gone, done: set<Pubkey>, list: SlotList, k: Pubkey, taken: SlotList)
    requires ListsSoFar(index, gone, done, list) && k in gone && TookFrom(index, k, gone[k], taken)
    ensures ListsSoFar(index, gone, done + {k}, list + taken)
  {
    forall item | item in list + taken
      ensures CameFrom(index, gone, item)
    {
      if item in taken {
        assert IsGone(index, gone, k, item.0);
      }
    }
  }

  lemma TakenSame(index: Index, gone: Gone, done: set<Pubkey>, middle: Index, dead: set<Pubkey>, k: Pubkey)
    requires TakenFrom(index, gone, done, middle, dead) && k !in done
    ensures middle.Keys == index.Keys && (k in index ==> middle[k] == index[k])
  {
    forall k'
      ensures k' in index <==> k' in middle
    {
      assert TakenKey(index, gone, done, middle, dead, k');
    }
    assert TakenKey(index, gone, done, middle, dead, k);
  }

  lemma TakenMore(index: Index, gone: Gone, done: set<Pubkey>, middle: Index, dead: set<Pubkey>, k: Pubkey,
                  index': Index, dead': set<Pubkey>)
    requires TakenFrom(index, gone, done, middle, dead) && k in gone && k !in done && dead <= dead'
    requires index'.Keys == middle.Keys && forall other :: other in index' && other != k ==>
               index'[other] == middle[other]
    requires k in index' ==> TakenOut(middle[k], gone[k], index'[k]) && (index'[k].slots == map[] ==> k in dead')
    ensures TakenFrom(index, gone, done + {k}, index', dead')
  {
    forall k'
      ensures TakenKey(index, gone, done + {k}, index', dead', k')
    {
      assert TakenKey(index, gone, done, middle, dead, k');
    }
  }

  /** The keys done so far have lost their slots, and the list has what they lost. */
  ghost predicate PurgedSoFar(index: Index, gone: Gone, done: set<Pubkey>, index': Index, dead: set<Pubkey>,
                              list: SlotList) {
    TakenFrom(index, gone, done, index', dead) && ListsSoFar(index, gone, done, list)
    && CountedSoFar(index, gone, done, |list|)
  }

  lemma TakenIsRemoved(index: Index, gone: Gone, middle: Index, dead: set<Pubkey>, index': Index, k: Pubkey)
    requires TakenKey(index, gone, gone.Keys, middle, dead, k) && (k in index ==> index[k].slots != map[])
    requires k in index' <==> k in middle && !(k in dead && middle[k].slots == map[])
    requires k in index' ==> index'[k] == middle[k]
    ensures RemovedKey(index, gone, index', k)
  {
    if k in index && k !in gone {
      assert index[k].slots - {} == index[k].slots;
    }
  }

  /** Takes some slots out of a slot list. */
  method Retain(slots: map<Slot, AccountInfo>, out: set<Slot>) returns (rest: map<Slot, AccountInfo>, taken: SlotList)
    ensures rest == slots - out
    ensures forall s :: s in slots && s in out ==> (s, slots[s]) in taken
    ensures forall item :: item in taken ==> item.0 in slots && item.0 in out && item.1 == slots[item.0]
    ensures |taken| == |slots.Keys * out|
  {
    rest, taken := slots, [];
    var todo := slots.Keys;
    ghost var lost: set<Slot> := {};
    while todo != {}
      invariant todo <= slots.Keys
      invariant forall s :: s in lost <==> s in slots && s !in todo && s in out
      invariant forall s :: s in rest <==> s in slots && s !in lost
      invariant forall s :: s in rest ==> rest[s] == slots[s]
      invariant |taken| == |lost|
      invariant forall s :: s in slots && s !in todo && s in out ==> (s, slots[s]) in taken
      invariant forall item :: item in taken ==> item.0 in slots && item.0 in out && item.1 == slots[item.0]
    {
      var s :| s in todo;
      todo := todo - {s};
      if s in out {
        taken := taken + [(s, slots[s])];
        rest := rest - {s};
        lost := lost + {s};
      }
    }
    assert lost == slots.Keys * out;
  }

  /** Some listed entry names the offset in the slot. */
  ghost predicate Names(list: SlotList, s: Slot, o: Offset) {
    exists item :: item in list && item.0 == s && item.1.location.AppendVec? && item.1.location.offset == o
  }

  /** The offsets of the listed entries, slot by slot. */
  ghost predicate OffsetsOf(list: SlotList, offsets: Reclaims) {
    && (forall s :: s in offsets ==> offsets[s] != {})
    && (forall s, o :: o in At(offsets, s) <==> Names(list, s, o))
  }

  lemma ListedAreCollected(index: Index, gone: Gone, list: SlotList, offsets: Reclaims)
    requires AllStored(index, gone) && Lists(index, gone, list) && OffsetsOf(list, offsets)
    ensures Collects(index, gone, offsets)
  {
    forall k, s | IsGone(index, gone, k, s)
      ensures index[k].slots[s].location.offset in At(offsets, s)
    {
      assert Names(list, s, index[k].slots[s].location.offset);
    }
    forall s, o | o in At(offsets, s)
      ensures exists k :: IsGone(index, gone, k, s) && index[k].slots[s].location.offset == o
    {
      assert Names(list, s, o);
      var item :| item in list && item.0 == s && item.1.location.AppendVec? && item.1.location.offset == o;
      assert CameFrom(index, gone, item);
    }
  }

  method CollectOffsets(reclaims: SlotList) returns (offsets: Reclaims)
    requires forall item :: item in reclaims ==> item.1.location.AppendVec?
    ensures OffsetsOf(reclaims, offsets)
  {
    offsets := map[];
    for i := 0 to |reclaims|
      invariant OffsetsOf(reclaims[..i], offsets)
    {
      var (slot, info) := reclaims[i];
      assert reclaims[i] in reclaims;
      ghost var before := offsets;
      offsets := offsets[slot := At(offsets, slot) + {info.location.offset}];
      forall s, o
        ensures o in At(offsets, s) <==> Names(reclaims[..i + 1], s, o)
      {
        assert o in At(before, s) <==> Names(reclaims[..i], s, o);
        assert reclaims[..i + 1] == reclaims[..i] + [reclaims[i]];
      }
    }
    assert reclaims[..|reclaims|] == reclaims;
  }

  lemma {:induction false} BytesOfOne(accounts: seq<Stored>, o: Offset)
    requires o < |accounts|
    ensures Bytes(accounts, {o}) == StoredSize(|accounts[o].account.data|)
  {
    var last := |accounts| - 1;
    if o < last {
      BytesOfOne(accounts[..last], o);
    } else {
      NoBytes(accounts[..last], {o});
    }
  }

  lemma {:induction false} NoBytes(accounts: seq<Stored>, offsets: set<Offset>)
    requires forall o :: o in offsets ==> |accounts| <= o
    ensures Bytes(accounts, offsets) == 0
  {
    if accounts != [] {
      NoBytes(accounts[..|accounts| - 1], offsets);
    }
  }

  /** The stored sizes of the given records, added up one by one. */
  method DeadBytes(accounts: seq<Stored>, offsets: set<Offset>) returns (bytes: nat)
    requires forall o :: o in offsets ==> o < |accounts|
    ensures bytes == Bytes(accounts, offsets)
  {
    bytes := 0;
    NoBytes(accounts, {});
    var todo := offsets;
    assert offsets - todo == {};
    while todo != {}
      invariant todo <= offsets && bytes == Bytes(accounts, offsets - todo)
    {
      var o :| o in todo;
      BytesOfOne(accounts, o);
      BytesSplit(accounts, offsets - todo, {o});
      assert offsets - todo + {o} == offsets - (todo - {o});
      todo := todo - {o};
      bytes := bytes + StoredSize(|accounts[o].account.data|);
    }
    assert offsets - {} == offsets;
  }

  ghost predicate LostRefs(entry: Entry, n: nat, entry': Entry) {
    entry'.slots == entry.slots && entry'.refCount + n == entry.refCount
  }

  /** Each of the keys loses one reference. */
  ghost predicate Unreffed(index: Index, keys: set<Pubkey>, index': Index) {
    index'.Keys == index.Keys && forall k :: k in index ==> LostRefs(index[k], if k in keys then 1 else 0, index'[k])
  }

  ghost predicate RefsAreHolders(index: Index, storage: map<Slot, Store>) {
    forall k :: k in index ==> index[k].refCount == |Holders(storage, k)|
  }

  /** The slot is noted under each of the keys. */
  ghost predicate SlotNoted(purged: Gone, s: Slot, keys: set<Pubkey>, purged': Gone) {
    forall k :: GoneOf(purged', k) == GoneOf(purged, k) + if k in keys then {s} else {}
  }

  /** The dropped slots are noted under exactly the keys their storages held. */
  ghost predicate Noted(storage: map<Slot, Store>, dead: set<Slot>, purged: Gone) {
    forall k :: GoneOf(purged, k) == Holders(storage, k) * dead
  }

  lemma NothingUnreferenced(index: Index, storage: map<Slot, Store>)
    ensures Unreferenced(index, storage, {}, index) && Noted(storage, {}, map[])
  {
    forall k
      ensures Holders(storage, k) * {} == {}
    {
    }
  }

  lemma OneMoreHolder(storage: map<Slot, Store>, done: set<Slot>, s: Slot, k: Pubkey)
    requires s in storage && s !in done
    ensures Holders(storage, k) * (done + {s})
            == Holders(storage, k) * done + (if k in KeysOf(storage[s].accounts) then {s} else {})
    ensures |Holders(storage, k) * (done + {s})|
            == |Holders(storage, k) * done| + (if k in KeysOf(storage[s].accounts) then 1 else 0)
  {
    var holders := Holders(storage, k);
    assert holders * (done + {s}) == holders * done + (if k in KeysOf(storage[s].accounts) then {s} else {});
  }

  lemma UnrefPossible(was: Index, storage: map<Slot, Store>, done: set<Slot>, s: Slot, index: Index)
    requires Unreferenced(was, storage, done, index) && s in storage && s !in done
    requires RefsAreHolders(was, storage)
    ensures forall k :: k in index && k in KeysOf(storage[s].accounts) ==> index[k].refCount > 0
  {
    forall k | k in index && k in KeysOf(storage[s].accounts)
      ensures index[k].refCount > 0
    {
      OneMoreHolder(storage, done, s, k);
      SubsetSize(Holders(storage, k) * (done + {s}), Holders(storage, k));
    }
  }

  lemma UnrefStep(was: Index, storage: map<Slot, Store>, done: set<Slot>, s: Slot, index: Index, index': Index)
    requires Unreferenced(was, storage, done, index) && s in storage && s !in done
    requires Unreffed(index, KeysOf(storage[s].accounts), index')
    ensures Unreferenced(was, storage, done + {s}, index')
  {
    forall k | k in was
      ensures index'[k].slots == was[k].slots
      ensures index'[k].refCount + |Holders(storage, k) * (done + {s})| == was[k].refCount
    {
      OneMoreHolder(storage, done, s, k);
    }
  }

  lemma NoteStep(storage: map<Slot, Store>, done: set<Slot>, s: Slot, purged: Gone, purged': Gone)
    requires Noted(storage, done, purged) && s in storage && s !in done
    requires SlotNoted(purged, s, KeysOf(storage[s].accounts), purged')
    ensures Noted(storage, done + {s}, purged')
  {
    forall k
      ensures GoneOf(purged', k) == Holders(storage, k) * (done + {s})
    {
      OneMoreHolder(storage, done, s, k);
    }
  }

  lemma SameRecords(storage: map<Slot, Store>, storage': map<Slot, Store>)
    requires storage'.Keys == storage.Keys && forall s :: s in storage ==> storage'[s].accounts == storage[s].accounts
    ensures forall k :: Holders(storage', k) == Holders(storage, k)
  {
  }

  lemma ReducedAgrees(db: Db, offsets: Reclaims, reduced: map<Slot, Store>)
    requires StoresOk(db) && RefsOk(db, offsets) && reduced.Keys == db.storage.Keys
    requires forall s :: s in reduced ==> Reduced(db.storage[s], At(offsets, s), reduced[s])
    ensures forall s :: s in reduced ==> NoDuplicates(reduced[s].accounts)
    ensures RefsAreHolders(db.index, reduced)
  {
    SameRecords(db.storage, reduced);
  }

  lemma IsReclaimed(db: Db, offsets: Reclaims, dead: set<Slot>, reduced: map<Slot, Store>, purged: Gone, db': Db)
    requires dead == DeadSlots(db, offsets) && reduced.Keys == db.storage.Keys
    requires forall s :: s in reduced ==> Reduced(db.storage[s], At(offsets, s), reduced[s])
    requires Unreferenced(db.index, reduced, dead, db'.index) && Noted(reduced, dead, purged)
    requires db' == db.(index := db'.index, roots := db.roots - dead, storage := reduced - dead)
    ensures Reclaimed(db, offsets, dead, db') && PurgedSlots(db, dead, purged)
  {
    SameRecords(db.storage, reduced);
  }

  /** Notes a dropped slot under each key its storage held. */
  method NoteSlot(purged: Gone, s: Slot, accounts: seq<Stored>) returns (purged': Gone)
    ensures SlotNoted(purged, s, KeysOf(accounts), purged')
  {
    purged' := purged;
    for i := 0 to |accounts|
      invariant SlotNoted(purged, s, KeysOf(accounts[..i]), purged')
    {
      var k := accounts[i].pubkey;
      assert KeysOf(accounts[..i + 1]) == KeysOf(accounts[..i]) + {k};
      purged' := purged'[k := GoneOf(purged', k) + {s}];
    }
    assert accounts[..|accounts|] == accounts;
  }
}
