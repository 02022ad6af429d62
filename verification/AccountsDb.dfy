/** The accounts database itself: the operations of the background service, in place on its fields. */
module AccountsDb {
  import opened Types
  import opened Database
  import opened DeleteDependencies
  import opened Flushing
  import opened Reclaiming
  import opened Removing
  import opened Cleaning
  import opened Shrinking
  import opened History
  import opened Runs
  import opened ReclaimSteps
  import opened CleanSteps
  import opened FlushMoves
  import opened ShrinkMoves
  import opened Snapshots

  method Highest(slots: set<Slot>) returns (r: Slot)
    requires slots != {}
    ensures r in slots && forall s :: s in slots ==> s <= r
  {
    r :| r in slots;
    var todo := slots - {r};
    while todo != {}
      invariant todo <= slots && r in slots
      invariant forall s :: s in slots ==> s in todo || s <= r
    {
      var s :| s in todo;
      todo := todo - {s};
      r := if r < s then s else r;
    }
  }

  class AccountsDb {
    var index: Index
    var roots: set<Slot>
    var cache: map<Slot, map<Pubkey, Account>>
    var unflushed: set<Slot>
    var storage: map<Slot, Store>
    var nextId: StoreId
    /** Keys without lamports that wait for the next full snapshot before they can be purged. */
    var purgeLater: set<(Slot, Pubkey)>

    ghost function State(): Db
      reads this
    {
      Db(index, roots, cache, unflushed, storage, nextId)
    }

    constructor ()
      ensures State() == EMPTY && purgeLater == {}
    {
      index, roots, cache, unflushed, storage, nextId, purgeLater := map[], {}, map[], {}, map[], 0, {};
    }

    // ---- Index operations ----

    /** Takes the given slots out of one slot list. Says whether nothing is left of the entry. */
    method PurgeExact(k: Pubkey, out: set<Slot>) returns (reclaims: SlotList, dead: bool)
      modifies this`index
      ensures index.Keys == old(index).Keys && forall other :: other in index && other != k ==>
                index[other] == old(index)[other]
      ensures k in index ==> TakenOut(old(index)[k], out, index[k]) && (dead <==> index[k].slots == map[])
      ensures TookFrom(old(index), k, out, reclaims) && |reclaims| == Lost(old(index), k, out)
    {
      if k !in index {
        return [], true;
      }
      var rest, taken := Retain(index[k].slots, out);
      index := index[k := Entry(rest, index[k].refCount)];
      return taken, rest == map[];
    }

    /** Takes the given slots out of the slot list of one more key. */
    method PurgeNext(gone: Gone, k: Pubkey, reclaims: SlotList, dead: set<Pubkey>, ghost was: Index,
                     ghost done: set<Pubkey>)
      returns (reclaims': SlotList, dead': set<Pubkey>)
      requires PurgedSoFar(was, gone, done, index, dead, reclaims) && k in gone && k !in done
      modifies this`index
      ensures PurgedSoFar(was, gone, done + {k}, index, dead', reclaims')
    {
      ghost var before := index;
      var taken, empty := PurgeExact(k, gone[k]);
      reclaims' := reclaims + taken;
      dead' := if empty then dead + {k} else dead;
      TakenSame(was, gone, done, before, dead, k);
      TakenMore(was, gone, done, before, dead, k, index, dead');
      ListsMore(was, gone, done, reclaims, k, taken);
      CountMore(was, gone, done, |reclaims|, k, |taken|);
    }

    /** Takes the given slots out of the slot list of each key. */
    method PurgeExactAll(gone: Gone) returns (reclaims: SlotList, dead: set<Pubkey>)
      modifies this`index
      ensures TakenFrom(old(index), gone, gone.Keys, index, dead)
      ensures Lists(old(index), gone, reclaims) && (OneEntryEach(old(index), gone) ==> |reclaims| == |gone|)
    {
      ghost var was := index;
      reclaims, dead := [], {};
      var todo := gone.Keys;
      ghost var done: set<Pubkey> := {};
      while todo != {}
        invariant todo !! done && todo + done == gone.Keys
        invariant PurgedSoFar(was, gone, done, index, dead, reclaims)
      {
        var k :| k in todo;
        reclaims, dead := PurgeNext(gone, k, reclaims, dead, was, done);
        todo, done := todo - {k}, done + {k};
      }
      assert done == gone.Keys;
    }

    /** The same, and drops the entries that become empty. */
    method PurgeKeysExact(gone: Gone) returns (reclaims: SlotList)
      requires forall k :: k in index ==> index[k].slots != map[]
      modifies this`index
      ensures Removed(old(State()), gone, State())
      ensures Lists(old(index), gone, reclaims) && (OneEntryEach(old(index), gone) ==> |reclaims| == |gone|)
    {
      var dead;
      reclaims, dead := PurgeExactAll(gone);
      ghost var middle := index;
      HandleDeadKeys(dead);
      forall k
        ensures RemovedKey(old(index), gone, index, k)
      {
        assert TakenKey(old(index), gone, gone.Keys, middle, dead, k);
        TakenIsRemoved(old(index), gone, middle, dead, index, k);
      }
    }

    /** Drops those of the given keys whose slot list is empty. */
    method HandleDeadKeys(dead: set<Pubkey>)
      modifies this`index
      ensures index == map k | k in old(index) && !(k in dead && old(index)[k].slots == map[]) :: old(index)[k]
    {
      var todo := dead;
      while todo != {}
        invariant todo <= dead
        invariant index == map k | k in old(index) && !(k in dead - todo && old(index)[k].slots == map[])
                             :: old(index)[k]
      {
        var k :| k in todo;
        todo := todo - {k};
        if k in index && index[k].slots == map[] {
          index := index - {k};
        }
      }
    }

    // ---- Reclaiming ----

    /** Takes accounts off a storage, and says how many are left. */
    method RemoveAccounts(s: Slot, bytes: nat, n: nat) returns (remaining: nat)
      requires s in storage && n <= storage[s].count && bytes <= storage[s].aliveBytes
      modifies this`storage
      ensures s in storage
      ensures storage == old(storage)[s := old(storage)[s].(count := remaining, aliveBytes := storage[s].aliveBytes)]
      ensures remaining + n == old(storage)[s].count && storage[s].aliveBytes + bytes == old(storage)[s].aliveBytes
    {
      var store := storage[s];
      storage := storage[s := store.(count := store.count - n, aliveBytes := store.aliveBytes - bytes)];
      return store.count - n;
    }

    /** Takes the given records off one storage. When they are all that is alive, no sizes are looked up. */
    method ReduceStorage(s: Slot, offsets: set<Offset>) returns (remaining: nat)
      requires s in storage && |offsets| <= storage[s].count && forall o :: o in offsets ==> o < |storage[s].accounts|
      requires Bytes(storage[s].accounts, offsets) <= storage[s].aliveBytes
      requires |offsets| == storage[s].count ==> Bytes(storage[s].accounts, offsets) == storage[s].aliveBytes
      modifies this`storage
      ensures storage.Keys == old(storage).Keys && forall t :: t in storage && t != s ==> storage[t] == old(storage)[t]
      ensures Reduced(old(storage)[s], offsets, storage[s])
      ensures remaining == storage[s].count
    {
      if |offsets| == storage[s].count {
        remaining := RemoveAccounts(s, storage[s].aliveBytes, |offsets|);
      } else {
        var bytes := DeadBytes(storage[s].accounts, offsets);
        remaining := RemoveAccounts(s, bytes, |offsets|);
      }
    }

    /** Takes the offsets off their storages, and says which storages have no live account left. */
    method RemoveDeadAccounts(offsets: Reclaims) returns (dead: set<Slot>)
      requires CountsOk(State(), offsets)
      modifies this`storage
      ensures storage.Keys == old(storage).Keys
      ensures forall s :: s in storage ==> Reduced(old(storage)[s], At(offsets, s), storage[s])
      ensures dead == DeadSlots(old(State()), offsets)
    {
      ghost var db := State();
      dead := {};
      var todo := offsets.Keys;
      forall s | s in storage && s !in offsets
        ensures Reduced(storage[s], At(offsets, s), storage[s])
      {
        NoBytes(storage[s].accounts, {});
      }
      while todo != {}
        invariant todo <= offsets.Keys && storage.Keys == db.storage.Keys
        invariant forall s :: s in storage && s in todo ==> storage[s] == db.storage[s]
        invariant forall s :: s in storage && s !in todo ==> Reduced(db.storage[s], At(offsets, s), storage[s])
        invariant forall s :: s in dead <==> s in DeadSlots(db, offsets) && s !in todo
      {
        var s :| s in todo;
        todo := todo - {s};
        if s in storage {
          StorageCanLose(db, offsets, s);
          assert CountOk(db.index, s, db.storage[s], At(offsets, s));
          ghost var before := storage;
          var remaining := ReduceStorage(s, offsets[s]);
          forall t | t in storage && t !in todo
            ensures Reduced(db.storage[t], At(offsets, t), storage[t])
          {
            if t != s {
              assert Reduced(db.storage[t], At(offsets, t), before[t]);
            }
          }
          if remaining == 0 {
            dead := dead + {s};
          }
        }
      }
    }

    /** Drops the reference every record of a dead storage holds. */
    method UnrefStorage(accounts: seq<Stored>)
      requires NoDuplicates(accounts)
      requires forall k :: k in index && k in KeysOf(accounts) ==> index[k].refCount > 0
      modifies this`index
      ensures Unreffed(old(index), KeysOf(accounts), index)
    {
      for i := 0 to |accounts|
        invariant Unreffed(old(index), KeysOf(accounts[..i]), index)
      {
        var k := accounts[i].pubkey;
        assert KeysOf(accounts[..i + 1]) == KeysOf(accounts[..i]) + {k};
        assert k in KeysOf(accounts) && k !in KeysOf(accounts[..i]);
        if k in index {
          assert LostRefs(old(index)[k], 0, index[k]);
          index := index[k := index[k].(refCount := index[k].refCount - 1)];
        }
      }
      assert accounts[..|accounts|] == accounts;
    }

    /** Drops every reference the dead storages hold, and notes the slots under the keys they held. */
    method UnrefDeadSlots(dead: set<Slot>) returns (purged: Gone)
      requires dead <= storage.Keys && forall s :: s in dead ==> NoDuplicates(storage[s].accounts)
      requires RefsAreHolders(index, storage)
      modifies this`index
      ensures Unreferenced(old(index), storage, dead, index) && Noted(storage, dead, purged)
    {
      ghost var was, stores := index, storage;
      purged := map[];
      var todo := dead;
      ghost var done: set<Slot> := {};
      NothingUnreferenced(was, stores);
      while todo != {}
        invariant done + todo == dead && done !! todo && storage == stores
        invariant Unreferenced(was, stores, done, index) && Noted(stores, done, purged)
      {
        var s :| s in todo;
        UnrefPossible(was, stores, done, s, index);
        ghost var index', purged' := index, purged;
        UnrefStorage(storage[s].accounts);
        purged := NoteSlot(purged, s, storage[s].accounts);
        UnrefStep(was, stores, done, s, index', index);
        NoteStep(stores, done, s, purged', purged);
        todo, done := todo - {s}, done + {s};
      }
    }

    /** Takes reclaimed records off their storages, and drops each storage that has no live account left. */
    method HandleReclaims(reclaims: SlotList) returns (offsets: Reclaims, dead: set<Slot>, purged: Gone)
      requires forall item :: item in reclaims ==> item.1.location.AppendVec?
      requires forall pending :: OffsetsOf(reclaims, pending) ==> InvExcept(State(), pending)
      modifies this`index, this`storage, this`roots
      ensures OffsetsOf(reclaims, offsets) && Reclaimed(old(State()), offsets, dead, State())
      ensures PurgedSlots(old(State()), dead, purged)
    {
      offsets := CollectOffsets(reclaims);
      dead, purged := ReclaimOffsets(offsets);
    }

    method ReclaimOffsets(offsets: Reclaims) returns (dead: set<Slot>, purged: Gone)
      requires CountsOk(State(), offsets) && StoresOk(State()) && RefsOk(State(), offsets)
      modifies this`index, this`storage, this`roots
      ensures Reclaimed(old(State()), offsets, dead, State()) && PurgedSlots(old(State()), dead, purged)
    {
      ghost var db := State();
      dead := RemoveDeadAccounts(offsets);
      ghost var reduced := storage;
      ReducedAgrees(db, offsets, reduced);
      purged := ProcessDeadSlots(dead);
      IsReclaimed(db, offsets, dead, reduced, purged, State());
    }

    method ProcessDeadSlots(dead: set<Slot>) returns (purged: Gone)
      requires dead <= storage.Keys && forall s :: s in dead ==> NoDuplicates(storage[s].accounts)
      requires RefsAreHolders(index, storage)
      modifies this`index, this`storage, this`roots
      ensures Unreferenced(old(index), old(storage), dead, index) && Noted(old(storage), dead, purged)
      ensures roots == old(roots) - dead && storage == old(storage) - dead
    {
      purged := UnrefDeadSlots(dead);
      roots := roots - dead;
      storage := storage - dead;
    }

    // ---- Cleaning ----

    /** The newest rooted slot of a slot list, up to the bound. */
    method NewestRooted(slots: map<Slot, AccountInfo>, bound: Slot) returns (r: Option<Slot>)
      ensures r.None? <==> RootedSlots(slots, roots, bound) == {}
      ensures r.Some? ==> r.value == Newest(RootedSlots(slots, roots, bound))
    {
      r := None;
      var todo := slots.Keys;
      while todo != {}
        invariant todo <= slots.Keys
        invariant r.None? ==> forall s :: s in RootedSlots(slots, roots, bound) ==> s in todo
        invariant r.Some? ==> r.value in RootedSlots(slots, roots, bound)
        invariant r.Some? ==> forall s :: s in RootedSlots(slots, roots, bound) ==> s in todo || s <= r.value
      {
        var s :| s in todo;
        todo := todo - {s};
        if (r.None? || s > r.value) && s <= bound && s in roots {
          r := Some(s);
        }
      }
    }

    /** Takes the outdated versions of a key out of the index. Says whether the index is left without the key. */
    method CleanRootedEntries(k: Pubkey, bound: Slot) returns (reclaims: SlotList, removed: bool)
      modifies this`index
      ensures Without(old(index), {k}, index) && (removed <==> k !in index)
      ensures k in old(index) ==>
                && EntryLost(old(index)[k], Outdated(old(index)[k].slots, roots, bound), index, k)
                && Took(old(index)[k].slots, Outdated(old(index)[k].slots, roots, bound), reclaims)
      ensures k !in old(index) ==> removed && reclaims == []
    {
      if k !in index {
        return [], true;
      }
      var slots := index[k].slots;
      var found := NewestRooted(slots, bound);
      var newest := if found.Some? then found.value else 0;
      var out := set s | s in slots && slots[s].location != Cached && s < bound && s != newest;
      assert out == Outdated(slots, roots, bound);
      var rest, taken := Retain(slots, out);
      reclaims, removed := taken, rest == map[];
      index := index[k := Entry(rest, index[k].refCount)];
      if removed {
        index := index - {k};
      }
    }

    /**
     * Looks up one candidate. When its newest rooted version has no lamports, its rooted slots
     * are noted. Its outdated versions leave the index.
     */
    method ScanCandidate(k: Pubkey, bound: Slot) returns (info: CleaningInfo, reclaims: SlotList)
      requires k in index ==> index[k].slots != map[]
      modifies this`index
      ensures Without(old(index), {k}, index) && (k in index ==> k in old(index))
      ensures info.slotList != map[] <==> IsEmptyNow(old(State()), bound, k)
      ensures info.slotList != map[] ==> ScannedKey(old(State()), bound, info, k)
      ensures k in old(index) ==>
                && EntryLost(old(index)[k], Outdated(old(index)[k].slots, roots, bound), index, k)
                && Took(old(index)[k].slots, Outdated(old(index)[k].slots, roots, bound), reclaims)
      ensures k !in old(index) ==> reclaims == []
    {
      info, reclaims := CleaningInfo(map[], 0), [];
      if k in index {
        var slots := index[k].slots;
        var newest := NewestRooted(slots, bound);
        if newest.Some? && slots[newest.value].zeroLamport {
          info := CleaningInfo(map s | s in slots && s in roots && s <= bound :: slots[s], index[k].refCount);
          assert newest.value in info.slotList;
          assert info.slotList.Keys == RootedSlots(slots, roots, bound);
        }
        if newest.None? || |slots| > 1 {
          var removed;
          reclaims, removed := CleanRootedEntries(k, bound);
        } else {
          OnlyOne(slots, newest.value);
          assert Outdated(slots, roots, bound) == {} && slots - {} == slots;
        }
      }
    }

    /** Scans one bin of candidates, and keeps those whose newest rooted version has no lamports. */
    method ScanBin(keys: set<Pubkey>, bound: Slot, ghost db: Db, ghost done: set<Pubkey>, reclaims: SlotList)
      returns (bin: Candidates, reclaims': SlotList)
      requires State() == db.(index := index) && IndexOk(db) && keys !! done
      requires Scanned(db, bound, done, index, reclaims)
      modifies this`index
      ensures Scanned(db, bound, done + keys, index, reclaims')
      ensures forall k :: k in bin <==> k in keys && IsEmptyNow(db, bound, k)
      ensures forall k :: k in bin ==> ScannedKey(db, bound, bin[k], k)
    {
      bin, reclaims' := map[], reclaims;
      var todo := keys;
      ghost var seen: set<Pubkey> := {};
      assert done + seen == done;
      while todo != {}
        invariant seen + todo == keys && seen !! todo && State() == db.(index := index)
        invariant Scanned(db, bound, done + seen, index, reclaims')
        invariant forall k :: k in bin <==> k in seen && IsEmptyNow(db, bound, k)
        invariant forall k :: k in bin ==> ScannedKey(db, bound, bin[k], k)
      {
        var k :| k in todo;
        ghost var before, list := index, reclaims';
        assert SameKey(db.index, index, k);
        var info, taken := ScanCandidate(k, bound);
        reclaims' := reclaims' + taken;
        ScanStep(db, bound, done + seen, k, before, index, list, taken);
        if info.slotList != map[] {
          bin := bin[k := info];
        }
        assert done + seen + {k} == done + (seen + {k});
        todo, seen := todo - {k}, seen + {k};
      }
      assert done + seen == done + keys;
    }

    /** Scans all candidates, bin by bin. */
    method ScanCandidates(bins: seq<set<Pubkey>>, binOf: Pubkey -> nat, bound: Slot)
      returns (infos: seq<Candidates>, reclaims: SlotList)
      requires IndexOk(State()) && forall b, k :: 0 <= b < |bins| && k in bins[b] ==> binOf(k) == b
      modifies this`index
      ensures Scanned(old(State()), bound, InBins(bins), index, reclaims)
      ensures Kept(old(State()), bound, bins, infos)
    {
      ghost var db := State();
      infos, reclaims := [], [];
      NothingScanned(db, bound);
      for b := 0 to |bins|
        invariant State() == db.(index := index)
        invariant Scanned(db, bound, InBins(bins[..b]), index, reclaims)
        invariant Kept(db, bound, bins[..b], infos)
      {
        EachBinIsNew(bins, binOf, b);
        var bin;
        bin, reclaims := ScanBin(bins[b], bound, db, InBins(bins[..b]), reclaims);
        infos := infos + [bin];
        assert bins[..b + 1] == bins[..b] + [bins[b]];
        OneMoreBin(bins[..b], bins[b]);
      }
      assert bins[..|bins|] == bins;
    }

    /** A candidate without the slots the first part of the clean dropped or reclaimed it from. */
    method AdjustCandidate(k: Pubkey, info: CleaningInfo, offsets: Reclaims, purged: Gone) returns (info': CleaningInfo)
      requires forall s :: s in info.slotList ==> info.slotList[s].location.AppendVec?
      ensures AdjustedKey(State(), info, offsets, purged, k, info')
    {
      var refCount := info.refCount;
      if k in purged {
        refCount := if k in index then index[k].refCount else 0;
      }
      var kept := info.slotList;
      var todo := info.slotList.Keys;
      while todo != {}
        invariant todo <= info.slotList.Keys <= kept.Keys + (info.slotList.Keys - todo)
        invariant kept.Keys <= info.slotList.Keys && forall s :: s in kept ==> kept[s] == info.slotList[s]
        invariant forall s :: s in info.slotList && s !in todo ==>
                    (s in kept <==> s !in GoneOf(purged, k) && info.slotList[s].location.offset !in At(offsets, s))
      {
        var s :| s in todo;
        todo := todo - {s};
        if s in GoneOf(purged, k) || info.slotList[s].location.offset in At(offsets, s) {
          kept := kept - {s};
        }
      }
      info' := CleaningInfo(kept, refCount);
    }

    /** Counts a candidate out of one slot. */
    method TallySlot(k: Pubkey, s: Slot, counts: StoreCounts, ghost infos: Candidates, ghost done: set<Slot>)
      returns (counts': StoreCounts)
      requires TalliedPart(State(), infos, k, done, counts) && Occupied(counts) && k !in infos && s !in done
      requires s in storage && IsLive(index, s, k) && |KeysAt(index, s)| == storage[s].count
      ensures TalliedPart(State(), infos, k, done + {s}, counts') && Occupied(counts')
    {
      TallyFits(State(), infos, k, done, counts, s);
      if s in counts {
        counts' := counts[s := StoreCount(counts[s].count - 1, counts[s].pubkeys + {k})];
      } else {
        counts' := counts[s := StoreCount(storage[s].count - 1, {k})];
      }
      TallyStep(State(), infos, k, done, counts, s, counts');
    }

    /** Counts a candidate out of every slot it is in. */
    method TallyCandidate(k: Pubkey, info: CleaningInfo, counts: StoreCounts, ghost infos: Candidates)
      returns (counts': StoreCounts)
      requires TalliedSoFar(State(), infos, counts) && Occupied(counts) && k !in infos
      requires forall s :: s in info.slotList ==>
                 s in storage && IsLive(index, s, k) && |KeysAt(index, s)| == storage[s].count
      ensures TalliedSoFar(State(), infos[k := info], counts') && Occupied(counts')
    {
      counts' := counts;
      var todo := info.slotList.Keys;
      ghost var done: set<Slot> := {};
      TallyStarts(State(), infos, k, counts);
      while todo != {}
        invariant done + todo == info.slotList.Keys && done !! todo
        invariant TalliedPart(State(), infos, k, done, counts') && Occupied(counts')
      {
        var s :| s in todo;
        counts' := TallySlot(k, s, counts', infos, done);
        todo, done := todo - {s}, done + {s};
      }
      TallyEnds(State(), infos, k, info, counts');
    }

    /** Adjusts one candidate, and counts it out of its slots. */
    method AdjustAndTally(k: Pubkey, info: CleaningInfo, offsets: Reclaims, purged: Gone, counts: StoreCounts,
                          ghost infos: Candidates, ghost bound: Slot)
      returns (info': CleaningInfo, counts': StoreCounts)
      requires WillGather(State(), bound, info, offsets, purged, k) && IndexOk(State()) && FlushedUpTo(State(), bound)
      requires forall s :: s in storage ==> |KeysAt(index, s)| == storage[s].count
      requires TalliedSoFar(State(), infos, counts) && Occupied(counts) && k !in infos
      ensures GatheredKey(State(), bound, info', k) && TalliedSoFar(State(), infos[k := info'], counts')
              && Occupied(counts')
    {
      info' := AdjustCandidate(k, info, offsets, purged);
      GatheredIsStored(State(), bound, info', k);
      counts' := TallyCandidate(k, info', counts, infos);
    }

    /** Adjusts the candidates of one bin, and counts them out of their slots. */
    method TallyBin(bin: Candidates, offsets: Reclaims, purged: Gone, counts: StoreCounts, ghost infos: Candidates,
                    ghost bound: Slot)
      returns (bin': Candidates, counts': StoreCounts)
      requires forall k :: k in bin ==> WillGather(State(), bound, bin[k], offsets, purged, k)
      requires forall s :: s in storage ==> |KeysAt(index, s)| == storage[s].count
      requires IndexOk(State()) && FlushedUpTo(State(), bound) && bin.Keys !! infos.Keys
      requires TalliedSoFar(State(), infos, counts) && Occupied(counts)
      ensures bin'.Keys == bin.Keys && Gathered(State(), bound, bin')
      ensures TalliedSoFar(State(), infos + bin', counts') && Occupied(counts')
    {
      bin', counts' := map[], counts;
      var todo := bin.Keys;
      assert infos + bin' == infos;
      while todo != {}
        invariant bin'.Keys + todo == bin.Keys && bin'.Keys !! todo
        invariant Gathered(State(), bound, bin') && TalliedSoFar(State(), infos + bin', counts') && Occupied(counts')
      {
        var k :| k in todo;
        todo := todo - {k};
        var info;
        info, counts' := AdjustAndTally(k, bin[k], offsets, purged, counts', infos + bin', bound);
        MergeUpdate(infos, bin', k, info);
        bin' := bin'[k := info];
      }
    }

    /** Adjusts all candidates, and counts what would be left alive in each slot if they all went. */
    method CollectStoreCounts(bins: seq<Candidates>, binOf: Pubkey -> nat, offsets: Reclaims, purged: Gone,
                              ghost bound: Slot)
      returns (bins': seq<Candidates>, counts: StoreCounts, ghost infos: Candidates)
      requires forall b, k :: 0 <= b < |bins| && k in bins[b] ==>
                 binOf(k) == b && WillGather(State(), bound, bins[b][k], offsets, purged, k)
      requires IndexOk(State()) && FlushedUpTo(State(), bound)
      requires forall s :: s in storage ==> |KeysAt(index, s)| == storage[s].count
      ensures |bins'| == |bins| && (forall b :: 0 <= b < |bins| ==> bins'[b].Keys == bins[b].Keys)
      ensures Binned(bins', binOf, infos) && Gathered(State(), bound, infos) && TalliedSoFar(State(), infos, counts)
              && Occupied(counts)
    {
      bins', counts, infos := [], map[], map[];
      for b := 0 to |bins|
        invariant |bins'| == b && (forall c :: 0 <= c < b ==> bins'[c].Keys == bins[c].Keys)
        invariant Binned(bins', binOf, infos) && Gathered(State(), bound, infos) && TalliedSoFar(State(), infos, counts)
                  && Occupied(counts)
      {
        forall k | k in bins[b]
          ensures binOf(k) == b && WillGather(State(), bound, bins[b][k], offsets, purged, k) && k !in infos
        {
        }
        var bin;
        bin, counts := TallyBin(bins[b], offsets, purged, counts, infos, bound);
        BinnedMore(bins', binOf, infos, bin);
        bins', infos := bins' + [bin], infos + bin;
      }
    }

    /**
     * Does every slot of the candidate go? When full snapshots are awaited, a candidate above
     * the last one has to wait.
     */
    method FilterCandidate(k: Pubkey, info: CleaningInfo, left: StoreCounts, full: Option<Slot>) returns (keep: bool)
      requires AllEmpty(info)
      modifies this`purgeLater
      ensures keep <==> Passes(info, left, full)
      ensures purgeLater == old(purgeLater) + if Waits(info, left, full) then {(Newest(info.slotList.Keys), k)} else {}
    {
      var todo := info.slotList.Keys;
      var newest: Option<Slot> := None;
      while todo != {}
        invariant todo <= info.slotList.Keys
        invariant forall s :: s in info.slotList && s !in todo ==> s in left && left[s].count == 0
        invariant newest.None? ==> todo == info.slotList.Keys
        invariant newest.Some? ==> newest.value in info.slotList
        invariant newest.Some? ==> forall s :: s in info.slotList ==> s in todo || s <= newest.value
      {
        var s :| s in todo;
        todo := todo - {s};
        if s !in left || left[s].count != 0 {
          return false;
        }
        newest := if newest.None? || newest.value < s then Some(s) else newest;
      }
      if full.None? {
        return true;
      }
      assert newest.value == Newest(info.slotList.Keys);
      assert info.slotList[newest.value].zeroLamport;
      if newest.value > full.value {
        purgeLater := purgeLater + {(newest.value, k)};
      }
      return newest.value <= full.value;
    }

    /** Chooses the candidates of one bin that are purged. */
    method FilterBin(bin: Candidates, ghost infos: Candidates, ghost seen: set<Pubkey>, left: StoreCounts,
                     full: Option<Slot>, gone: Gone)
      returns (gone': Gone)
      requires forall k :: k in bin ==> k in infos && infos[k] == bin[k]
      requires (forall k :: k in infos ==> AllEmpty(infos[k])) && FilteredSoFar(infos, left, full, seen, gone)
      modifies this`purgeLater
      ensures FilteredSoFar(infos, left, full, seen + bin.Keys, gone')
      ensures WaitingSoFar(infos, left, full, bin.Keys, old(purgeLater), purgeLater)
    {
      gone' := gone;
      var todo := bin.Keys;
      ghost var done: set<Pubkey> := {};
      assert seen + done == seen;
      while todo != {}
        invariant done + todo == bin.Keys && done !! todo
        invariant FilteredSoFar(infos, left, full, seen + done, gone')
        invariant WaitingSoFar(infos, left, full, done, old(purgeLater), purgeLater)
      {
        var k :| k in todo;
        ghost var waiting := purgeLater;
        var keep := FilterCandidate(k, bin[k], left, full);
        if keep {
          gone' := gone'[k := bin[k].slotList.Keys];
        }
        WaitingStep(infos, left, full, done, {k}, old(purgeLater), waiting, purgeLater);
        assert seen + done + {k} == seen + (done + {k});
        todo, done := todo - {k}, done + {k};
      }
    }

    /** Chooses the candidates to purge. */
    method FilterCandidates(bins: seq<Candidates>, binOf: Pubkey -> nat, ghost infos: Candidates, left: StoreCounts,
                            full: Option<Slot>)
      returns (gone: Gone)
      requires Binned(bins, binOf, infos) && forall k :: k in infos ==> AllEmpty(infos[k])
      modifies this`purgeLater
      ensures Filtered(infos, left, full, gone)
      ensures Waiting(infos, left, full, old(purgeLater), purgeLater)
    {
      gone := map[];
      ghost var seen: set<Pubkey> := {};
      for b := 0 to |bins|
        invariant forall k :: k in seen <==> k in infos && binOf(k) < b
        invariant FilteredSoFar(infos, left, full, seen, gone)
        invariant WaitingSoFar(infos, left, full, seen, old(purgeLater), purgeLater)
      {
        ghost var waiting := purgeLater;
        gone := FilterBin(bins[b], infos, seen, left, full, gone);
        WaitingStep(infos, left, full, seen, bins[b].Keys, old(purgeLater), waiting, purgeLater);
        seen := seen + bins[b].Keys;
      }
      assert seen == infos.Keys;
    }

    /** The first part of a clean: outdated versions of the candidates go. */
    method CleanOutdated(bins: seq<set<Pubkey>>, binOf: Pubkey -> nat, bound: Slot)
      returns (infos: seq<Candidates>, offsets: Reclaims, purged: Gone, ghost trimmed: Db, ghost dead: set<Slot>)
      requires Inv(State()) && FlushedUpTo(State(), bound)
      requires forall b, k :: 0 <= b < |bins| && k in bins[b] ==> binOf(k) == b
      modifies this`index, this`storage, this`roots
      ensures Trimmed(old(State()), bound, InBins(bins), trimmed, offsets, dead, State())
      ensures PurgedSlots(trimmed, dead, purged) && Kept(old(State()), bound, bins, infos)
    {
      ghost var db := State();
      var reclaims;
      infos, reclaims := ScanCandidates(bins, binOf, bound);
      trimmed := State();
      ScanIsReclaimable(db, bound, InBins(bins), trimmed, reclaims);
      offsets, dead, purged := HandleReclaims(reclaims);
      ListedAreCollected(db.index, Trim(db, bound, InBins(bins)), reclaims, offsets);
    }

    /** Chooses the candidates without lamports that can go. */
    method ChoosePurges(bins: seq<Candidates>, binOf: Pubkey -> nat, offsets: Reclaims, purged: Gone,
                        ghost bound: Slot, full: Option<Slot>)
      returns (gone: Gone)
      requires Inv(State()) && FlushedUpTo(State(), bound)
      requires forall b, k :: 0 <= b < |bins| && k in bins[b] ==>
                 binOf(k) == b && WillGather(State(), bound, bins[b][k], offsets, purged, k)
      modifies this`purgeLater
      ensures Purgeable(old(State()), bound, gone) && PurgedExactly(old(State()), bound, KeysInBins(bins), full, gone)
      ensures WaitsExactly(old(State()), bound, KeysInBins(bins), full, old(purgeLater), purgeLater)
    {
      ghost var db := State();
      CountsAreKeys(db);
      var adjusted, counts; ghost var infos;
      adjusted, counts, infos := CollectStoreCounts(bins, binOf, offsets, purged, bound);
      var left := CalcDeleteDependencies(adjusted, binOf, infos, counts);
      GatheredAreEmpty(db, bound, infos);
      gone := FilterCandidates(adjusted, binOf, infos, left, full);
      BinnedKeys(bins, adjusted, binOf, infos);
      ChosenRightly(db, bound, infos, counts, left, full, gone);
      WaitingIsExact(db, bound, infos, counts, left, full, old(purgeLater), purgeLater);
    }

    /** The second part of a clean: candidates without lamports go, together with every storage that holds them. */
    method PurgeEmptyKeys(bins: seq<Candidates>, binOf: Pubkey -> nat, offsets: Reclaims, purged: Gone,
                          ghost bound: Slot, full: Option<Slot>)
      returns (ghost gone: Gone, ghost removed: Db, ghost empty: Reclaims, ghost dead: set<Slot>)
      requires Inv(State()) && FlushedUpTo(State(), bound)
      requires forall b, k :: 0 <= b < |bins| && k in bins[b] ==>
                 binOf(k) == b && WillGather(State(), bound, bins[b][k], offsets, purged, k)
      modifies this`index, this`storage, this`roots, this`purgeLater
      ensures Purged(old(State()), bound, gone, removed, empty, dead, State())
      ensures PurgedExactly(old(State()), bound, KeysInBins(bins), full, gone)
      ensures WaitsExactly(old(State()), bound, KeysInBins(bins), full, old(purgeLater), purgeLater)
    {
      ghost var db := State();
      var purge := ChoosePurges(bins, binOf, offsets, purged, bound, full);
      gone := purge;
      var reclaims := PurgeKeysExact(purge);
      removed := State();
      PurgeIsReclaimable(db, bound, gone, removed, reclaims);
      var offsets', dead', purged' := HandleReclaims(reclaims);
      ListedAreCollected(db.index, gone, reclaims, offsets');
      empty, dead := offsets', dead';
    }

    method MaxRoot() returns (max: Slot)
      ensures max == CleanBound(roots, None)
      ensures (forall r :: r in roots ==> r <= max) && (max in roots || (roots == {} && max == 0))
    {
      max := 0;
      var todo := roots;
      while todo != {}
        invariant todo <= roots
        invariant forall r :: r in roots ==> r in todo || r <= max
        invariant max in roots || max == 0
      {
        var r :| r in todo;
        todo := todo - {r};
        max := if max < r then r else max;
      }
    }

    method CleanUpTo(bins: seq<set<Pubkey>>, binOf: Pubkey -> nat, bound: Slot, full: Option<Slot>,
                     ghost h: History, ghost cleaned: Slot)
      returns (ghost run: CleanRun)
      requires Sound(State(), h, cleaned) && FlushedUpTo(State(), bound)
      requires forall b, k :: 0 <= b < |bins| && k in bins[b] ==> binOf(k) == b
      modifies this`index, this`storage, this`roots, this`purgeLater
      ensures TrimStep(old(State()), bound, run) && PurgeStep(bound, run, State()) && StoresOk(run.middle)
      ensures IndexOk(run.middle) && CacheOk(run.middle)
      ensures run.trim == Trim(old(State()), bound, InBins(bins))
      ensures PurgedExactly(run.middle, bound, EmptyCandidates(old(State()), bound, InBins(bins)), full, run.purge)
      ensures WaitsExactly(run.middle, bound, EmptyCandidates(old(State()), bound, InBins(bins)), full,
                           old(purgeLater), purgeLater)
    {
      ghost var db := State();
      var infos, offsets, dropped; ghost var trimmed, dead;
      infos, offsets, dropped, trimmed, dead := CleanOutdated(bins, binOf, bound);
      ghost var middle := State();
      TrimmedIsSound(db, h, cleaned, bound, InBins(bins), trimmed, offsets, dead, middle);
      CandidatesWillGather(db, bound, bins, infos, trimmed, offsets, dead, middle, dropped);
      ghost var purge, purged, empty, emptyDead;
      purge, purged, empty, emptyDead := PurgeEmptyKeys(infos, binOf, offsets, dropped, bound, full);
      run := CleanRun(Trim(db, bound, InBins(bins)), trimmed, offsets, dead, middle, purge, purged, empty, emptyDead);
    }

    /**
     * Cleans the candidates up to the proposed root, or up to the oldest root a scan still needs.
     * This is a sound step: no current load changes, and the keys purged are exactly those of the
     * slots that vanish, none of them above the last full snapshot.
     */
    method CleanAccounts(bins: seq<set<Pubkey>>, binOf: Pubkey -> nat, proposed: Option<Slot>, oldestScan: Option<Slot>,
                         lastFull: Option<Slot>, ghost h: History, ghost cleaned: Slot)
      returns (ghost bound: Slot, ghost run: CleanRun)
      requires Sound(State(), h, cleaned) && FlushedUpTo(State(), CleanBound(roots, MaxCleanRoot(oldestScan, proposed)))
      requires forall b, k :: 0 <= b < |bins| && k in bins[b] ==> binOf(k) == b
      modifies this`index, this`storage, this`roots, this`purgeLater
      ensures bound == CleanBound(old(roots), MaxCleanRoot(oldestScan, proposed))
      ensures (oldestScan.Some? ==> bound <= oldestScan.value) && (proposed.Some? ==> bound <= proposed.value)
      ensures || oldestScan == Some(bound) || proposed == Some(bound)
              || (oldestScan.None? && proposed.None? && forall r :: r in old(roots) ==> r <= bound)
      ensures TrimsSuperseded(old(State()), bound, InBins(bins), run.trim)
      ensures Step(Runs.State(old(State()), h, cleaned), Clean(bound, run), Runs.State(State(), h, Max(cleaned, bound)))
      ensures Sound(State(), h, Max(cleaned, bound))
      ensures CleansExactly(run.middle, bound, InBins(bins), lastFull, run.purge, old(purgeLater), purgeLater)
      ensures lastFull.Some? ==> SnapshotSafe(Clean(bound, run), lastFull.value)
    {
      ghost var db := State();
      var maxCleanRoot := MaxCleanRoot(oldestScan, proposed);
      var max := MaxRoot();
      var limit := match maxCleanRoot { case Some(root) => root case None => max };
      bound := limit;
      TrimIsExact(db, bound, InBins(bins));
      run := CleanUpTo(bins, binOf, limit, SnapshotLimit(maxCleanRoot, lastFull), h, cleaned);
      CleanIsSound(db, h, cleaned, bound, run, State());
      CleanIsExact(db, bound, InBins(bins), run, maxCleanRoot, lastFull, old(purgeLater), purgeLater);
    }

    // ---- Flushing ----

    /** Appends a record to a storage. */
    method AppendAccount(slot: Slot, stored: Stored)
      requires slot in storage
      modifies this`storage
      ensures slot in storage && storage == old(storage)[slot := storage[slot]]
      ensures forall accounts :: IsFull(old(storage)[slot], old(storage)[slot].id, accounts) ==>
                IsFull(storage[slot], old(storage)[slot].id, accounts + [stored])
    {
      var store := storage[slot];
      forall accounts | IsFull(store, store.id, accounts)
        ensures store.accounts == accounts && IsFull(Store(store.id, accounts + [stored], store.count + 1,
                       store.aliveBytes + StoredSize(|stored.account.data|)), store.id, accounts + [stored])
      {
        FullMore(store, store.id, accounts, stored);
      }
      storage := storage[slot := Store(store.id, store.accounts + [stored], store.count + 1,
                                       store.aliveBytes + StoredSize(|stored.account.data|))];
    }

    /** Writes accounts to a new storage of the slot, one by one. */
    method WriteAccounts(slot: Slot, keep: seq<Stored>)
      modifies this`storage, this`nextId
      ensures slot in storage && storage == old(storage)[slot := storage[slot]]
              && IsFull(storage[slot], old(nextId), keep)
      ensures nextId == old(nextId) + 1
    {
      var id := nextId;
      nextId := nextId + 1;
      storage := storage[slot := Store(id, [], 0, 0)];
      for i := 0 to |keep|
        invariant nextId == id + 1 && slot in storage
        invariant storage == old(storage)[slot := storage[slot]] && IsFull(storage[slot], id, keep[..i])
      {
        assert keep[..i + 1] == keep[..i] + [keep[i]];
        AppendAccount(slot, keep[i]);
      }
      assert keep[..|keep|] == keep;
    }

    /** Points the index at the records of the new storage. */
    method UpdateIndex(slot: Slot, id: StoreId, keep: seq<Stored>)
      requires NoDuplicates(keep)
      modifies this`index
      ensures forall k :: Moved(old(index), slot, id, keep, index, k)
      ensures forall o :: 0 <= o < |keep| ==> var k := keep[o].pubkey;
                && k in index && slot in index[k].slots
                && index[k].slots[slot] == AccountInfo(AppendVec(id, o), keep[o].account.lamports == 0)
                && index[k].refCount ==
                   if k !in old(index) then 1
                   else if slot in old(index)[k].slots && old(index)[k].slots[slot].location != Cached
                     then old(index)[k].refCount else old(index)[k].refCount + 1
    {
      ghost var was := index;
      var done: set<Pubkey> := {};
      for i := 0 to |keep|
        invariant done == KeysOf(keep[..i])
        invariant forall k :: k in done ==> Moved(was, slot, id, keep, index, k)
        invariant forall k :: k !in done ==> SameKey(was, index, k)
      {
        var k := keep[i].pubkey;
        OffsetIsUnique(keep, i);
        assert keep[..i + 1] == keep[..i] + [keep[i]];
        KeysOfMore(keep[..i], keep[i]);
        assert SameKey(was, index, k);
        ghost var before := index;
        index := index[k := Stocked(EntryOf(index, k), slot, StoredInfo(id, keep, i))];
        forall k' | k' in done
          ensures Moved(was, slot, id, keep, index, k')
        {
          assert Moved(was, slot, id, keep, before, k');
        }
        done := done + {k};
      }
      assert keep[..|keep|] == keep;
      forall o | 0 <= o < |keep|
        ensures Moved(was, slot, id, keep, index, keep[o].pubkey) && OffsetOf(keep, keep[o].pubkey) == o
      {
        OffsetIsUnique(keep, o);
      }
    }

    method StoreAccountsFrozen(slot: Slot, keep: seq<Stored>)
      requires NoDuplicates(keep)
      modifies this`index, this`storage, this`nextId
      ensures WroteStorage(old(State()), slot, keep, State())
    {
      var id := nextId;
      WriteAccounts(slot, keep);
      UpdateIndex(slot, id, keep);
    }

    /** Takes keys left behind in a cached slot out of the index. Each of them had its one entry there. */
    method PurgeSlotCachePubkeys(slot: Slot, keys: set<Pubkey>) returns (reclaims: SlotList)
      requires IndexOk(State()) && CacheOk(State()) && slot in cache && keys <= cache[slot].Keys
      modifies this`index
      ensures Removed(old(State()), LeftBehind(keys, slot), State())
      ensures slot !in storage && |reclaims| == |keys|
    {
      assert slot !in storage;
      CachedOnce(State(), slot, keys);
      reclaims := PurgeKeysExact(LeftBehind(keys, slot));
      assert |reclaims| == |keys|;
    }

    /** Drops a slot all of whose accounts are left behind. */
    method DropSlot(slot: Slot)
      requires IndexOk(State()) && CacheOk(State()) && slot in cache
      modifies this`index, this`roots, this`cache
      ensures Flushed(old(State()), slot, [], State())
    {
      ghost var db := State();
      var reclaims := PurgeSlotCachePubkeys(slot, cache[slot].Keys);
      ghost var purged := State();
      roots := roots - {slot};
      cache := cache - {slot};
      IsDropped(db, slot, db.cache[slot].Keys, purged, State());
    }

    /** Moves the chosen accounts of a slot to a new storage. The others leave the index. */
    method MoveSlot(slot: Slot, keep: seq<Stored>, left: set<Pubkey>)
      requires IndexOk(State()) && CacheOk(State()) && Chosen(State(), slot, keep) && keep != []
      requires left + KeysOf(keep) == cache[slot].Keys && left !! KeysOf(keep)
      modifies this`index, this`cache, this`storage, this`nextId
      ensures Flushed(old(State()), slot, keep, State())
    {
      ghost var db := State();
      var reclaims := PurgeSlotCachePubkeys(slot, left);
      ghost var purged := State();
      StoreAccountsFrozen(slot, keep);
      ghost var stored := State();
      cache := cache - {slot};
      IsFlushed(db, slot, keep, left, purged, stored, State());
    }

    /** Moves a slot out of the write cache. While cleaning, keys already written are left behind. */
    method FlushSlot(slot: Slot, written: set<Pubkey>, cleaning: bool)
      returns (written': set<Pubkey>, ghost keep: seq<Stored>)
      requires IndexOk(State()) && CacheOk(State()) && slot in cache
      modifies this`index, this`roots, this`cache, this`storage, this`nextId
      ensures Flushed(old(State()), slot, keep, State())
      ensures KeysOf(keep) == old(cache)[slot].Keys - (if cleaning then written else {})
      ensures written' == if cleaning then written + old(cache)[slot].Keys else written
    {
      var accounts, left;
      accounts, left, written' := ChooseAccounts(cache[slot], written, cleaning);
      keep := accounts;
      if accounts == [] {
        DropSlot(slot);
      } else {
        MoveSlot(slot, accounts, left);
      }
    }

    /** Takes out the unflushed roots up to the given one. */
    method ClearRoots(maxRoot: Option<Slot>) returns (cleared: set<Slot>)
      modifies this`unflushed
      ensures cleared + unflushed == old(unflushed) && cleared !! unflushed
      ensures forall s :: s in old(unflushed) ==> (s in cleared <==> maxRoot.None? || s <= maxRoot.value)
    {
      if maxRoot.Some? {
        var greater := set s | s in unflushed && s > maxRoot.value;
        cleared := unflushed - greater;
        unflushed := greater;
      } else {
        cleared := unflushed;
        unflushed := {};
      }
    }

    /** Flushes one root if it is still in the write cache. */
    method FlushRoot(slot: Slot, written: set<Pubkey>, limit: Option<Slot>, clean: bool,
                     ghost db: Db, ghost h: History, ghost bound: Slot, ghost run: FlushRun)
      returns (written': set<Pubkey>, ghost run': FlushRun)
      requires Inv(db) && RootsOk(db, h.roots) && InFlush(db, bound, clean, limit, run, written, State())
      requires (slot in db.cache ==> slot in db.roots) && (forall s :: s in Slots(run.slots) ==> slot < s)
               && (Cleans(clean, limit, slot) ==> slot <= bound)
      modifies this`index, this`roots, this`cache, this`storage, this`nextId
      ensures InFlush(db, bound, clean, limit, run', written', State()) && run'.states[0] == run.states[0]
      ensures Slots(run'.slots) == Slots(run.slots) + if slot in db.cache then {slot} else {}
    {
      FlushedSoFar(db, h, bound, run);
      written', run' := written, run;
      if slot in cache {
        ghost var cur := State();
        ghost var keep;
        written', keep := FlushSlot(slot, written, clean && (limit.None? || slot <= limit.value));
        InFlushStep(db, h, bound, clean, limit, run, written, cur, slot, keep, State());
        SlotsMore(run.slots, slot);
        run' := Extended(run, slot, keep, State());
      }
    }

    /** Flushes the given roots from newest to oldest. */
    method FlushRoots(flushed: set<Slot>, limit: Option<Slot>, clean: bool, ghost db: Db, ghost h: History)
      returns (ghost run: FlushRun, ghost written: set<Pubkey>)
      requires Inv(db) && RootsOk(db, h.roots) && State() == db.(unflushed := unflushed)
      requires forall s :: s in flushed && s in cache ==> s in roots
      modifies this`index, this`roots, this`cache, this`storage, this`nextId
      ensures InFlush(db, FlushBound(flushed, clean, limit), clean, limit, run, written, State())
      ensures run.states[0].unflushed == unflushed && Slots(run.slots) == flushed * db.cache.Keys
    {
      ghost var bound := FlushBound(flushed, clean, limit);
      run := FlushRun([], [], [State()]);
      var keys: set<Pubkey> := {};
      var todo := flushed;
      while todo != {}
        invariant todo <= flushed && run.states != [] && run.states[0].unflushed == unflushed
        invariant InFlush(db, bound, clean, limit, run, keys, State())
        invariant Slots(run.slots) == (flushed - todo) * db.cache.Keys
        invariant forall s, t :: s in todo && t in flushed && t !in todo ==> s < t
      {
        var slot := Highest(todo);
        todo := todo - {slot};
        keys, run := FlushRoot(slot, keys, limit, clean, db, h, bound, run);
      }
      written := keys;
    }

    /**
     * Flushes the cached roots up to the requested one. This is a sound step, and every root up
     * to the requested one is out of the cache afterwards.
     */
    method FlushRootedAccountsCache(requested: Option<Slot>, oldestScan: Option<Slot>, shouldClean: bool,
                                    ghost h: History, ghost cleaned: Slot)
      returns (ghost bound: Slot, ghost run: FlushRun)
      requires Sound(State(), h, cleaned)
      modifies this`index, this`roots, this`cache, this`unflushed, this`storage, this`nextId
      ensures Step(Runs.State(old(State()), h, cleaned), Flush(bound, run), Runs.State(State(), h, Max(cleaned, bound)))
      ensures Sound(State(), h, Max(cleaned, bound))
      ensures WritesNewest(old(State()), shouldClean, MaxCleanRoot(oldestScan, requested), run) && Descending(run.slots)
      ensures var limit := MaxCleanRoot(oldestScan, requested);
              && (shouldClean ==>
                    forall i, j | 0 <= i < j < |run.slots|
                                  && (limit.Some? ==> run.slots[i] <= limit.value && run.slots[j] <= limit.value) ::
                      KeysOf(run.keeps[i]) !! KeysOf(run.keeps[j]))
              && (forall i | 0 <= i < |run.slots| && (shouldClean ==> limit.Some? && limit.value < run.slots[i]) ::
                    KeysOf(run.keeps[i]) == old(cache)[run.slots[i]].Keys)
              && (bound == 0 || (shouldClean && bound in old(unflushed) && (limit.Some? ==> bound <= limit.value)))
      ensures forall s :: s in cache && s in roots ==> requested.Some? && requested.value < s
    {
      ghost var db := State();
      var limit := MaxCleanRoot(oldestScan, requested);
      var flushed := ClearRoots(requested);
      bound := FlushBound(flushed, shouldClean, limit);
      ghost var written;
      run, written := FlushRoots(flushed, limit, shouldClean, db, h);
      FlushedIsBelow(db, h, cleaned, bound, requested, flushed, shouldClean, limit, run, written, State());
      FlushIsSound(db, h, cleaned, bound, run);
      FlushesOnce(db, shouldClean, limit, run);
    }

    // ---- Shrinking ----

    /** Sorts the newest records of a storage into alive ones, dead ones and those that may vanish. */
    method ShrinkCollect(slot: Slot, lastFull: Option<Slot>)
      returns (alive: seq<Stored>, dead: set<Pubkey>, zeros: set<Pubkey>)
      requires IndexOk(State()) && StoresOk(State()) && RefsOk(State(), map[]) && cache.Keys !! storage.Keys
               && slot in storage
      ensures Sorted(State(), slot, alive, dead, zeros)
      ensures forall k :: k in zeros <==>
                && k in KeysOf(storage[slot].accounts) && IsLive(index, slot, k)
                && index[k].refCount == 1 && index[k].slots[slot].zeroLamport
                && (lastFull.Some? ==> slot <= lastFull.value)
    {
      var accounts := storage[slot].accounts;
      var unique := UniqueAccounts(accounts);
      alive, dead, zeros := [], {}, {};
      for i := 0 to |unique|
        invariant SortedSoFar(State(), slot, lastFull, UniqueKeys(unique[..i]), alive, dead, zeros)
      {
        var stored := accounts[unique[i].offset];
        var k := stored.pubkey;
        RecordIsIndexed(State(), slot, unique[i].offset);
        UniqueKeysMore(unique, i);
        if slot !in index[k].slots {
          dead := dead + {k};
        } else if stored.account.lamports == 0 && index[k].refCount == 1
                  && (lastFull.None? || slot <= lastFull.value) {
          zeros := zeros + {k};
        } else {
          SortAlive(State(), slot, lastFull, UniqueKeys(unique[..i]), alive, dead, zeros, stored);
          alive := alive + [stored];
        }
      }
      assert unique[..|unique|] == unique;
      SortedSoFarIsSorted(State(), slot, lastFull, alive, dead, zeros);
    }

    /** Drops one reference of each of the given keys. */
    method UnrefKeys(keys: set<Pubkey>)
      requires forall k :: k in keys && k in index ==> index[k].refCount > 0
      modifies this`index
      ensures Unreffed(old(index), keys, index)
    {
      var todo := keys;
      while todo != {}
        invariant todo <= keys && index.Keys == old(index).Keys
        invariant forall k :: k in index && k in todo ==> index[k] == old(index)[k]
        invariant forall k :: k in index && k !in todo ==> LostRefs(old(index)[k], if k in keys then 1 else 0, index[k])
      {
        var k :| k in todo;
        todo := todo - {k};
        if k in index {
          index := index[k := index[k].(refCount := index[k].refCount - 1)];
        }
      }
    }

    /** Rewrites a storage with its alive accounts only. Keys without lamports that no other storage holds vanish. */
    method Rewrite(slot: Slot, alive: seq<Stored>, dead: set<Pubkey>, zeros: set<Pubkey>)
      requires IndexOk(State()) && CacheOk(State()) && RefsOk(State(), map[])
      requires slot in storage && Sorted(State(), slot, alive, dead, zeros)
      modifies this`index, this`storage, this`nextId
      ensures Shrunk(old(State()), slot, alive, dead, zeros, State())
    {
      ghost var db := State();
      RecordsAreReferences(db, slot, dead);
      UnrefKeys(dead);
      ghost var unreffed := State();
      StoreAccountsFrozen(slot, alive);
      ghost var stored := State();
      ZerosAreReferenced(db, slot, alive, dead, zeros, unreffed.index, stored.index);
      UnrefKeys(zeros);
      ghost var dropped := State();
      SlotsAreLeft(db, slot, alive, dead, zeros, unreffed.index, stored.index, dropped.index);
      var reclaims := PurgeKeysExact(LeftBehind(zeros, slot));
      IsShrunk(db, slot, alive, dead, zeros, unreffed, stored, dropped, State());
    }

    /**
     * Shrinks a storage unless that would save nothing or leave nothing. This is a sound step, and
     * exactly the keys that may vanish do.
     */
    method ShrinkStorage(slot: Slot, capacity: nat, lastFull: Option<Slot>, ghost h: History, ghost cleaned: Slot)
      returns (shrunk: bool, ghost alive: seq<Stored>, ghost dead: set<Pubkey>, ghost zeros: set<Pubkey>)
      requires Sound(State(), h, cleaned) && slot in storage
      modifies this`index, this`storage, this`nextId
      ensures Sorted(old(State()), slot, alive, dead, zeros)
      ensures forall k :: k in zeros <==>
                && k in KeysOf(old(storage)[slot].accounts) && IsLive(old(index), slot, k)
                && old(index)[k].refCount == 1 && old(index)[k].slots[slot].zeroLamport
                && (lastFull.Some? ==> slot <= lastFull.value)
      ensures lastFull.Some? ==> SnapshotSafe(Shrink(slot, alive, dead, zeros), lastFull.value)
      ensures shrunk <==> 0 < Bytes(alive, Range(|alive|)) < capacity
      ensures !shrunk ==> State() == old(State())
      ensures shrunk ==> Step(Runs.State(old(State()), h, cleaned), Shrink(slot, alive, dead, zeros),
                              Runs.State(State(), h, cleaned))
      ensures Sound(State(), h, cleaned)
    {
      ghost var db := State();
      var live, gone, single := ShrinkCollect(slot, lastFull);
      alive, dead, zeros := live, gone, single;
      var bytes := AliveBytes(live);
      if bytes >= capacity || bytes == 0 {
        return false, alive, dead, zeros;
      }
      Rewrite(slot, live, gone, single);
      ShrinkIsSound(db, h, cleaned, slot, alive, dead, zeros, State());
      shrunk := true;
    }

    // ---- Transactions, roots and readers ----

    /** Puts an account in the write cache. The index entry of the slot stays when there is one. */
    method StoreCached(slot: Slot, k: Pubkey, account: Account)
      modifies this`cache, this`index
      ensures State() == Written(old(State()), slot, k, account)
      ensures slot in cache && k in cache[slot] && IsLive(index, slot, k)
      ensures cache[slot][k] == if account.lamports == 0 then Account(0, []) else account
      ensures if IsLive(old(index), slot, k) then index[k].slots[slot] == old(index)[k].slots[slot]
              else index[k].slots[slot] == AccountInfo(Cached, account.lamports == 0)
    {
      var accounts := if slot in cache then cache[slot] else map[];
      cache := cache[slot := accounts[k := if account.lamports == 0 then Account(0, []) else account]];
      var info := AccountInfo(Cached, account.lamports == 0);
      if k !in index {
        index := index[k := Entry(map[slot := info], 0)];
      } else if slot !in index[k].slots {
        index := index[k := index[k].(slots := index[k].slots[slot := info])];
      } else {
        assert index == index[k := Entry(index[k].slots, index[k].refCount)];
      }
    }

    /** A transaction stores an account in a slot that is not rooted. */
    method StoreAccount(slot: Slot, k: Pubkey, account: Account, ghost h: History, ghost cleaned: Slot)
      requires Sound(State(), h, cleaned) && slot !in h.roots
      modifies this`cache, this`index
      ensures Step(Runs.State(old(State()), h, cleaned), Write(slot, k, account),
                   Runs.State(State(), Remember(h, slot, k, account), cleaned))
      ensures Sound(State(), Remember(h, slot, k, account), cleaned)
    {
      WriteIsSound(State(), h, cleaned, slot, k, account);
      StoreCached(slot, k, account);
    }

    method AddRoot(slot: Slot, ghost h: History, ghost cleaned: Slot)
      requires Sound(State(), h, cleaned) && forall r :: r in h.roots ==> r <= slot
      modifies this`roots, this`unflushed
      ensures Step(Runs.State(old(State()), h, cleaned), Root(slot),
                   Runs.State(State(), h.(roots := h.roots + {slot}), cleaned))
      ensures Sound(State(), h.(roots := h.roots + {slot}), cleaned)
    {
      RootIsSound(State(), h, cleaned, slot);
      unflushed := unflushed + {slot};
      roots := roots + {slot};
    }

    /** The newest slot of a slot list that the reader sees: first among its ancestors, then among the roots. */
    method LatestSlot(slots: map<Slot, AccountInfo>, view: View) returns (r: Option<Slot>)
      ensures r.None? ==> forall s :: s in slots ==> s !in view.ancestors && (s in roots ==> view.maxRoot < s)
      ensures r.Some? ==> r.value in slots
                          && (r.value in view.ancestors || (r.value in roots && r.value <= view.maxRoot))
      ensures r.Some? ==> forall s :: s in slots && (s in view.ancestors || (s in roots && s <= view.maxRoot)) ==>
                            s <= r.value
    {
      r := None;
      var todo := slots.Keys;
      while todo != {}
        invariant todo <= slots.Keys
        invariant r.None? ==> forall s :: s in slots && s in view.ancestors ==> s in todo
        invariant r.Some? ==> r.value in slots && r.value in view.ancestors
        invariant r.Some? ==> forall s :: s in slots && s in view.ancestors ==> s in todo || s <= r.value
      {
        var s :| s in todo;
        todo := todo - {s};
        if (r.None? || s > r.value) && s in view.ancestors {
          r := Some(s);
        }
      }
      todo := slots.Keys;
      while todo != {}
        invariant todo <= slots.Keys
        invariant r.None? ==> forall s :: s in slots && Sees(roots, view, s) ==> s in todo && s !in view.ancestors
        invariant r.Some? ==> r.value in slots && Sees(roots, view, r.value)
        invariant r.Some? ==> forall s :: s in slots && Sees(roots, view, s) ==>
                    s in todo - view.ancestors || s <= r.value
      {
        var s :| s in todo;
        todo := todo - {s};
        if (r.None? || s > r.value) && s <= view.maxRoot && s in roots {
          r := Some(s);
        }
      }
    }

    /** A current reader loads what the reference remembers. */
    method LoadAccount(k: Pubkey, view: View, ghost h: History, ghost cleaned: Slot) returns (r: Option<Account>)
      requires Sound(State(), h, cleaned) && Current(h.roots, cleaned, view)
      ensures r == Recall(h, k, view)
    {
      assert Load(State(), k, view) == Recall(h, k, view);
      if k !in index {
        return None;
      }
      var found := LatestSlot(index[k].slots, view);
      if found.None? {
        assert VisibleSlots(State(), k, view) == {};
        return None;
      }
      assert found.value in VisibleSlots(State(), k, view);
      assert IsLive(index, found.value, k) && Located(State(), k, found.value);
      assert found.value == Newest(VisibleSlots(State(), k, view));
      var account := match index[k].slots[found.value].location
        case Cached => cache[found.value][k]
        case AppendVec(_, o) => storage[found.value].accounts[o].account;
      return if account.lamports == 0 then None else Some(account);
    }
  }
}
