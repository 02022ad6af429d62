/** The single steps of a clean: scanning candidates, tallying slots and choosing what to purge. */
module CleanSteps {
  import opened Types
  import opened Database
  import opened DeleteDependencies
  import opened Reclaiming
  import opened Removing
  import opened Cleaning
  import opened History
  import opened Runs
  import opened ReclaimSteps

  // ---- Scanning ----

  ghost predicate SameKey(index: Index, index': Index, k: Pubkey) {
    (k in index' <==> k in index) && (k in index ==> index'[k] == index[k])
  }

  /** Nothing changes except under the given keys. */
  ghost predicate Without(index: Index, keys: set<Pubkey>, index': Index) {
    forall k :: k !in keys ==> SameKey(index, index', k)
  }

  /** An entry loses some slots, and leaves the index when none is left. */
  ghost predicate EntryLost(entry: Entry, out: set<Slot>, index': Index, k: Pubkey) {
    var rest := entry.slots - out;
    if rest == map[] then k !in index' else k in index' && index'[k] == Entry(rest, entry.refCount)
  }

  ghost predicate Took(slots: map<Slot, AccountInfo>, out: set<Slot>, list: SlotList) {
    && (forall s :: s in slots && s in out ==> (s, slots[s]) in list)
    && (forall item :: item in list ==> item.0 in slots && item.0 in out && item.1 == slots[item.0])
  }

  /** The newest rooted version of the key has no lamports. */
  ghost predicate IsEmptyNow(db: Db, bound: Slot, k: Pubkey) {
    && k in db.index && RootedSlots(db.index[k].slots, db.roots, bound) != {}
    && db.index[k].slots[NewestRoot(db.index[k].slots, db.roots, bound)].zeroLamport
  }

  /** The outdated versions of the given keys. */
  ghost function Trim(db: Db, bound: Slot, keys: set<Pubkey>): Gone {
    map k | k in keys && k in db.index :: Outdated(db.index[k].slots, db.roots, bound)
  }

  /** A version of a candidate is trimmed exactly when it is stored and a newer root up to the bound has the key. */
  ghost predicate TrimsSuperseded(db: Db, bound: Slot, keys: set<Pubkey>, trim: Gone) {
    && (forall k :: k in trim <==> k in keys && k in db.index)
    && (forall k, s :: k in trim ==>
          (s in trim[k] <==>
           && s in db.index[k].slots && db.index[k].slots[s].location != Cached
           && exists r :: r in db.index[k].slots && r in db.roots && s < r <= bound))
  }

  lemma TrimIsExact(db: Db, bound: Slot, keys: set<Pubkey>)
    requires IndexOk(db) && StoresOk(db) && FlushedUpTo(db, bound)
    ensures TrimsSuperseded(db, bound, keys, Trim(db, bound, keys))
  {
    var trim := Trim(db, bound, keys);
    forall k, s | k in trim
      ensures s in trim[k] <==>
              && s in db.index[k].slots && db.index[k].slots[s].location != Cached
              && exists r :: r in db.index[k].slots && r in db.roots && s < r <= bound
    {
      if s in trim[k] {
        OutdatedIsSuperseded(db, bound, trim, k, s);
      } else if r :| r in db.index[k].slots && r in db.roots && s < r <= bound {
        assert r in RootedSlots(db.index[k].slots, db.roots, bound);
      }
    }
  }

  ghost predicate ScannedEntry(db: Db, bound: Slot, index: Index, k: Pubkey) {
    if k in db.index then EntryLost(db.index[k], Outdated(db.index[k].slots, db.roots, bound), index, k)
    else k !in index
  }

  /** Some keys of `db` have been scanned, and what they lost is listed. */
  ghost predicate Scanned(db: Db, bound: Slot, done: set<Pubkey>, index: Index, list: SlotList) {
    && Without(db.index, done, index)
    && (forall k :: k in done ==> ScannedEntry(db, bound, index, k))
    && Lists(db.index, Trim(db, bound, done), list)
  }

  lemma ScanLists(db: Db, bound: Slot, done: set<Pubkey>, k: Pubkey, list: SlotList, taken: SlotList)
    requires Lists(db.index, Trim(db, bound, done), list)
    requires if k in db.index then Took(db.index[k].slots, Outdated(db.index[k].slots, db.roots, bound), taken)
               else taken == []
    ensures Lists(db.index, Trim(db, bound, done + {k}), list + taken)
  {
    var trim, trim' := Trim(db, bound, done), Trim(db, bound, done + {k});
    forall k', s | IsGone(db.index, trim', k', s)
      ensures (s, db.index[k'].slots[s]) in list + taken
    {
      if k' != k {
        assert IsGone(db.index, trim, k', s);
      }
    }
    forall item | item in list + taken
      ensures CameFrom(db.index, trim', item)
    {
      if item in list {
        assert CameFrom(db.index, trim, item);
        var k' :| IsGone(db.index, trim, k', item.0) && item.1 == db.index[k'].slots[item.0];
        assert IsGone(db.index, trim', k', item.0);
      } else {
        assert IsGone(db.index, trim', k, item.0);
      }
    }
  }

  lemma ScanStep(db: Db, bound: Slot, done: set<Pubkey>, k: Pubkey, index: Index, index': Index,
                 list: SlotList, taken: SlotList)
    requires Scanned(db, bound, done, index, list) && k !in done
    requires Without(index, {k}, index') && ScannedEntry(db, bound, index', k)
    requires if k in db.index then Took(db.index[k].slots, Outdated(db.index[k].slots, db.roots, bound), taken)
               else taken == []
    ensures Scanned(db, bound, done + {k}, index', list + taken)
  {
    ScanLists(db, bound, done, k, list, taken);
    forall k'
      ensures k' !in done + {k} ==> SameKey(db.index, index', k')
      ensures k' in done + {k} ==> ScannedEntry(db, bound, index', k')
    {
      if k' != k {
        assert SameKey(index, index', k');
      }
    }
  }

  /** Scanning every candidate trims exactly their outdated versions. */
  lemma ScannedIsTrimmed(db: Db, bound: Slot, keys: set<Pubkey>, db': Db, list: SlotList)
    requires Scanned(db, bound, keys, db'.index, list) && db' == db.(index := db'.index) && IndexOk(db)
    ensures var trim := Trim(db, bound, keys);
            OutdatedOnly(db, bound, trim) && Removed(db, trim, db') && AllStored(db.index, trim)
            && Lists(db.index, trim, list)
  {
    var trim := Trim(db, bound, keys);
    forall k
      ensures RemovedKey(db.index, trim, db'.index, k)
    {
      if k in keys {
        assert ScannedEntry(db, bound, db'.index, k);
      } else {
        assert SameKey(db.index, db'.index, k);
        if k in db.index {
          assert db.index[k].slots - {} == db.index[k].slots;
        }
      }
    }
  }

  ghost function InBins(bins: seq<set<Pubkey>>): set<Pubkey> {
    set b, k | 0 <= b < |bins| && k in bins[b] :: k
  }

  lemma OneMoreBin(bins: seq<set<Pubkey>>, bin: set<Pubkey>)
    ensures InBins(bins + [bin]) == InBins(bins) + bin
  {
    forall k | k in InBins(bins) + bin
      ensures k in InBins(bins + [bin])
    {
      if k in bin {
        assert (bins + [bin])[|bins|] == bin;
      } else {
        var b :| 0 <= b < |bins| && k in bins[b];
        assert (bins + [bin])[b] == bins[b];
      }
    }
  }

  lemma EachBinIsNew(bins: seq<set<Pubkey>>, binOf: Pubkey -> nat, b: nat)
    requires b < |bins| && forall b, k :: 0 <= b < |bins| && k in bins[b] ==> binOf(k) == b
    ensures bins[b] !! InBins(bins[..b])
  {
    forall k | k in InBins(bins[..b])
      ensures binOf(k) < b
    {
      var c :| 0 <= c < b && k in bins[..b][c];
      assert k in bins[c];
    }
  }

  lemma NothingScanned(db: Db, bound: Slot)
    ensures Scanned(db, bound, InBins([]), db.index, [])
  {
    assert InBins([]) == {};
  }

  /** A bin keeps exactly its candidates whose newest rooted version has no lamports. */
  ghost predicate KeptBin(db: Db, bound: Slot, keys: set<Pubkey>, bin: Candidates) {
    && (forall k :: k in bin <==> k in keys && IsEmptyNow(db, bound, k))
    && (forall k :: k in bin ==> ScannedKey(db, bound, bin[k], k))
  }

  ghost predicate Kept(db: Db, bound: Slot, bins: seq<set<Pubkey>>, infos: seq<Candidates>) {
    |infos| == |bins| && forall b :: 0 <= b < |bins| ==> KeptBin(db, bound, bins[b], infos[b])
  }

  // ---- Tallying ----

  ghost predicate TalliedSlot(db: Db, s: Slot, count: StoreCount) {
    && s in db.storage && count.count + |count.pubkeys| == db.storage[s].count
    && count.pubkeys <= KeysAt(db.index, s)
  }

  ghost predicate TalliedSoFar(db: Db, infos: Candidates, counts: StoreCounts) {
    && (forall s :: s in counts ==> TalliedSlot(db, s, counts[s]))
    && Consistent(infos, counts)
    && (forall k, s :: k in infos && s in infos[k].slotList ==> s in counts)
  }

  /** The same, while one more candidate has been counted out of some of its slots. */
  ghost predicate TalliedPart(db: Db, infos: Candidates, k: Pubkey, done: set<Slot>, counts: StoreCounts) {
    && (forall s :: s in counts ==> TalliedSlot(db, s, counts[s]))
    && (forall s, k' :: s in counts ==>
          (k' in counts[s].pubkeys <==> (k' in infos && s in infos[k'].slotList) || (k' == k && s in done)))
    && (forall k', s :: k' in infos && s in infos[k'].slotList ==> s in counts)
    && done <= counts.Keys
  }

  lemma TallyStarts(db: Db, infos: Candidates, k: Pubkey, counts: StoreCounts)
    requires TalliedSoFar(db, infos, counts)
    ensures TalliedPart(db, infos, k, {}, counts)
  {
  }

  lemma TallyEnds(db: Db, infos: Candidates, k: Pubkey, info: CleaningInfo, counts: StoreCounts)
    requires TalliedPart(db, infos, k, info.slotList.Keys, counts) && k !in infos
    ensures TalliedSoFar(db, infos[k := info], counts)
  {
  }

  /** A slot still has an account to count out: the candidate itself. */
  lemma TallyFits(db: Db, infos: Candidates, k: Pubkey, done: set<Slot>, counts: StoreCounts, s: Slot)
    requires TalliedPart(db, infos, k, done, counts) && k !in infos && s !in done
    requires s in db.storage && IsLive(db.index, s, k) && |KeysAt(db.index, s)| == db.storage[s].count
    ensures db.storage[s].count > 0 && (s in counts ==> counts[s].count > 0 && k !in counts[s].pubkeys)
  {
    assert k in KeysAt(db.index, s);
    if s in counts {
      assert TalliedSlot(db, s, counts[s]);
      SubsetSize(counts[s].pubkeys + {k}, KeysAt(db.index, s));
    }
  }

  lemma TallyStep(db: Db, infos: Candidates, k: Pubkey, done: set<Slot>, counts: StoreCounts, s: Slot,
                  counts': StoreCounts)
    requires TalliedPart(db, infos, k, done, counts) && s !in done
    requires s in db.storage && IsLive(db.index, s, k) && db.storage[s].count > 0
    requires s in counts ==> (counts[s].count > 0 && k !in counts[s].pubkeys
                              && counts' == counts[s := StoreCount(counts[s].count - 1, counts[s].pubkeys + {k})])
    requires s !in counts ==> counts' == counts[s := StoreCount(db.storage[s].count - 1, {k})]
    ensures TalliedPart(db, infos, k, done + {s}, counts')
  {
    assert TalliedSlot(db, s, counts'[s]) by {
      assert s in counts ==> TalliedSlot(db, s, counts[s]);
    }
  }

  /** However the clean adjusts the candidate, it is as the dependency calculation expects it. */
  ghost predicate WillGather(db: Db, bound: Slot, info: CleaningInfo, offsets: Reclaims, purged: Gone, k: Pubkey) {
    && (forall s :: s in info.slotList ==> info.slotList[s].location.AppendVec?)
    && forall info' :: AdjustedKey(db, info, offsets, purged, k, info') ==> GatheredKey(db, bound, info', k)
  }

  lemma GatheredIsStored(db: Db, bound: Slot, info: CleaningInfo, k: Pubkey)
    requires IndexOk(db) && FlushedUpTo(db, bound) && GatheredKey(db, bound, info, k)
    ensures forall s :: s in info.slotList ==> s in db.storage && IsLive(db.index, s, k)
  {
    forall s | s in info.slotList
      ensures s in db.storage && IsLive(db.index, s, k)
    {
      RootedAreStored(db, bound, k, s);
    }
  }

  lemma CountsAreKeys(db: Db)
    requires Inv(db)
    ensures forall s :: s in db.storage ==> |KeysAt(db.index, s)| == db.storage[s].count
  {
    forall s | s in db.storage
      ensures |KeysAt(db.index, s)| == db.storage[s].count
    {
      assert CountOk(db.index, s, db.storage[s], {});
      LiveKeys(db, s);
    }
  }

  lemma BinnedMore(bins: seq<Candidates>, binOf: Pubkey -> nat, infos: Candidates, bin: Candidates)
    requires Binned(bins, binOf, infos) && forall k :: k in bin ==> binOf(k) == |bins|
    ensures Binned(bins + [bin], binOf, infos + bin)
  {
    forall b, k | 0 <= b < |bins| + 1 && k in (bins + [bin])[b]
      ensures binOf(k) == b && k in infos + bin && (infos + bin)[k] == (bins + [bin])[b][k]
    {
      if b < |bins| {
        assert k in bins[b];
      }
    }
  }

  // ---- Filtering ----

  ghost predicate AllEmpty(info: CleaningInfo) {
    info.slotList.Keys != {} && forall s :: s in info.slotList ==> info.slotList[s].zeroLamport
  }

  /** All slots of the candidate go, but its newest one is above the last full snapshot. */
  ghost predicate Waits(info: CleaningInfo, left: StoreCounts, full: Option<Slot>) {
    && info.slotList.Keys != {} && (forall s :: s in info.slotList ==> s in left && left[s].count == 0)
    && full.Some? && full.value < Newest(info.slotList.Keys)
  }

  ghost predicate FilteredSoFar(infos: Candidates, left: StoreCounts, full: Option<Slot>, seen: set<Pubkey>,
                                gone: Gone) {
    && (forall k :: k in gone <==> k in seen && k in infos && Passes(infos[k], left, full))
    && (forall k :: k in gone ==> gone[k] == infos[k].slotList.Keys)
  }

  ghost predicate WaitingSoFar(infos: Candidates, left: StoreCounts, full: Option<Slot>, seen: set<Pubkey>,
                               before: set<(Slot, Pubkey)>, after: set<(Slot, Pubkey)>)
  {
    forall s, k :: (s, k) in after <==>
      || (s, k) in before
      || (k in seen && k in infos && Waits(infos[k], left, full) && s == Newest(infos[k].slotList.Keys))
  }

  /** Exactly the candidates that wait for a full snapshot are noted for later. */
  ghost predicate Waiting(infos: Candidates, left: StoreCounts, full: Option<Slot>,
                          before: set<(Slot, Pubkey)>, after: set<(Slot, Pubkey)>)
  {
    WaitingSoFar(infos, left, full, infos.Keys, before, after)
  }

  lemma WaitingStep(infos: Candidates, left: StoreCounts, full: Option<Slot>, seen: set<Pubkey>, more: set<Pubkey>,
                    a: set<(Slot, Pubkey)>, b: set<(Slot, Pubkey)>, c: set<(Slot, Pubkey)>)
    requires WaitingSoFar(infos, left, full, seen, a, b) && WaitingSoFar(infos, left, full, more, b, c)
    ensures WaitingSoFar(infos, left, full, seen + more, a, c)
  {
  }

  // ---- The two parts of a clean ----

  ghost predicate Trimmed(db: Db, bound: Slot, keys: set<Pubkey>, trimmed: Db, offsets: Reclaims, dead: set<Slot>,
                          db': Db) {
    var trim := Trim(db, bound, keys);
    && OutdatedOnly(db, bound, trim) && Removed(db, trim, trimmed)
    && AllStored(db.index, trim) && Collects(db.index, trim, offsets)
    && InvExcept(trimmed, offsets) && Reclaimed(trimmed, offsets, dead, db')
  }

  /** What a scan lists can be reclaimed. */
  lemma ScanIsReclaimable(db: Db, bound: Slot, keys: set<Pubkey>, db': Db, list: SlotList)
    requires Inv(db) && FlushedUpTo(db, bound)
    requires Scanned(db, bound, keys, db'.index, list) && db' == db.(index := db'.index)
    ensures var trim := Trim(db, bound, keys);
            OutdatedOnly(db, bound, trim) && Removed(db, trim, db') && AllStored(db.index, trim)
            && Lists(db.index, trim, list)
    ensures forall item :: item in list ==> item.1.location.AppendVec?
    ensures forall pending :: OffsetsOf(list, pending) ==> InvExcept(db', pending)
  {
    var trim := Trim(db, bound, keys);
    ScannedIsTrimmed(db, bound, keys, db', list);
    forall item | item in list
      ensures item.1.location.AppendVec?
    {
      assert CameFrom(db.index, trim, item);
    }
    forall pending | OffsetsOf(list, pending)
      ensures InvExcept(db', pending)
    {
      ListedAreCollected(db.index, trim, list, pending);
      TrimKeepsInv(db, bound, trim, db', pending);
    }
  }

  ghost predicate Purged(db: Db, bound: Slot, gone: Gone, removed: Db, offsets: Reclaims, dead: set<Slot>, db': Db) {
    && Purgeable(db, bound, gone) && Removed(db, gone, removed)
    && AllStored(db.index, gone) && Collects(db.index, gone, offsets)
    && Reclaimed(removed, offsets, dead, db')
  }

  lemma PurgeIsReclaimable(db: Db, bound: Slot, gone: Gone, db': Db, list: SlotList)
    requires Inv(db) && Purgeable(db, bound, gone) && Removed(db, gone, db') && Lists(db.index, gone, list)
    ensures AllStored(db.index, gone)
    ensures forall item :: item in list ==> item.1.location.AppendVec?
    ensures forall pending :: OffsetsOf(list, pending) ==> InvExcept(db', pending)
  {
    PurgedAreStored(db, bound, gone);
    forall item | item in list
      ensures item.1.location.AppendVec?
    {
      assert CameFrom(db.index, gone, item);
    }
    forall pending | OffsetsOf(list, pending)
      ensures InvExcept(db', pending)
    {
      ListedAreCollected(db.index, gone, list, pending);
      PurgeKeepsInv(db, bound, gone, db', pending);
    }
  }

  ghost function KeysInBins(bins: seq<Candidates>): set<Pubkey> {
    set b, k | 0 <= b < |bins| && k in bins[b] :: k
  }

  lemma BinnedKeys(bins: seq<Candidates>, adjusted: seq<Candidates>, binOf: Pubkey -> nat, infos: Candidates)
    requires |adjusted| == |bins| && forall b :: 0 <= b < |bins| ==> adjusted[b].Keys == bins[b].Keys
    requires Binned(adjusted, binOf, infos)
    ensures infos.Keys == KeysInBins(bins)
  {
    forall k | k in KeysInBins(bins)
      ensures k in infos
    {
      var b :| 0 <= b < |bins| && k in bins[b];
      assert k in adjusted[b];
    }
    forall k | k in infos
      ensures k in KeysInBins(bins)
    {
      assert k in bins[binOf(k)].Keys;
    }
  }

  lemma GatheredAreEmpty(db: Db, bound: Slot, infos: Candidates)
    requires Gathered(db, bound, infos)
    ensures forall k :: k in infos ==> AllEmpty(infos[k])
  {
    forall k | k in infos
      ensures AllEmpty(infos[k])
    {
      assert GatheredKey(db, bound, infos[k], k);
    }
  }

  /** A slot vanishes when every live account in it is a candidate that no other storage holds. */
  ghost predicate Vanishes(db: Db, bound: Slot, cands: set<Pubkey>, full: Option<Slot>, n: Slot) {
    && n in db.storage && n <= bound && (full.Some? ==> n <= full.value)
    && forall k :: k in KeysAt(db.index, n) ==> k in cands && db.index[k].refCount == 1
  }

  /** A key is purged exactly when it is in a slot that vanishes. */
  ghost predicate PurgedExactly(db: Db, bound: Slot, cands: set<Pubkey>, full: Option<Slot>, gone: Gone) {
    forall k :: k in gone <==> exists n: Slot :: k in KeysAt(db.index, n) && Vanishes(db, bound, cands, full, n)
  }

  lemma GatheredAt(db: Db, bound: Slot, infos: Candidates, k: Pubkey, n: Slot)
    requires StoresOk(db) && Gathered(db, bound, infos) && k in infos
    requires k in KeysAt(db.index, n) && n in db.storage && n <= bound
    ensures infos[k].slotList.Keys == {n}
  {
    assert GatheredKey(db, bound, infos[k], k);
    assert n in RootedSlots(db.index[k].slots, db.roots, bound);
  }

  /** Every live account of a slot that vanishes is counted out of it. */
  lemma VanishingIsTallied(db: Db, bound: Slot, infos: Candidates, counts: StoreCounts, full: Option<Slot>, n: Slot,
                           k: Pubkey)
    requires StoresOk(db) && Gathered(db, bound, infos) && TalliedSoFar(db, infos, counts)
    requires k in KeysAt(db.index, n) && Vanishes(db, bound, infos.Keys, full, n)
    ensures n in counts && counts[n].pubkeys == KeysAt(db.index, n)
  {
    forall k | k in KeysAt(db.index, n)
      ensures k in infos && n in infos[k].slotList && n in counts && k in counts[n].pubkeys
    {
      GatheredAt(db, bound, infos, k, n);
    }
    assert TalliedSlot(db, n, counts[n]);
  }

  /** A slot that vanishes is deletable on its own. */
  lemma VanishingIsDeletable(db: Db, bound: Slot, infos: Candidates, counts: StoreCounts, full: Option<Slot>, n: Slot)
    requires StoresOk(db) && Gathered(db, bound, infos) && Consistent(infos, counts)
    requires Vanishes(db, bound, infos.Keys, full, n) && n in counts && counts[n].pubkeys == KeysAt(db.index, n)
    requires counts[n].count == 0
    ensures Deletable(infos, counts, {n})
  {
    forall k, s | k in infos && s in infos[k].slotList && s in {n}
      ensures Removable(infos[k], counts) && infos[k].slotList.Keys <= {n}
    {
      assert k in counts[n].pubkeys;
      GatheredAt(db, bound, infos, k, n);
      assert |infos[k].slotList| == |infos[k].slotList.Keys|;
      assert GatheredKey(db, bound, infos[k], k);
    }
  }

  /** Every live account of a slot that passes is a candidate no other storage holds. */
  lemma PassingIsHeldOnce(db: Db, bound: Slot, infos: Candidates, counts: StoreCounts, slots: set<Slot>, n: Slot,
                          k: Pubkey)
    requires Gathered(db, bound, infos) && Consistent(infos, counts) && Deletable(infos, counts, slots)
    requires n in slots && KeysAt(db.index, n) == counts[n].pubkeys && k in KeysAt(db.index, n)
    ensures k in infos && db.index[k].refCount == 1
  {
    assert k in counts[n].pubkeys && n in infos[k].slotList;
    assert GatheredKey(db, bound, infos[k], k) && Removable(infos[k], counts);
    assert |infos[k].slotList| == |infos[k].slotList.Keys|;
  }

  lemma TalliedSoFarIsTallied(db: Db, infos: Candidates, counts: StoreCounts)
    requires TalliedSoFar(db, infos, counts)
    ensures Tallied(db, infos, counts)
  {
    forall s | s in counts
      ensures s in db.storage && counts[s].count + |counts[s].pubkeys| == db.storage[s].count
    {
      assert TalliedSlot(db, s, counts[s]);
    }
  }

  lemma PassingVanishes(db: Db, bound: Slot, infos: Candidates, counts: StoreCounts, left: StoreCounts,
                        full: Option<Slot>, k: Pubkey, n: Slot)
    requires Gathered(db, bound, infos) && Tallied(db, infos, counts)
    requires forall s :: s in db.storage ==> |KeysAt(db.index, s)| == db.storage[s].count
    requires Deletable(infos, counts, left.Keys) && forall s :: s in left ==> left[s] == counts[s]
    requires k in infos && infos[k].slotList.Keys == {n} && Passes(infos[k], left, full)
    ensures k in KeysAt(db.index, n) && Vanishes(db, bound, infos.Keys, full, n)
  {
    assert n in infos[k].slotList && n in left;
    assert GatheredKey(db, bound, infos[k], k) && n in RootedSlots(db.index[k].slots, db.roots, bound);
    ZeroCountIsAllCandidates(db, bound, infos, counts, n);
    forall k' | k' in KeysAt(db.index, n)
      ensures k' in infos && db.index[k'].refCount == 1
    {
      PassingIsHeldOnce(db, bound, infos, counts, left.Keys, n, k');
    }
  }

  lemma VanishingPasses(db: Db, bound: Slot, infos: Candidates, counts: StoreCounts, left: StoreCounts,
                        full: Option<Slot>, k: Pubkey, n: Slot)
    requires StoresOk(db) && Gathered(db, bound, infos) && TalliedSoFar(db, infos, counts)
    requires forall s :: s in db.storage ==> |KeysAt(db.index, s)| == db.storage[s].count
    requires LargestDeletable(infos, counts, left.Keys) && forall s :: s in left ==> left[s] == counts[s]
    requires k in KeysAt(db.index, n) && Vanishes(db, bound, infos.Keys, full, n)
    ensures k in infos && Passes(infos[k], left, full) && infos[k].slotList.Keys == {n}
  {
    VanishingIsTallied(db, bound, infos, counts, full, n, k);
    assert TalliedSlot(db, n, counts[n]);
    VanishingIsDeletable(db, bound, infos, counts, full, n);
    GatheredAt(db, bound, infos, k, n);
    assert n in left;
  }

  /** The dependency calculation and the filter purge exactly the keys of the slots that vanish. */
  lemma FilterIsExact(db: Db, bound: Slot, infos: Candidates, counts: StoreCounts, left: StoreCounts,
                      full: Option<Slot>, gone: Gone)
    requires StoresOk(db) && Gathered(db, bound, infos) && TalliedSoFar(db, infos, counts)
    requires forall s :: s in db.storage ==> |KeysAt(db.index, s)| == db.storage[s].count
    requires LargestDeletable(infos, counts, left.Keys) && forall s :: s in left ==> left[s] == counts[s]
    requires Filtered(infos, left, full, gone)
    ensures PurgedExactly(db, bound, infos.Keys, full, gone)
  {
    TalliedSoFarIsTallied(db, infos, counts);
    forall k | k in gone
      ensures exists n: Slot :: k in KeysAt(db.index, n) && Vanishes(db, bound, infos.Keys, full, n)
    {
      assert GatheredKey(db, bound, infos[k], k);
      var n :| infos[k].slotList.Keys == {n};
      PassingVanishes(db, bound, infos, counts, left, full, k, n);
    }
    forall k, n | k in KeysAt(db.index, n) && Vanishes(db, bound, infos.Keys, full, n)
      ensures k in gone
    {
      VanishingPasses(db, bound, infos, counts, left, full, k, n);
    }
  }

  /** Noted for later are exactly the keys of slots that would vanish, but lie above the snapshot. */
  ghost predicate WaitsExactly(db: Db, bound: Slot, cands: set<Pubkey>, full: Option<Slot>, before: set<(Slot, Pubkey)>,
                               after: set<(Slot, Pubkey)>)
  {
    forall n: Slot, k: Pubkey :: (n, k) in after <==>
      || (n, k) in before
      || (full.Some? && full.value < n && k in KeysAt(db.index, n) && Vanishes(db, bound, cands, None, n))
  }

  lemma WaitingVanishes(db: Db, bound: Slot, infos: Candidates, counts: StoreCounts, left: StoreCounts,
                        full: Option<Slot>, k: Pubkey)
    requires Gathered(db, bound, infos) && Tallied(db, infos, counts)
    requires forall s :: s in db.storage ==> |KeysAt(db.index, s)| == db.storage[s].count
    requires Deletable(infos, counts, left.Keys) && forall s :: s in left ==> left[s] == counts[s]
    requires k in infos && Waits(infos[k], left, full)
    ensures var n := Newest(infos[k].slotList.Keys);
            full.value < n && k in KeysAt(db.index, n) && Vanishes(db, bound, infos.Keys, None, n)
  {
    assert GatheredKey(db, bound, infos[k], k);
    var n :| infos[k].slotList.Keys == {n};
    PassingVanishes(db, bound, infos, counts, left, None, k, n);
  }

  lemma VanishingWaits(db: Db, bound: Slot, infos: Candidates, counts: StoreCounts, left: StoreCounts,
                       full: Option<Slot>, k: Pubkey, n: Slot)
    requires StoresOk(db) && Gathered(db, bound, infos) && TalliedSoFar(db, infos, counts)
    requires forall s :: s in db.storage ==> |KeysAt(db.index, s)| == db.storage[s].count
    requires LargestDeletable(infos, counts, left.Keys) && forall s :: s in left ==> left[s] == counts[s]
    requires full.Some? && full.value < n && k in KeysAt(db.index, n) && Vanishes(db, bound, infos.Keys, None, n)
    ensures k in infos && Waits(infos[k], left, full) && n == Newest(infos[k].slotList.Keys)
  {
    VanishingPasses(db, bound, infos, counts, left, None, k, n);
    PassingWaits(infos[k], left, full, n);
  }

  lemma PassingWaits(info: CleaningInfo, left: StoreCounts, full: Option<Slot>, n: Slot)
    requires info.slotList.Keys == {n} && Passes(info, left, None) && full.Some? && full.value < n
    ensures Waits(info, left, full) && n == Newest(info.slotList.Keys)
  {
  }

  lemma WaitingIsExact(db: Db, bound: Slot, infos: Candidates, counts: StoreCounts, left: StoreCounts,
                       full: Option<Slot>, before: set<(Slot, Pubkey)>, after: set<(Slot, Pubkey)>)
    requires Inv(db) && Gathered(db, bound, infos) && TalliedSoFar(db, infos, counts)
    requires LargestDeletable(infos, counts, left.Keys) && forall s :: s in left ==> left[s] == counts[s]
    requires Waiting(infos, left, full, before, after)
    ensures WaitsExactly(db, bound, infos.Keys, full, before, after)
  {
    CountsAreKeys(db);
    TalliedSoFarIsTallied(db, infos, counts);
    forall k | k in infos && Waits(infos[k], left, full)
      ensures var n := Newest(infos[k].slotList.Keys);
              full.value < n && k in KeysAt(db.index, n) && Vanishes(db, bound, infos.Keys, None, n)
    {
      WaitingVanishes(db, bound, infos, counts, left, full, k);
    }
    forall n: Slot, k: Pubkey | full.Some? && full.value < n && k in KeysAt(db.index, n)
                                && Vanishes(db, bound, infos.Keys, None, n)
      ensures k in infos && Waits(infos[k], left, full) && n == Newest(infos[k].slotList.Keys)
    {
      VanishingWaits(db, bound, infos, counts, left, full, k, n);
    }
  }

  /** What is chosen can be purged, and is all that can. */
  lemma ChosenRightly(db: Db, bound: Slot, infos: Candidates, counts: StoreCounts, left: StoreCounts,
                      full: Option<Slot>, gone: Gone)
    requires Inv(db) && FlushedUpTo(db, bound) && Gathered(db, bound, infos) && TalliedSoFar(db, infos, counts)
    requires LargestDeletable(infos, counts, left.Keys) && forall s :: s in left ==> left[s] == counts[s]
    requires Filtered(infos, left, full, gone)
    ensures Purgeable(db, bound, gone) && PurgedExactly(db, bound, infos.Keys, full, gone)
  {
    CountsAreKeys(db);
    TalliedSoFarIsTallied(db, infos, counts);
    FilteredArePurgeable(db, bound, infos, counts, left, full, gone);
    FilterIsExact(db, bound, infos, counts, left, full, gone);
  }

  /** Cleaning stops at the proposed root, or earlier when an ongoing scan needs an older one. */
  function MaxCleanRoot(oldestScan: Option<Slot>, proposed: Option<Slot>): (r: Option<Slot>)
    ensures r.None? <==> oldestScan.None? && proposed.None?
    ensures r.Some? ==> r == oldestScan || r == proposed
    ensures r.Some? && oldestScan.Some? ==> r.value <= oldestScan.value
    ensures r.Some? && proposed.Some? ==> r.value <= proposed.value
  {
    match (oldestScan, proposed)
    case (None, None) => None
    case (Some(root), None) => Some(root)
    case (None, Some(root)) => Some(root)
    case (Some(a), Some(b)) => Some(if a < b then a else b)
  }

  ghost function CleanBound(roots: set<Slot>, maxCleanRoot: Option<Slot>): Slot {
    match maxCleanRoot
    case Some(root) => root
    case None => if roots == {} then 0 else Newest(roots)
  }

  /** Keys without lamports are held back only when the clean reaches past the last full snapshot. */
  function SnapshotLimit(maxCleanRoot: Option<Slot>, lastFull: Option<Slot>): Option<Slot> {
    if lastFull.Some? && (maxCleanRoot.None? || maxCleanRoot.value > lastFull.value) then lastFull else None
  }

  ghost function EmptyCandidates(db: Db, bound: Slot, keys: set<Pubkey>): set<Pubkey> {
    set k | k in keys && IsEmptyNow(db, bound, k)
  }

  lemma TrimmedIsSound(db: Db, h: History, cleaned: Slot, bound: Slot, keys: set<Pubkey>, trimmed: Db,
                       offsets: Reclaims, dead: set<Slot>, middle: Db)
    requires Sound(db, h, cleaned) && FlushedUpTo(db, bound) && Trimmed(db, bound, keys, trimmed, offsets, dead, middle)
    ensures Inv(middle) && FlushedUpTo(middle, bound)
  {
    TrimIsSound(db, h, cleaned, bound,
                CleanRun(Trim(db, bound, keys), trimmed, offsets, dead, middle, map[], middle, map[], {}));
  }

  /** Every live account of the slot is a key to clean, without lamports, that no other storage holds. */
  ghost predicate EmptySlot(db: Db, bound: Slot, keys: set<Pubkey>, n: Slot) {
    && n in db.storage && n <= bound
    && forall k :: IsLive(db.index, n, k) ==>
         k in keys && db.index[k].refCount == 1 && db.index[k].slots[n].zeroLamport
  }

  /** A rooted version that is not outdated is the newest one. */
  lemma NewestIsLeft(slots: map<Slot, AccountInfo>, roots: set<Slot>, bound: Slot, n: Slot)
    requires n in slots && n in roots && n <= bound && slots[n].location != Cached
             && n !in Outdated(slots, roots, bound)
    ensures n in RootedSlots(slots, roots, bound) && NewestRoot(slots, roots, bound) == n
  {
    assert n in RootedSlots(slots, roots, bound);
  }

  /** After the first part of a clean, a key to clean is a candidate exactly when what is left of it has no lamports. */
  lemma CandidateAt(db: Db, bound: Slot, keys: set<Pubkey>, trimmed: Db, k: Pubkey, n: Slot)
    requires Removed(db, Trim(db, bound, keys), trimmed) && IsLive(trimmed.index, n, k) && k in keys
    requires n in db.roots && n <= bound && trimmed.index[k].slots[n].location != Cached
    ensures IsEmptyNow(db, bound, k) <==> trimmed.index[k].slots[n].zeroLamport
  {
    RemoveLiveness(db, Trim(db, bound, keys), trimmed, k, n);
    NewestIsLeft(db.index[k].slots, db.roots, bound, n);
  }

  lemma ReclaimedSlots(trimmed: Db, offsets: Reclaims, dead: set<Slot>, middle: Db, k: Pubkey, n: Slot)
    requires Reclaimed(trimmed, offsets, dead, middle)
    ensures IsLive(middle.index, n, k) <==> IsLive(trimmed.index, n, k)
    ensures IsLive(middle.index, n, k) ==> middle.index[k].slots[n] == trimmed.index[k].slots[n]
    ensures n in middle.storage ==> n in trimmed.storage
  {
  }

  lemma VanishingKey(db: Db, bound: Slot, keys: set<Pubkey>, trimmed: Db, offsets: Reclaims, dead: set<Slot>,
                     middle: Db, k: Pubkey, n: Slot)
    requires StoresOk(db) && Removed(db, Trim(db, bound, keys), trimmed) && Reclaimed(trimmed, offsets, dead, middle)
    requires IndexOk(middle) && CacheOk(middle) && IsLive(middle.index, n, k) && n in middle.storage && n <= bound
    ensures k in EmptyCandidates(db, bound, keys) <==> k in keys && middle.index[k].slots[n].zeroLamport
  {
    ReclaimedSlots(trimmed, offsets, dead, middle, k, n);
    assert Located(middle, k, n);
    if k in keys {
      CandidateAt(db, bound, keys, trimmed, k, n);
    }
  }

  ghost predicate CandidatesAt(db: Db, cands: set<Pubkey>, keys: set<Pubkey>, n: Slot) {
    forall k :: IsLive(db.index, n, k) ==> (k in cands <==> k in keys && db.index[k].slots[n].zeroLamport)
  }

  lemma SameEmpty(db: Db, bound: Slot, cands: set<Pubkey>, keys: set<Pubkey>, n: Slot)
    requires n in db.storage && n <= bound ==> CandidatesAt(db, cands, keys, n)
    ensures Vanishes(db, bound, cands, None, n) <==> EmptySlot(db, bound, keys, n)
  {
    forall k
      ensures k in KeysAt(db.index, n) <==> IsLive(db.index, n, k)
    {
    }
  }

  /** So the slots that vanish are the empty ones. */
  lemma VanishingAreEmpty(db: Db, bound: Slot, keys: set<Pubkey>, trimmed: Db, offsets: Reclaims, dead: set<Slot>,
                          middle: Db, n: Slot)
    requires StoresOk(db) && Removed(db, Trim(db, bound, keys), trimmed) && Reclaimed(trimmed, offsets, dead, middle)
    requires IndexOk(middle) && CacheOk(middle)
    ensures Vanishes(middle, bound, EmptyCandidates(db, bound, keys), None, n) <==> EmptySlot(middle, bound, keys, n)
  {
    if n in middle.storage && n <= bound {
      forall k | IsLive(middle.index, n, k)
        ensures k in EmptyCandidates(db, bound, keys) <==> k in keys && middle.index[k].slots[n].zeroLamport
      {
        VanishingKey(db, bound, keys, trimmed, offsets, dead, middle, k, n);
      }
      assert CandidatesAt(middle, EmptyCandidates(db, bound, keys), keys, n);
    }
    SameEmpty(middle, bound, EmptyCandidates(db, bound, keys), keys, n);
  }

  /**
   * A key is purged exactly when it is in an empty slot up to the last full snapshot, and noted for
   * later exactly when it is in an empty slot above it.
   */
  ghost predicate CleansExactly(middle: Db, bound: Slot, keys: set<Pubkey>, lastFull: Option<Slot>, purge: Gone,
                                before: set<(Slot, Pubkey)>, after: set<(Slot, Pubkey)>)
  {
    && (forall k :: k in purge <==>
          exists n: Slot :: IsLive(middle.index, n, k) && EmptySlot(middle, bound, keys, n)
                            && (lastFull.Some? ==> n <= lastFull.value))
    && (forall n: Slot, k: Pubkey :: (n, k) in after <==>
          || (n, k) in before
          || (lastFull.Some? && lastFull.value < n && IsLive(middle.index, n, k) && EmptySlot(middle, bound, keys, n)))
  }

  /** The slots that vanish are the empty ones. */
  ghost predicate EmptyVanish(middle: Db, bound: Slot, cands: set<Pubkey>, keys: set<Pubkey>) {
    forall n: Slot :: Vanishes(middle, bound, cands, None, n) <==> EmptySlot(middle, bound, keys, n)
  }

  lemma LimitedIsExact(middle: Db, bound: Slot, cands: set<Pubkey>, keys: set<Pubkey>, maxCleanRoot: Option<Slot>,
                       lastFull: Option<Slot>, purge: Gone, before: set<(Slot, Pubkey)>, after: set<(Slot, Pubkey)>)
    requires EmptyVanish(middle, bound, cands, keys) && (maxCleanRoot.Some? ==> maxCleanRoot.value == bound)
    requires PurgedExactly(middle, bound, cands, SnapshotLimit(maxCleanRoot, lastFull), purge)
    requires WaitsExactly(middle, bound, cands, SnapshotLimit(maxCleanRoot, lastFull), before, after)
    ensures CleansExactly(middle, bound, keys, lastFull, purge, before, after)
  {
    var full := SnapshotLimit(maxCleanRoot, lastFull);
    forall n: Slot
      ensures Vanishes(middle, bound, cands, full, n)
              <==> EmptySlot(middle, bound, keys, n) && (lastFull.Some? ==> n <= lastFull.value)
    {
      assert Vanishes(middle, bound, cands, None, n) <==> EmptySlot(middle, bound, keys, n);
    }
    forall n: Slot, k: Pubkey
      ensures k in KeysAt(middle.index, n) <==> IsLive(middle.index, n, k)
    {
    }
  }

  /** What a clean purges and notes for later, whatever limit it works with. */
  lemma CleanIsExact(db: Db, bound: Slot, keys: set<Pubkey>, run: CleanRun, maxCleanRoot: Option<Slot>,
                     lastFull: Option<Slot>, before: set<(Slot, Pubkey)>, after: set<(Slot, Pubkey)>)
    requires StoresOk(db) && TrimStep(db, bound, run) && run.trim == Trim(db, bound, keys)
    requires IndexOk(run.middle) && CacheOk(run.middle) && StoresOk(run.middle)
             && Purgeable(run.middle, bound, run.purge)
    requires maxCleanRoot.Some? ==> maxCleanRoot.value == bound
    requires PurgedExactly(run.middle, bound, EmptyCandidates(db, bound, keys), SnapshotLimit(maxCleanRoot, lastFull),
                           run.purge)
    requires WaitsExactly(run.middle, bound, EmptyCandidates(db, bound, keys), SnapshotLimit(maxCleanRoot, lastFull),
                          before, after)
    ensures CleansExactly(run.middle, bound, keys, lastFull, run.purge, before, after)
    ensures lastFull.Some? ==> forall k, s :: k in run.purge && s in run.purge[k] ==> s <= lastFull.value
  {
    var cands := EmptyCandidates(db, bound, keys);
    forall n: Slot
      ensures Vanishes(run.middle, bound, cands, None, n) <==> EmptySlot(run.middle, bound, keys, n)
    {
      VanishingAreEmpty(db, bound, keys, run.trimmed, run.outdated, run.outDead, run.middle, n);
    }
    LimitedIsExact(run.middle, bound, cands, keys, maxCleanRoot, lastFull, run.purge, before, after);
    PurgedBelowSnapshot(bound, keys, lastFull, run, before, after);
  }

  /** Nothing is purged from a slot above the last full snapshot. */
  lemma PurgedBelowSnapshot(bound: Slot, keys: set<Pubkey>, lastFull: Option<Slot>, run: CleanRun,
                            before: set<(Slot, Pubkey)>, after: set<(Slot, Pubkey)>)
    requires StoresOk(run.middle) && Purgeable(run.middle, bound, run.purge)
    requires CleansExactly(run.middle, bound, keys, lastFull, run.purge, before, after)
    ensures lastFull.Some? ==> forall k, s :: k in run.purge && s in run.purge[k] ==> s <= lastFull.value
  {
    forall k, s | lastFull.Some? && k in run.purge && s in run.purge[k]
      ensures s <= lastFull.value
    {
      assert PurgeableKey(run.middle, bound, run.purge, k);
      var n: Slot :| IsLive(run.middle.index, n, k) && EmptySlot(run.middle, bound, keys, n) && n <= lastFull.value;
      assert n in run.middle.roots && n in RootedSlots(run.middle.index[k].slots, run.middle.roots, bound);
      SubsetSameSize({n}, run.purge[k]);
    }
  }

  lemma CandidatesWillGather(db: Db, bound: Slot, bins: seq<set<Pubkey>>, infos: seq<Candidates>, trimmed: Db,
                             offsets: Reclaims, dead: set<Slot>, middle: Db, purged: Gone)
    requires Inv(db) && FlushedUpTo(db, bound) && Kept(db, bound, bins, infos)
    requires Trimmed(db, bound, InBins(bins), trimmed, offsets, dead, middle) && PurgedSlots(trimmed, dead, purged)
    ensures forall b, k :: 0 <= b < |infos| && k in infos[b] ==>
              WillGather(middle, bound, infos[b][k], offsets, purged, k)
    ensures KeysInBins(infos) == EmptyCandidates(db, bound, InBins(bins))
  {
    forall b, k | 0 <= b < |infos| && k in infos[b]
      ensures WillGather(middle, bound, infos[b][k], offsets, purged, k)
    {
      assert KeptBin(db, bound, bins[b], infos[b]) && k in bins[b];
      CandidateWillGather(db, bound, InBins(bins), infos[b][k], trimmed, offsets, dead, middle, purged, k);
    }
    forall k
      ensures k in KeysInBins(infos) <==> k in EmptyCandidates(db, bound, InBins(bins))
    {
      if k in KeysInBins(infos) {
        var b :| 0 <= b < |infos| && k in infos[b];
        assert KeptBin(db, bound, bins[b], infos[b]);
      }
      if k in EmptyCandidates(db, bound, InBins(bins)) {
        var b :| 0 <= b < |bins| && k in bins[b];
        assert KeptBin(db, bound, bins[b], infos[b]);
      }
    }
  }

  lemma CandidateWillGather(db: Db, bound: Slot, keys: set<Pubkey>, info: CleaningInfo, trimmed: Db,
                            offsets: Reclaims, dead: set<Slot>, middle: Db, purged: Gone, k: Pubkey)
    requires Inv(db) && FlushedUpTo(db, bound) && k in keys && ScannedKey(db, bound, info, k)
    requires Trimmed(db, bound, keys, trimmed, offsets, dead, middle) && PurgedSlots(trimmed, dead, purged)
    ensures WillGather(middle, bound, info, offsets, purged, k)
  {
    forall s | s in info.slotList
      ensures info.slotList[s].location.AppendVec?
    {
      RootedAreStored(db, bound, k, s);
    }
    forall info' | AdjustedKey(middle, info, offsets, purged, k, info')
      ensures GatheredKey(middle, bound, info', k)
    {
      AdjustedIsGathered(db, bound, Trim(db, bound, keys), trimmed, offsets, dead, middle, purged, info, k, info');
    }
  }

  lemma OnlyOne(slots: map<Slot, AccountInfo>, s: Slot)
    requires s in slots && |slots| <= 1
    ensures slots.Keys == {s}
  {
    SubsetSameSize({s}, slots.Keys);
  }
}
