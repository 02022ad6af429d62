/** The single steps of a flush: choosing what to write, writing it and pointing the index at it. */
module FlushMoves {
  import opened Types
  import opened Database
  import opened Flushing
  import opened Removing
  import opened History
  import opened Runs
  import opened ReclaimSteps
  import opened CleanSteps

  /**
   * Splits the accounts of a slot into those to write and those to leave behind. While cleaning,
   * a key that a newer slot already wrote is left behind.
   */
  method ChooseAccounts(accounts: map<Pubkey, Account>, written: set<Pubkey>, cleaning: bool)
    returns (keep: seq<Stored>, left: set<Pubkey>, written': set<Pubkey>)
    ensures NoDuplicates(keep)
    ensures forall o :: 0 <= o < |keep| ==> keep[o].pubkey in accounts && keep[o].account == accounts[keep[o].pubkey]
    ensures left + KeysOf(keep) == accounts.Keys && left !! KeysOf(keep) && (keep == [] ==> left == accounts.Keys)
    ensures KeysOf(keep) == accounts.Keys - if cleaning then written else {}
    ensures written' == if cleaning then written + accounts.Keys else written
  {
    keep, left, written' := [], {}, written;
    var todo := accounts.Keys;
    while todo != {}
      invariant todo <= accounts.Keys && NoDuplicates(keep)
      invariant forall o :: 0 <= o < |keep| ==>
                  keep[o].pubkey in accounts && keep[o].account == accounts[keep[o].pubkey]
      invariant left == if cleaning then (accounts.Keys - todo) * written else {}
      invariant KeysOf(keep) == accounts.Keys - todo - left
      invariant written' == if cleaning then written + (accounts.Keys - todo) else written
    {
      var k :| k in todo;
      todo := todo - {k};
      if cleaning && k in written' {
        left := left + {k};
      } else {
        KeysOfMore(keep, Stored(k, accounts[k]));
        keep := keep + [Stored(k, accounts[k])];
      }
      written' := if cleaning then written' + {k} else written';
    }
  }

  lemma KeysOfMore(keep: seq<Stored>, stored: Stored)
    ensures KeysOf(keep + [stored]) == KeysOf(keep) + {stored.pubkey}
  {
    forall k | k in KeysOf(keep) + {stored.pubkey}
      ensures k in KeysOf(keep + [stored])
    {
      if k == stored.pubkey {
        assert (keep + [stored])[|keep|] == stored;
      } else {
        var o :| 0 <= o < |keep| && keep[o].pubkey == k;
        assert (keep + [stored])[o] == keep[o];
      }
    }
  }

  /** Appending a record adds its stored size. */
  lemma BytesMore(keep: seq<Stored>, stored: Stored)
    ensures Bytes(keep + [stored], Range(|keep| + 1)) == Bytes(keep, Range(|keep|)) + StoredSize(|stored.account.data|)
  {
    var n := |keep|;
    assert (keep + [stored])[..n] == keep;
    assert Range(n + 1) == Range(n) + {n};
    BytesSplit(keep, Range(n), {n});
    NoBytes(keep, {n});
  }

  /** A storage all of whose records count. */
  ghost predicate IsFull(store: Store, id: StoreId, accounts: seq<Stored>) {
    store == Store(id, accounts, |accounts|, Bytes(accounts, Range(|accounts|)))
  }

  lemma FullMore(store: Store, id: StoreId, accounts: seq<Stored>, stored: Stored)
    requires IsFull(store, id, accounts)
    ensures IsFull(Store(id, accounts + [stored], store.count + 1,
                         store.aliveBytes + StoredSize(|stored.account.data|)),
                   id, accounts + [stored])
  {
    BytesMore(accounts, stored);
  }

  /** The slot is to be taken out of each of these keys. */
  function LeftBehind(left: set<Pubkey>, slot: Slot): Gone {
    map k | k in left :: {slot}
  }

  /** Each cached key of a slot has one entry there to lose. */
  lemma CachedOnce(db: Db, slot: Slot, keys: set<Pubkey>)
    requires CacheOk(db) && slot in db.cache && keys <= db.cache[slot].Keys
    ensures OneEntryEach(db.index, LeftBehind(keys, slot)) && |LeftBehind(keys, slot)| == |keys|
  {
    forall k | k in keys
      ensures Lost(db.index, k, {slot}) == 1
    {
      assert IsLive(db.index, slot, k);
      assert db.index[k].slots.Keys * {slot} == {slot};
    }
    assert LeftBehind(keys, slot).Keys == keys;
    assert |LeftBehind(keys, slot)| == |LeftBehind(keys, slot).Keys|;
  }

  /** A stored version that replaces a cached one of the slot is one more reference. */
  function NewRefs(entry: Entry, slot: Slot): nat {
    if slot in entry.slots && entry.slots[slot].location.AppendVec? then 0 else 1
  }

  /** The entry of a key, which is empty when the index has none. */
  function EntryOf(index: Index, k: Pubkey): Entry {
    if k in index then index[k] else Entry(map[], 0)
  }

  /** An entry that points to a record of the slot. */
  function Stocked(entry: Entry, slot: Slot, info: AccountInfo): Entry {
    Entry(entry.slots[slot := info], entry.refCount + NewRefs(entry, slot))
  }

  /** A key that was written points to its record. Other keys stay as they are. */
  ghost predicate Moved(index: Index, slot: Slot, id: StoreId, keep: seq<Stored>, index': Index, k: Pubkey) {
    if k in KeysOf(keep) then
      k in index' && index'[k] == Stocked(EntryOf(index, k), slot, StoredInfo(id, keep, OffsetOf(keep, k)))
    else SameKey(index, index', k)
  }

  /** The accounts are in a new storage of the slot, and the index points to it. */
  ghost predicate WroteStorage(db: Db, slot: Slot, keep: seq<Stored>, db': Db) {
    && slot in db'.storage && IsFull(db'.storage[slot], db.nextId, keep)
    && db' == db.(index := db'.index, nextId := db.nextId + 1, storage := db.storage[slot := db'.storage[slot]])
    && forall k :: Moved(db.index, slot, db.nextId, keep, db'.index, k)
  }

  lemma OffsetIsUnique(keep: seq<Stored>, o: Offset)
    requires NoDuplicates(keep) && o < |keep|
    ensures keep[o].pubkey in KeysOf(keep) && OffsetOf(keep, keep[o].pubkey) == o
  {
  }

  lemma IsFlushedIndex(db: Db, slot: Slot, keep: seq<Stored>, left: set<Pubkey>, purged: Db, index': Index)
    requires CacheOk(db) && IndexOk(db)
    requires slot in db.cache && left + KeysOf(keep) == db.cache[slot].Keys && left !! KeysOf(keep)
    requires Removed(db, LeftBehind(left, slot), purged)
    requires forall k :: Moved(purged.index, slot, db.nextId, keep, index', k)
    ensures forall k :: FlushedKey(db, slot, keep, index', k)
  {
    forall k
      ensures FlushedKey(db, slot, keep, index', k)
    {
      assert RemovedKey(db.index, LeftBehind(left, slot), purged.index, k)
             && Moved(purged.index, slot, db.nextId, keep, index', k);
      assert k in db.cache[slot] ==> IsLive(db.index, slot, k) && Located(db, k, slot);
      assert k in db.index ==> db.index[k].slots - {} == db.index[k].slots;
    }
  }

  /** The parts of a flush make up the whole. */
  lemma IsFlushed(db: Db, slot: Slot, keep: seq<Stored>, left: set<Pubkey>, purged: Db, stored: Db, db': Db)
    requires CacheOk(db) && IndexOk(db)
    requires Chosen(db, slot, keep) && left + KeysOf(keep) == db.cache[slot].Keys && left !! KeysOf(keep) && keep != []
    requires Removed(db, LeftBehind(left, slot), purged)
    requires WroteStorage(purged, slot, keep, stored) && db' == stored.(cache := db.cache - {slot})
    ensures Flushed(db, slot, keep, db')
  {
    IsFlushedIndex(db, slot, keep, left, purged, db'.index);
  }

  /** A slot all of whose accounts are left behind loses its root. */
  lemma IsDropped(db: Db, slot: Slot, left: set<Pubkey>, purged: Db, db': Db)
    requires CacheOk(db) && IndexOk(db)
    requires slot in db.cache && left == db.cache[slot].Keys
    requires Removed(db, LeftBehind(left, slot), purged)
    requires db' == db.(index := purged.index, cache := db.cache - {slot}, roots := db.roots - {slot})
    ensures Flushed(db, slot, [], db')
  {
    IsFlushedIndex(db, slot, [], left, purged, db'.index);
  }

  // ---- Whole flushes ----

  /** May older versions be left behind in this slot? */
  ghost predicate Cleans(clean: bool, limit: Option<Slot>, slot: Slot) {
    clean && (limit.Some? ==> slot <= limit.value)
  }

  /** The keys of the given cached slots that take part in cleaning. */
  ghost function Seen(db: Db, clean: bool, limit: Option<Slot>, slots: seq<Slot>): set<Pubkey> {
    set i, k | 0 <= i < |slots| && slots[i] in db.cache && Cleans(clean, limit, slots[i])
               && k in db.cache[slots[i]] :: k
  }

  /** The keys a slot leaves out when the given slots are flushed before it. */
  ghost function LeftOut(db: Db, clean: bool, limit: Option<Slot>, slot: Slot, before: seq<Slot>): set<Pubkey> {
    if Cleans(clean, limit, slot) then Seen(db, clean, limit, before) else {}
  }

  /**
   * Each slot writes all its accounts, except that a slot that takes part in cleaning leaves out
   * the keys of newer ones that do.
   */
  ghost predicate WritesNewest(db: Db, clean: bool, limit: Option<Slot>, run: FlushRun)
    requires |run.keeps| == |run.slots|
  {
    forall i :: 0 <= i < |run.slots| ==>
      && run.slots[i] in db.cache
      && KeysOf(run.keeps[i]) == db.cache[run.slots[i]].Keys
                                 - LeftOut(db, clean, limit, run.slots[i], run.slots[..i])
  }

  ghost predicate Descending(slots: seq<Slot>) {
    forall i, j :: 0 <= i < j < |slots| ==> slots[j] < slots[i]
  }

  /** Among the slots that take part in cleaning, each key is written once. */
  lemma WrittenOnce(db: Db, clean: bool, limit: Option<Slot>, run: FlushRun, i: nat, j: nat)
    requires |run.keeps| == |run.slots| && WritesNewest(db, clean, limit, run) && i < j < |run.slots|
    requires clean && (limit.Some? ==> run.slots[i] <= limit.value && run.slots[j] <= limit.value)
    ensures KeysOf(run.keeps[i]) !! KeysOf(run.keeps[j])
  {
    forall k | k in KeysOf(run.keeps[i])
      ensures k in Seen(db, clean, limit, run.slots[..j])
    {
      assert run.slots[..j][i] == run.slots[i];
    }
  }

  /** Up to the limit, slots share no written key while cleaning. Every other slot writes all its keys. */
  lemma FlushesOnce(db: Db, clean: bool, limit: Option<Slot>, run: FlushRun)
    requires |run.keeps| == |run.slots| && WritesNewest(db, clean, limit, run)
    ensures clean ==>
              forall i, j | 0 <= i < j < |run.slots|
                            && (limit.Some? ==> run.slots[i] <= limit.value && run.slots[j] <= limit.value) ::
                KeysOf(run.keeps[i]) !! KeysOf(run.keeps[j])
    ensures forall i | 0 <= i < |run.slots| && (clean ==> limit.Some? && limit.value < run.slots[i]) ::
              KeysOf(run.keeps[i]) == db.cache[run.slots[i]].Keys
  {
    if clean {
      forall i, j | 0 <= i < j < |run.slots|
                    && (limit.Some? ==> run.slots[i] <= limit.value && run.slots[j] <= limit.value)
        ensures KeysOf(run.keeps[i]) !! KeysOf(run.keeps[j])
      {
        WrittenOnce(db, clean, limit, run, i, j);
      }
    }
    forall i | 0 <= i < |run.slots| && (clean ==> limit.Some? && limit.value < run.slots[i])
      ensures KeysOf(run.keeps[i]) == db.cache[run.slots[i]].Keys
    {
      assert LeftOut(db, clean, limit, run.slots[i], run.slots[..i]) == {};
    }
  }

  lemma SeenMore(db: Db, clean: bool, limit: Option<Slot>, slots: seq<Slot>, slot: Slot)
    requires slot in db.cache
    ensures Seen(db, clean, limit, slots + [slot])
            == Seen(db, clean, limit, slots) + if Cleans(clean, limit, slot) then db.cache[slot].Keys else {}
  {
    var more := slots + [slot];
    forall k
      ensures k in Seen(db, clean, limit, more)
              <==> k in Seen(db, clean, limit, slots) || (Cleans(clean, limit, slot) && k in db.cache[slot])
    {
      if k in Seen(db, clean, limit, slots) {
        var i :| 0 <= i < |slots| && slots[i] in db.cache && Cleans(clean, limit, slots[i]) && k in db.cache[slots[i]];
        assert more[i] == slots[i];
      }
      if Cleans(clean, limit, slot) && k in db.cache[slot] {
        assert more[|slots|] == slot;
      }
    }
  }

  /** Every key written so far has a live root among the flushed slots, at or below the bound. */
  ghost predicate StillSeen(db: Db, bound: Slot, slots: set<Slot>, written: set<Pubkey>) {
    forall k :: k in written ==> exists t :: t in slots && t <= bound && t in db.roots && IsLive(db.index, t, k)
  }

  lemma StillSeenStep(db: Db, slot: Slot, keep: seq<Stored>, db': Db, bound: Slot, slots: set<Slot>,
                      written: set<Pubkey>, cleaning: bool)
    requires CacheOk(db) && IndexOk(db) && Flushed(db, slot, keep, db') && slot in db.roots && slot !in slots
    requires StillSeen(db, bound, slots, written) && (cleaning ==> slot <= bound)
    requires KeysOf(keep) == db.cache[slot].Keys - if cleaning then written else {}
    ensures StillSeen(db', bound, slots + {slot}, if cleaning then written + db.cache[slot].Keys else written)
  {
    forall k | k in written || (cleaning && k in db.cache[slot])
      ensures exists t :: t in slots + {slot} && t <= bound && t in db'.roots && IsLive(db'.index, t, k)
    {
      if k in written {
        var t :| t in slots && t <= bound && t in db.roots && IsLive(db.index, t, k);
        FlushLiveness(db, slot, keep, db', t, k);
        assert t in db'.roots;
      } else {
        FlushLiveness(db, slot, keep, db', slot, k);
        assert k in KeysOf(keep) && keep != [] && slot in db'.roots;
      }
    }
  }

  lemma LeftAreSuperseded(db: Db, slot: Slot, keep: seq<Stored>, bound: Slot, slots: set<Slot>, written: set<Pubkey>,
                          cleaning: bool)
    requires slot in db.cache && StillSeen(db, bound, slots, written) && forall s :: s in slots ==> slot < s
    requires KeysOf(keep) == db.cache[slot].Keys - if cleaning then written else {}
    ensures forall k :: k in db.cache[slot] && k !in KeysOf(keep) ==> Superseded(db, slot, bound, k)
  {
    forall k | k in db.cache[slot] && k !in KeysOf(keep)
      ensures Superseded(db, slot, bound, k)
    {
      var t :| t in slots && t <= bound && t in db.roots && IsLive(db.index, t, k);
    }
  }

  ghost function Extended(run: FlushRun, slot: Slot, keep: seq<Stored>, db': Db): FlushRun {
    FlushRun(run.slots + [slot], run.keeps + [keep], run.states + [db'])
  }

  lemma FlushStepsMore(db: Db, bound: Slot, run: FlushRun, slot: Slot, keep: seq<Stored>, db': Db)
    requires FlushSteps(db, bound, run) && FlushStep(run.states[|run.slots|], slot, keep, bound, db')
    ensures FlushSteps(db, bound, Extended(run, slot, keep, db'))
  {
    var more := Extended(run, slot, keep, db');
    forall i | 0 <= i < |more.slots|
      ensures FlushStep(more.states[i], more.slots[i], more.keeps[i], bound, more.states[i + 1])
    {
      if i < |run.slots| {
        assert FlushStep(run.states[i], run.slots[i], run.keeps[i], bound, run.states[i + 1]);
      }
    }
  }

  lemma WritesNewestMore(db: Db, clean: bool, limit: Option<Slot>, run: FlushRun, slot: Slot, keep: seq<Stored>,
                         db': Db)
    requires |run.keeps| == |run.slots| && WritesNewest(db, clean, limit, run) && slot in db.cache
    requires KeysOf(keep) == db.cache[slot].Keys - LeftOut(db, clean, limit, slot, run.slots)
    ensures WritesNewest(db, clean, limit, Extended(run, slot, keep, db'))
  {
    var more := Extended(run, slot, keep, db');
    forall i | 0 <= i < |more.slots|
      ensures more.slots[i] in db.cache
      ensures KeysOf(more.keeps[i]) == db.cache[more.slots[i]].Keys
                                       - LeftOut(db, clean, limit, more.slots[i], more.slots[..i])
    {
      assert more.slots[..i] == run.slots[..if i < |run.slots| then i else |run.slots|];
      assert run.slots[..|run.slots|] == run.slots;
    }
  }

  /** What holds of a flush after each of its slots. */
  ghost predicate InFlush(db: Db, bound: Slot, clean: bool, limit: Option<Slot>, run: FlushRun, written: set<Pubkey>,
                          cur: Db) {
    && FlushSteps(db, bound, run) && cur == run.states[|run.slots|] && Descending(run.slots)
    && written == Seen(db, clean, limit, run.slots) && WritesNewest(db, clean, limit, run)
    && StillSeen(cur, bound, Slots(run.slots), written)
  }

  lemma FlushedSoFar(db: Db, h: History, bound: Slot, run: FlushRun)
    requires Inv(db) && RootsOk(db, h.roots) && FlushSteps(db, bound, run)
    ensures var cur := run.states[|run.slots|];
            && IndexOk(cur) && CacheOk(cur)
            && cur.cache == db.cache - Slots(run.slots) && db.roots - Slots(run.slots) <= cur.roots
  {
    FlushKeepsAll(db, h, bound, run, |run.slots|);
    assert run.slots[..|run.slots|] == run.slots;
  }

  lemma InFlushStep(db: Db, h: History, bound: Slot, clean: bool, limit: Option<Slot>, run: FlushRun,
                    written: set<Pubkey>, cur: Db, slot: Slot, keep: seq<Stored>, cur': Db)
    requires Inv(db) && RootsOk(db, h.roots) && InFlush(db, bound, clean, limit, run, written, cur)
    requires slot in db.cache && slot in db.roots && (forall s :: s in Slots(run.slots) ==> slot < s)
    requires Flushed(cur, slot, keep, cur') && (Cleans(clean, limit, slot) ==> slot <= bound)
    requires KeysOf(keep) == db.cache[slot].Keys - if Cleans(clean, limit, slot) then written else {}
    ensures InFlush(db, bound, clean, limit, Extended(run, slot, keep, cur'),
                    if Cleans(clean, limit, slot) then written + db.cache[slot].Keys else written, cur')
  {
    FlushedSoFar(db, h, bound, run);
    LeftAreSuperseded(cur, slot, keep, bound, Slots(run.slots), written, Cleans(clean, limit, slot));
    FlushStepsMore(db, bound, run, slot, keep, cur');
    WritesNewestMore(db, clean, limit, run, slot, keep, cur');
    SeenMore(db, clean, limit, run.slots, slot);
    StillSeenStep(cur, slot, keep, cur', bound, Slots(run.slots), written, Cleans(clean, limit, slot));
    SlotsMore(run.slots, slot);
    DescendingMore(run.slots, slot);
  }

  lemma DescendingMore(slots: seq<Slot>, slot: Slot)
    requires Descending(slots) && forall s :: s in Slots(slots) ==> slot < s
    ensures Descending(slots + [slot])
  {
    forall i | 0 <= i < |slots|
      ensures slot < slots[i]
    {
      assert slots[i] in Slots(slots);
    }
  }

  lemma SlotsMore(slots: seq<Slot>, slot: Slot)
    ensures Slots(slots + [slot]) == Slots(slots) + {slot}
  {
    forall s | s in Slots(slots) + {slot}
      ensures s in Slots(slots + [slot])
    {
      if s == slot {
        assert (slots + [slot])[|slots|] == slot;
      } else {
        var i :| 0 <= i < |slots| && slots[i] == s;
        assert (slots + [slot])[i] == s;
      }
    }
  }

  /** The newest flushed root that takes part in cleaning. */
  ghost function FlushBound(flushed: set<Slot>, clean: bool, limit: Option<Slot>): (r: Slot)
    ensures forall s :: s in flushed && Cleans(clean, limit, s) ==> s <= r
    ensures r == 0 || (r in flushed && Cleans(clean, limit, r))
  {
    var cleaned := set s | s in flushed && Cleans(clean, limit, s);
    assert forall s :: s in flushed && Cleans(clean, limit, s) ==> s in cleaned;
    if cleaned == {} then 0 else Newest(cleaned)
  }

  /** Taking all roots up to the requested one leaves only newer ones in the cache. */
  lemma FlushedIsBelow(db: Db, h: History, cleaned: Slot, bound: Slot, requested: Option<Slot>, flushed: set<Slot>,
                       clean: bool, limit: Option<Slot>, run: FlushRun, written: set<Pubkey>, db': Db)
    requires Sound(db, h, cleaned) && InFlush(db, bound, clean, limit, run, written, db')
    requires flushed + run.states[0].unflushed == db.unflushed && flushed !! run.states[0].unflushed
    requires forall s :: s in db.unflushed ==> (s in flushed <==> requested.None? || s <= requested.value)
    requires Slots(run.slots) == flushed * db.cache.Keys
    ensures FlushedBelow(db, run)
    ensures forall s :: s in db'.cache && s in db'.roots ==> requested.Some? && requested.value < s
  {
    FlushKeepsAll(db, h, bound, run, |run.slots|);
    assert run.slots[..|run.slots|] == run.slots;
    forall i | 0 <= i < |run.slots|
      ensures run.slots[i] in flushed
    {
      assert run.slots[i] in Slots(run.slots);
    }
  }
}
