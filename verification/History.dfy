/**
 * The reference the database is measured against: a store that remembers every write and
 * every root, and never cleans anything up.
 */
module History {
  import opened Types
  import opened Database
  import opened Shrinking

  datatype History = History(writes: map<Slot, map<Pubkey, Account>>, roots: set<Slot>)

  predicate Wrote(h: History, s: Slot, k: Pubkey) {
    s in h.writes && k in h.writes[s]
  }

  ghost function Versions(h: History, k: Pubkey, view: View): set<Slot> {
    set s | s in h.writes && Wrote(h, s, k) && Sees(h.roots, view, s)
  }

  /** The newest version the reader sees, or nothing when it has no lamports. */
  ghost function Recall(h: History, k: Pubkey, view: View): Option<Account> {
    var versions := Versions(h, k, view);
    if versions == {} then None
    else
      var account := h.writes[Newest(versions)][k];
      if account.lamports == 0 then None else Some(account)
  }

  /** Slots that were never rooted are in the write cache, with exactly the accounts written there. */
  ghost predicate SameUnrooted(db: Db, h: History) {
    && (forall s :: s !in h.roots ==> (s in db.cache <==> s in h.writes))
    && (forall s :: s !in h.roots && s in db.cache ==> SameWrites(db.cache[s], h.writes[s]))
  }

  ghost predicate SameWrites(cached: map<Pubkey, Account>, written: map<Pubkey, Account>) {
    forall k :: (k in cached <==> k in written) && (k in cached ==> cached[k] == Canonical(written[k]))
  }

  /** The reference answers with the newest version the reader sees, as it was written, unless it has no lamports. */
  lemma RecallIsNewest(h: History, k: Pubkey, view: View, s: Slot)
    requires s in h.writes && k in h.writes[s]
    requires s in view.ancestors || (s in h.roots && s <= view.maxRoot)
    requires forall t :: t in h.writes && k in h.writes[t] && s < t ==>
               t !in view.ancestors && (t in h.roots ==> view.maxRoot < t)
    ensures Recall(h, k, view) == if h.writes[s][k].lamports == 0 then None else Some(h.writes[s][k])
  {
    assert s in Versions(h, k, view) && Newest(Versions(h, k, view)) == s;
  }

  /** A reader that sees no version of the key gets nothing. */
  lemma RecallsNothing(h: History, k: Pubkey, view: View)
    requires forall t :: t in h.writes && k in h.writes[t] ==>
               t !in view.ancestors && (t in h.roots ==> view.maxRoot < t)
    ensures Recall(h, k, view) == None
  {
    assert Versions(h, k, view) == {};
  }

  /** Every current reader loads from the database what the reference remembers. */
  ghost predicate Agrees(db: Db, h: History, cleaned: Slot)
    requires IndexOk(db)
  {
    forall k, view :: Current(h.roots, cleaned, view) ==> Load(db, k, view) == Recall(h, k, view)
  }

  /** A rooted slot of the cache is still a root and noted as not yet flushed. Only rooted slots are. */
  ghost predicate UnflushedOk(db: Db, everRooted: set<Slot>) {
    && (forall s :: s in db.cache && s in everRooted ==> s in db.roots && s in db.unflushed)
    && db.unflushed <= everRooted
  }

  ghost predicate Sound(db: Db, h: History, cleaned: Slot) {
    && Inv(db) && CacheAhead(db) && RootsOk(db, h.roots)
    && UnflushedOk(db, h.roots)
    && SameUnrooted(db, h) && Agrees(db, h, cleaned)
  }

  const EMPTY: Db := Db(map[], {}, map[], {}, map[], 0)

  lemma EmptyIsSound()
    ensures Sound(EMPTY, History(map[], {}), 0)
  {
  }

  // ---- A write by a transaction ----

  /** An account without lamports is stored with all its fields zeroed. */
  function Canonical(account: Account): Account {
    if account.lamports == 0 then Account(0, []) else account
  }

  function CachedSlot(db: Db, slot: Slot): map<Pubkey, Account> {
    if slot in db.cache then db.cache[slot] else map[]
  }

  function Written(db: Db, slot: Slot, k: Pubkey, account: Account): Db {
    var info := AccountInfo(Cached, account.lamports == 0);
    var entry := if k in db.index then db.index[k] else Entry(map[], 0);
    var slots := if slot in entry.slots then entry.slots else entry.slots[slot := info];
    db.(cache := db.cache[slot := CachedSlot(db, slot)[k := Canonical(account)]],
        index := db.index[k := Entry(slots, entry.refCount)])
  }

  function Remember(h: History, slot: Slot, k: Pubkey, account: Account): History {
    var written := if slot in h.writes then h.writes[slot] else map[];
    h.(writes := h.writes[slot := written[k := account]])
  }

  /** The reference gains the account as it is given, and nothing else changes. */
  lemma RememberAddsOne(h: History, slot: Slot, k: Pubkey, account: Account)
    ensures var h' := Remember(h, slot, k, account);
            && h'.roots == h.roots && Wrote(h', slot, k) && h'.writes[slot][k] == account
            && forall s, k' :: (s, k') != (slot, k) ==>
                 (Wrote(h', s, k') <==> Wrote(h, s, k')) && (Wrote(h, s, k') ==> h'.writes[s][k'] == h.writes[s][k'])
  {
  }

  /** A reader that sees the slot and no newer version of the key gets the account back as it was written. */
  lemma WrittenIsRecalled(h: History, slot: Slot, k: Pubkey, account: Account, view: View)
    requires slot in view.ancestors || (slot in h.roots && slot <= view.maxRoot)
    requires forall s :: slot < s && s in h.writes && k in h.writes[s] ==>
               s !in view.ancestors && (s in h.roots ==> view.maxRoot < s)
    ensures Recall(Remember(h, slot, k, account), k, view) == if account.lamports == 0 then None else Some(account)
  {
    RecallIsNewest(Remember(h, slot, k, account), k, view, slot);
  }

  lemma WriteLiveness(db: Db, slot: Slot, k: Pubkey, account: Account, s: Slot, k': Pubkey)
    ensures var db' := Written(db, slot, k, account);
            && (IsLive(db'.index, s, k') <==> IsLive(db.index, s, k') || (s == slot && k' == k))
            && (IsLive(db.index, s, k') ==> db'.index[k'].slots[s] == db.index[k'].slots[s])
  {
  }

  lemma WriteKeepsIndex(db: Db, slot: Slot, k: Pubkey, account: Account)
    requires IndexOk(db) && CacheOk(db) && slot !in db.storage
    ensures IndexOk(Written(db, slot, k, account)) && CacheOk(Written(db, slot, k, account))
  {
    var db' := Written(db, slot, k, account);
    forall s, k'
      ensures IsLive(db'.index, s, k') ==> Located(db', k', s)
      ensures s in db'.cache && k' in db'.cache[s] ==> IsLive(db'.index, s, k')
    {
      WriteLiveness(db, slot, k, account, s, k');
      assert IsLive(db.index, s, k') ==> Located(db, k', s);
    }
    forall k' | k' in db'.index
      ensures db'.index[k'].slots != map[]
    {
      WriteLiveness(db, slot, k, account, slot, k);
    }
  }

  lemma WriteKeepsCounts(db: Db, slot: Slot, k: Pubkey, account: Account)
    requires CountsOk(db, map[]) && slot !in db.storage
    ensures CountsOk(Written(db, slot, k, account), map[])
  {
    var db' := Written(db, slot, k, account);
    forall s | s in db.storage
      ensures CountOk(db'.index, s, db.storage[s], {})
    {
      forall k'
        ensures IsLive(db'.index, s, k') == IsLive(db.index, s, k')
      {
        WriteLiveness(db, slot, k, account, s, k');
      }
      SameLiveSameCount(db.index, db'.index, s, db.storage[s]);
    }
  }

  lemma WriteKeepsShadows(db: Db, slot: Slot, k: Pubkey, account: Account)
    requires ShadowsOk(db, map[])
    ensures ShadowsOk(Written(db, slot, k, account), map[])
  {
    var db' := Written(db, slot, k, account);
    forall s, k' | s in db'.storage && k' in KeysOf(db'.storage[s].accounts)
      ensures IsLive(db'.index, s, k') || LiveStoredAbove(db', s, k')
    {
      var t :| s <= t && t in db.storage && IsLive(db.index, t, k');
      WriteLiveness(db, slot, k, account, t, k');
      if s < t {
        assert t in db'.storage && IsLive(db'.index, t, k');
      }
    }
  }

  lemma WriteKeepsInv(db: Db, slot: Slot, k: Pubkey, account: Account)
    requires Inv(db) && slot !in db.storage
    ensures Inv(Written(db, slot, k, account))
  {
    WriteKeepsIndex(db, slot, k, account);
    WriteKeepsCounts(db, slot, k, account);
    WriteKeepsShadows(db, slot, k, account);
  }

  /** A slot above every root is visible to the reference exactly when it is visible in the database. */
  lemma UnrootedVersions(db: Db, h: History, k: Pubkey, view: View, s: Slot)
    requires IndexOk(db) && CacheOk(db) && StoresOk(db) && RootsOk(db, h.roots) && SameUnrooted(db, h)
    requires s !in h.roots
    ensures s in VisibleSlots(db, k, view) <==> s in Versions(h, k, view)
    ensures s in VisibleSlots(db, k, view) ==> Located(db, k, s) && AccountAt(db, k, s) == Canonical(h.writes[s][k])
  {
    if IsLive(db.index, s, k) {
      assert Located(db, k, s);
    }
  }

  /** After a write, the newest version of the key is the written one or a newer unrooted one, on both sides. */
  lemma WriteAgrees(db: Db, h: History, slot: Slot, k: Pubkey, account: Account, view: View)
    requires IndexOk(db) && CacheOk(db) && StoresOk(db) && RootsOk(db, h.roots) && SameUnrooted(db, h)
    requires slot !in h.roots && slot in view.ancestors && forall r :: r in h.roots ==> r < slot
    requires IndexOk(Written(db, slot, k, account))
    ensures Load(Written(db, slot, k, account), k, view) == Recall(Remember(h, slot, k, account), k, view)
  {
    var db', h' := Written(db, slot, k, account), Remember(h, slot, k, account);
    WriteLiveness(db, slot, k, account, slot, k);
    var visible, versions := VisibleSlots(db', k, view), Versions(h', k, view);
    assert slot in visible && slot in versions;
    forall s | s > slot
      ensures s in visible <==> s in versions
    {
      WriteLiveness(db, slot, k, account, s, k);
      UnrootedVersions(db, h, k, view, s);
    }
    SameNewest(visible, versions, slot);
    var n := Newest(visible);
    assert Located(db', k, n);
    if n != slot {
      WriteLiveness(db, slot, k, account, n, k);
      UnrootedVersions(db, h, k, view, n);
    }
  }

  lemma SameNewest(a: set<Slot>, b: set<Slot>, slot: Slot)
    requires slot in a && slot in b && forall s :: s > slot ==> (s in a <==> s in b)
    ensures Newest(a) == Newest(b) && slot <= Newest(a)
  {
  }

  lemma WriteUnseen(db: Db, h: History, slot: Slot, k: Pubkey, account: Account, k': Pubkey, view: View)
    requires IndexOk(db) && IndexOk(Written(db, slot, k, account))
    requires slot !in h.roots && slot !in db.roots && (k' != k || slot !in view.ancestors)
    ensures Load(Written(db, slot, k, account), k', view) == Load(db, k', view)
    ensures Recall(Remember(h, slot, k, account), k', view) == Recall(h, k', view)
  {
    var db', h' := Written(db, slot, k, account), Remember(h, slot, k, account);
    forall s
      ensures s in VisibleSlots(db', k', view) <==> s in VisibleSlots(db, k', view)
      ensures s in VisibleSlots(db, k', view) ==> SameAt(db, db', k', s)
    {
      WriteLiveness(db, slot, k, account, s, k');
      if IsLive(db.index, s, k') && Sees(db.roots, view, s) {
        assert Located(db, k', s) && Located(db', k', s);
      }
    }
    LoadKept(db, db', k', view);
    assert Versions(h', k', view) == Versions(h, k', view);
  }

  lemma WriteKeepsRoots(db: Db, h: History, slot: Slot, k: Pubkey, account: Account)
    requires CacheAhead(db) && RootsOk(db, h.roots) && UnflushedOk(db, h.roots) && SameUnrooted(db, h)
             && slot !in h.roots
    ensures var db', h' := Written(db, slot, k, account), Remember(h, slot, k, account);
            CacheAhead(db') && RootsOk(db', h'.roots) && UnflushedOk(db', h'.roots) && SameUnrooted(db', h')
  {
    var db' := Written(db, slot, k, account);
    forall s, k' | IsLive(db'.index, s, k') && s in h.roots
      ensures s in db.roots
    {
      WriteLiveness(db, slot, k, account, s, k');
    }
  }

  /** A transaction writes to a slot that is not rooted. */
  lemma WriteIsSound(db: Db, h: History, cleaned: Slot, slot: Slot, k: Pubkey, account: Account)
    requires Sound(db, h, cleaned) && slot !in h.roots
    ensures Sound(Written(db, slot, k, account), Remember(h, slot, k, account), cleaned)
  {
    var db', h' := Written(db, slot, k, account), Remember(h, slot, k, account);
    WriteKeepsInv(db, slot, k, account);
    WriteKeepsRoots(db, h, slot, k, account);
    forall k', view | Current(h'.roots, cleaned, view)
      ensures Load(db', k', view) == Recall(h', k', view)
    {
      if k' == k && slot in view.ancestors {
        WriteAgrees(db, h, slot, k, account, view);
      } else {
        WriteUnseen(db, h, slot, k, account, k', view);
      }
    }
  }

  // ---- A new root ----

  function Rooted(db: Db, slot: Slot): Db {
    db.(roots := db.roots + {slot}, unflushed := db.unflushed + {slot})
  }

  /** Adding roots and tracking unflushed ones touches nothing the invariant is about. */
  ghost predicate SameContents(db: Db, db': Db) {
    && db'.index == db.index && db'.cache == db.cache && db'.storage == db.storage && db'.nextId == db.nextId
    && db.roots <= db'.roots
  }

  lemma SameContentsSameIndex(db: Db, db': Db)
    requires IndexOk(db) && SameContents(db, db')
    ensures IndexOk(db')
  {
    forall s, k | IsLive(db.index, s, k)
      ensures Located(db', k, s)
    {
      assert Located(db, k, s);
    }
  }

  lemma SameContentsSameShadows(db: Db, db': Db)
    requires ShadowsOk(db, map[]) && SameContents(db, db')
    ensures ShadowsOk(db', map[])
  {
    forall s, k | s in db'.storage && k in KeysOf(db'.storage[s].accounts)
      ensures IsLive(db'.index, s, k) || LiveStoredAbove(db', s, k)
    {
      assert IsLive(db.index, s, k) || LiveStoredAbove(db, s, k);
    }
  }

  lemma SameContentsSameInv(db: Db, db': Db)
    requires Inv(db) && SameContents(db, db')
    ensures Inv(db')
  {
    SameContentsSameIndex(db, db');
    SameContentsSameShadows(db, db');
  }

  /** A reader that sees the new root is like one that had it among its ancestors before. */
  lemma RootAgrees(db: Db, h: History, cleaned: Slot, slot: Slot, k: Pubkey, view: View)
    requires IndexOk(db) && IndexOk(Rooted(db, slot)) && Agrees(db, h, cleaned)
    requires forall r :: r in h.roots ==> r <= slot
    requires Current(h.roots + {slot}, cleaned, view)
    ensures Load(Rooted(db, slot), k, view) == Recall(h.(roots := h.roots + {slot}), k, view)
  {
    var db', h' := Rooted(db, slot), h.(roots := h.roots + {slot});
    var before := if slot <= view.maxRoot then View(view.ancestors + {slot}, view.maxRoot) else view;
    assert Current(h.roots, cleaned, before);
    assert VisibleSlots(db', k, view) == VisibleSlots(db, k, before);
    assert Versions(h', k, view) == Versions(h, k, before);
    assert Load(db, k, before) == Recall(h, k, before);
  }

  lemma RootKeepsRoots(db: Db, h: History, slot: Slot)
    requires db.cache.Keys !! db.storage.Keys && StoresOk(db) && CacheAhead(db) && RootsOk(db, h.roots)
             && UnflushedOk(db, h.roots)
    requires forall r :: r in h.roots ==> r <= slot
    ensures var db', roots := Rooted(db, slot), h.roots + {slot};
            CacheAhead(db') && RootsOk(db', roots) && UnflushedOk(db', roots)
  {
  }

  /** Roots are added in order. The greatest root may be added again. */
  lemma RootIsSound(db: Db, h: History, cleaned: Slot, slot: Slot)
    requires Sound(db, h, cleaned) && forall r :: r in h.roots ==> r <= slot
    ensures Sound(Rooted(db, slot), h.(roots := h.roots + {slot}), cleaned)
  {
    var db', h' := Rooted(db, slot), h.(roots := h.roots + {slot});
    SameContentsSameInv(db, db');
    RootKeepsRoots(db, h, slot);
    forall k, view | Current(h'.roots, cleaned, view)
      ensures Load(db', k, view) == Recall(h', k, view)
    {
      RootAgrees(db, h, cleaned, slot, k, view);
    }
  }
}
