/**
 * The state of the accounts database between two operations of its background service,
 * what must hold of it, and what a reader sees in it.
 */
module Database {
  import opened Types

  /** An index entry: the slots in which the key was written, and how many storages hold it. */
  datatype Entry = Entry(slots: map<Slot, AccountInfo>, refCount: nat)

  type Index = map<Pubkey, Entry>

  datatype Stored = Stored(pubkey: Pubkey, account: Account)

  /** A storage file. The offset of a record is its position. */
  datatype Store = Store(id: StoreId, accounts: seq<Stored>, count: nat, aliveBytes: nat)

  datatype Db = Db(index: Index, roots: set<Slot>, cache: map<Slot, map<Pubkey, Account>>,
                   unflushed: set<Slot>, storage: map<Slot, Store>, nextId: StoreId)

  /** Offsets reclaimed from each slot but not yet taken off its counts. */
  type Reclaims = map<Slot, set<Offset>>

  // ---- What the index and the storages hold ----

  predicate IsLive(index: Index, s: Slot, k: Pubkey) {
    k in index && s in index[k].slots
  }

  function KeysOf(accounts: seq<Stored>): set<Pubkey> {
    set o | 0 <= o < |accounts| :: accounts[o].pubkey
  }

  predicate NoDuplicates(accounts: seq<Stored>) {
    forall i, j :: 0 <= i < j < |accounts| ==> accounts[i].pubkey != accounts[j].pubkey
  }

  /** The slots whose storage holds some version of the key, live or not. */
  function Holders(storage: map<Slot, Store>, k: Pubkey): set<Slot> {
    set s | s in storage && k in KeysOf(storage[s].accounts)
  }

  function LiveOffsets(index: Index, s: Slot, accounts: seq<Stored>): set<Offset> {
    set o | 0 <= o < |accounts| && IsLive(index, s, accounts[o].pubkey)
  }

  /** Total stored size of the records at the given offsets. */
  function Bytes(accounts: seq<Stored>, offsets: set<Offset>): nat {
    if accounts == [] then 0
    else
      var last := |accounts| - 1;
      Bytes(accounts[..last], offsets)
      + if last in offsets then StoredSize(|accounts[last].account.data|) else 0
  }

  function At(pending: Reclaims, s: Slot): set<Offset> {
    if s in pending then pending[s] else {}
  }

  // ---- The invariant ----

  /**
   * The entry leads to an account of the key. The flag of a cached entry can be stale: a later
   * write to the same slot leaves the entry as it is.
   */
  predicate Located(db: Db, k: Pubkey, s: Slot)
    requires IsLive(db.index, s, k)
  {
    var info := db.index[k].slots[s];
    match info.location
    case Cached => s in db.cache && k in db.cache[s]
    case AppendVec(id, o) =>
      && s in db.storage && id == db.storage[s].id && o < |db.storage[s].accounts|
      && db.storage[s].accounts[o].pubkey == k
      && info.zeroLamport == (db.storage[s].accounts[o].account.lamports == 0)
  }

  /** Every index entry leads to an account of its key. */
  ghost predicate IndexOk(db: Db) {
    && (forall k, s :: IsLive(db.index, s, k) ==> Located(db, k, s))
    && (forall k :: k in db.index ==> db.index[k].slots != map[])
  }

  ghost predicate CacheOk(db: Db) {
    && db.cache.Keys !! db.storage.Keys
    && (forall s, k :: s in db.cache && k in db.cache[s] ==> IsLive(db.index, s, k))
  }

  ghost predicate StoresOk(db: Db) {
    forall s :: s in db.storage ==>
      s in db.roots && db.storage[s].id < db.nextId && NoDuplicates(db.storage[s].accounts)
  }

  /** A store's count and bytes are those of its live records and the ones still to be reclaimed. */
  ghost predicate CountOk(index: Index, s: Slot, store: Store, pending: set<Offset>) {
    var live := LiveOffsets(index, s, store.accounts);
    && pending !! live
    && (forall o :: o in pending ==> o < |store.accounts|)
    && store.count == |live + pending|
    && store.aliveBytes == Bytes(store.accounts, live + pending)
  }

  ghost predicate CountsOk(db: Db, pending: Reclaims) {
    forall s :: s in db.storage ==> CountOk(db.index, s, db.storage[s], At(pending, s))
  }

  /** The slots whose last live account is about to be reclaimed. */
  ghost function DeadSlots(db: Db, pending: Reclaims): set<Slot> {
    set s | s in pending && s in db.storage && |pending[s]| == db.storage[s].count
  }

  /** A reference count is the number of storages that hold the key. */
  ghost predicate RefsOk(db: Db, pending: Reclaims) {
    && (forall k :: k in db.index ==> db.index[k].refCount == |Holders(db.storage, k)|)
    && (forall k :: k !in db.index ==> Holders(db.storage, k) <= DeadSlots(db, pending))
  }

  ghost predicate LiveStoredAbove(db: Db, s: Slot, k: Pubkey) {
    exists t :: s < t && t in db.storage && IsLive(db.index, t, k)
  }

  /** A record the index has forgotten is always outdated by a newer live record of its key. */
  ghost predicate ShadowsOk(db: Db, pending: Reclaims) {
    forall s, k :: s in db.storage && s !in DeadSlots(db, pending) && k in KeysOf(db.storage[s].accounts)
      ==> IsLive(db.index, s, k) || LiveStoredAbove(db, s, k)
  }

  ghost predicate InvExcept(db: Db, pending: Reclaims) {
    && IndexOk(db) && CacheOk(db) && StoresOk(db)
    && CountsOk(db, pending) && RefsOk(db, pending) && ShadowsOk(db, pending)
  }

  ghost predicate Inv(db: Db) {
    InvExcept(db, map[])
  }

  // ---- What a reader sees ----

  /** A reader sees its ancestors and every root up to a bound. */
  datatype View = View(ancestors: set<Slot>, maxRoot: Slot)

  predicate Sees(roots: set<Slot>, view: View, s: Slot) {
    s in view.ancestors || (s in roots && s <= view.maxRoot)
  }

  ghost function Newest(slots: set<Slot>): (r: Slot)
    requires slots != {}
    ensures r in slots && forall s :: s in slots ==> s <= r
  {
    var s :| s in slots;
    if slots == {s} then s
    else
      assert forall t :: t in slots ==> t == s || t in slots - {s};
      var t := Newest(slots - {s});
      if s < t then t else s
  }

  ghost function VisibleSlots(db: Db, k: Pubkey, view: View): set<Slot> {
    if k in db.index then set s | s in db.index[k].slots && Sees(db.roots, view, s) else {}
  }

  function AccountAt(db: Db, k: Pubkey, s: Slot): Account
    requires IsLive(db.index, s, k) && Located(db, k, s)
  {
    match db.index[k].slots[s].location
    case Cached => db.cache[s][k]
    case AppendVec(_, o) => db.storage[s].accounts[o].account
  }

  /** The account a reader loads: the newest version it sees, or nothing when that has no lamports. */
  ghost function Load(db: Db, k: Pubkey, view: View): Option<Account>
    requires IndexOk(db)
  {
    var visible := VisibleSlots(db, k, view);
    if visible == {} then None
    else
      assert IsLive(db.index, Newest(visible), k);
      var account := AccountAt(db, k, Newest(visible));
      if account.lamports == 0 then None else Some(account)
  }

  /**
   * A reader is current when it sees every root up to `cleaned`, and each of its ancestors
   * has been rooted or is newer than every root.
   */
  ghost predicate Current(everRooted: set<Slot>, cleaned: Slot, view: View) {
    && cleaned <= view.maxRoot
    && forall a :: a in view.ancestors ==> a in everRooted || forall r :: r in everRooted ==> r < a
  }

  /** The index only keeps entries of roots that have not been dropped. */
  ghost predicate RootsOk(db: Db, everRooted: set<Slot>) {
    && db.roots <= everRooted
    && forall k, s :: IsLive(db.index, s, k) && s in everRooted ==> s in db.roots
  }

  // ---- Helpers shared by the operations ----

  /** Two states show the same account of a key in a slot. */
  ghost predicate SameAt(db: Db, db': Db, k: Pubkey, s: Slot) {
    && IsLive(db.index, s, k) && Located(db, k, s)
    && IsLive(db'.index, s, k) && Located(db', k, s)
    && AccountAt(db, k, s) == AccountAt(db', k, s)
  }

  lemma SameRecord(db: Db, db': Db, k: Pubkey, s: Slot)
    requires IsLive(db.index, s, k) && Located(db, k, s)
    requires IsLive(db'.index, s, k) && db'.index[k].slots[s] == db.index[k].slots[s]
    requires db'.cache == db.cache
    requires s in db.storage ==> s in db'.storage && db'.storage[s].id == db.storage[s].id
                                 && db'.storage[s].accounts == db.storage[s].accounts
    ensures SameAt(db, db', k, s)
  {
  }

  /**
   * A load does not change when no version appears, and the newest visible one stays
   * or was empty and takes every other visible one with it.
   */
  lemma LoadKept(db: Db, db': Db, k: Pubkey, view: View)
    requires IndexOk(db) && IndexOk(db')
    requires forall s :: s in VisibleSlots(db', k, view) ==> s in VisibleSlots(db, k, view) && SameAt(db, db', k, s)
    requires var visible := VisibleSlots(db, k, view);
             visible != {} ==> Newest(visible) in VisibleSlots(db', k, view)
                               || (VisibleSlots(db', k, view) == {} && Load(db, k, view) == None)
    ensures Load(db', k, view) == Load(db, k, view)
  {
    var visible := VisibleSlots(db, k, view);
    if visible != {} && Newest(visible) in VisibleSlots(db', k, view) {
      assert Newest(VisibleSlots(db', k, view)) == Newest(visible);
    }
  }

  lemma BytesSplit(accounts: seq<Stored>, a: set<Offset>, b: set<Offset>)
    requires a !! b
    ensures Bytes(accounts, a + b) == Bytes(accounts, a) + Bytes(accounts, b)
  {
  }

  function Range(n: nat): (r: set<nat>)
    ensures forall i :: i in r <==> 0 <= i < n
    ensures |r| == n
  {
    if n == 0 then {} else Range(n - 1) + {n - 1}
  }

  /** A count stays right when the same keys are live. */
  lemma SameLiveSameCount(index: Index, index': Index, s: Slot, store: Store)
    requires CountOk(index, s, store, {})
    requires forall k :: IsLive(index', s, k) == IsLive(index, s, k)
    ensures CountOk(index', s, store, {})
  {
    assert LiveOffsets(index', s, store.accounts) == LiveOffsets(index, s, store.accounts);
  }

  /** The count of a store all of whose records are live. */
  lemma AllLiveCount(index: Index, s: Slot, id: StoreId, accounts: seq<Stored>)
    requires forall k :: k in KeysOf(accounts) ==> IsLive(index, s, k)
    ensures CountOk(index, s, Store(id, accounts, |accounts|, Bytes(accounts, Range(|accounts|))), {})
  {
    assert LiveOffsets(index, s, accounts) + {} == Range(|accounts|);
  }

  /** A live key of a storage sits at the one offset its index entry names. */
  lemma LiveOffset(db: Db, k: Pubkey, s: Slot, o: Offset)
    requires IndexOk(db) && StoresOk(db) && db.cache.Keys !! db.storage.Keys
    requires s in db.storage && IsLive(db.index, s, k)
    requires o < |db.storage[s].accounts| && db.storage[s].accounts[o].pubkey == k
    ensures db.index[k].slots[s].location == AppendVec(db.storage[s].id, o)
  {
    assert Located(db, k, s);
  }
}
