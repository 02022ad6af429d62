/**
 * One reader of one key against the background jobs. The reader looks up the index, then the
 * write cache or the storages, each as a step of its own. Flush, shrink and clean steps on the
 * key come in between in any order.
 */
module ReaderProtocol {
  import opened Types
  import Database
  import Removing
  import Flushing
  import Cleaning
  import Shrinking

  /** A job that is rewriting a slot, with the offset of the key's record in the new storage, if any. */
  datatype Job =
    | Flush(id: StoreId, record: Option<Offset>, indexed: bool)
    | Shrink(oldId: StoreId, id: StoreId, record: Option<Offset>, indexed: bool, swapped: bool)

  /**
   * What the steps touch: the key's slot list, its cached accounts, the map of storages, the map
   * of shrinks in progress, the key's records in all storage files ever written, and the jobs.
   */
  datatype World = World(index: map<Slot, Location>, cache: map<Slot, Account>, stores: map<Slot, StoreId>,
                         shrinking: map<Slot, StoreId>, records: map<(StoreId, Offset), Account>,
                         jobs: map<Slot, Job>, nextId: StoreId)

  /** The lookup of a stored account goes through three stages: map of storages, of shrinks, of storages. */
  datatype Reader =
    | Start
    | Looking(slot: Slot, loc: Location, stage: nat)
    | Missed(slot: Slot, loc: Location)
    | Found(account: Account)
    | Nothing
    | Panicked

  /**
   * The world, the reader, how often the cache missed, a lookup failed and a visible entry moved,
   * and how many had moved when the reader last read the index.
   */
  datatype Config = Config(world: World, reader: Reader, cacheMisses: nat, failures: nat, moves: nat, readAt: nat)

  /** Why index entries of a key go. */
  datatype Kind =
    | Trim(bound: Slot, gone: Removing.Gone)
    | Purge(bound: Slot, gone: Removing.Gone)
    | LeaveBehind(slot: Slot, cleaned: Slot)
    | Vanish(slot: Slot, alive: seq<Database.Stored>, dead: set<Pubkey>, zeros: set<Pubkey>)

  /** The database a job works on, the slots ever rooted, the key, and a view that sees what the reader sees. */
  datatype Removal = Removal(db: Database.Db, everRooted: set<Slot>, key: Pubkey, view: Database.View, kind: Kind)

  datatype Event =
    | ReadIndex | Probe
    | FlushCreate(slot: Slot, record: Option<Offset>) | FlushIndex(slot: Slot) | FlushDone(slot: Slot)
    | ShrinkCreate(slot: Slot, record: Option<Offset>) | ShrinkIndex(slot: Slot)
    | ShrinkSwap(slot: Slot) | ShrinkDone(slot: Slot)
    | Remove(slots: set<Slot>, why: Removal) | DropStore(slot: Slot) | DropCached(slot: Slot)
    | Write(slot: Slot, account: Account)

  // ---- What the key logically has ----

  function Visible(w: World, visible: set<Slot>): set<Slot> {
    w.index.Keys * visible
  }

  ghost predicate HasContent(w: World, s: Slot) {
    && s in w.index
    && match w.index[s]
       case Cached => s in w.cache
       case AppendVec(id, o) => (id, o) in w.records
  }

  ghost function Content(w: World, s: Slot): Account
    requires HasContent(w, s)
  {
    match w.index[s]
    case Cached => w.cache[s]
    case AppendVec(id, o) => w.records[(id, o)]
  }

  /** A load hides accounts without lamports. */
  function Shown(account: Account): Option<Account> {
    if account.lamports == 0 then None else Some(account)
  }

  /** What a reader of these slots should load: the newest version. */
  ghost function Logical(w: World, visible: set<Slot>): Option<Account> {
    var slots := Visible(w, visible);
    if slots == {} || !HasContent(w, Database.Newest(slots)) then None else Shown(Content(w, Database.Newest(slots)))
  }

  // ---- The invariant of the world ----

  ghost predicate JobOk(w: World, s: Slot)
    requires s in w.jobs
  {
    match w.jobs[s]
    case Flush(id, record, indexed) =>
      && s in w.stores && w.stores[s] == id && s !in w.shrinking
      && (match record
          case None => !indexed && s !in w.index
          case Some(o) =>
            && (id, o) in w.records && s in w.cache && w.records[(id, o)] == w.cache[s] && s in w.index
            && w.index[s] == if indexed then AppendVec(id, o) else Cached)
    case Shrink(oldId, id, record, indexed, swapped) =>
      && s in w.shrinking && w.shrinking[s] == id != oldId && s !in w.cache
      && s in w.stores && w.stores[s] == (if swapped then id else oldId)
      && (match record
          case None => !indexed && (s in w.index ==> !swapped && w.index[s].AppendVec? && w.index[s].id == oldId)
          case Some(o) =>
            && (id, o) in w.records && s in w.index && w.index[s].AppendVec?
            && (if indexed then w.index[s] == AppendVec(id, o)
                else !swapped && w.index[s].id == oldId && HasContent(w, s) && w.records[(id, o)] == Content(w, s)))
  }

  /** Every index entry leads to an account, in the cache or in a storage that can be found. */
  ghost predicate SlotOk(w: World, s: Slot) {
    && (s in w.index ==> HasContent(w, s))
    && (s in w.index && w.index[s].AppendVec? ==>
          (s in w.stores && w.stores[s] == w.index[s].id) || (s in w.shrinking && w.shrinking[s] == w.index[s].id))
    && (s in w.stores ==> w.stores[s] < w.nextId)
    && (s in w.shrinking ==> w.shrinking[s] < w.nextId)
    && (if s in w.jobs then JobOk(w, s) else s !in w.shrinking)
  }

  ghost predicate WorldOk(w: World) {
    && (forall s :: SlotOk(w, s))
    && (forall r :: r in w.records ==> r.0 < w.nextId)
  }

  // ---- What jobs remove ----

  /** The world shows what the database has of a key. */
  ghost predicate Shows(db: Database.Db, k: Pubkey, w: World) {
    forall s :: ShowsAt(db, k, w, s)
  }

  ghost predicate ShowsAt(db: Database.Db, k: Pubkey, w: World, s: Slot) {
    && (s in w.index <==> Database.IsLive(db.index, s, k))
    && (s in w.index ==>
          && w.index[s] == db.index[k].slots[s].location
          && Database.Located(db, k, s) && HasContent(w, s) && Content(w, s) == Database.AccountAt(db, k, s))
  }

  /** The reader sees of the key what the view sees. */
  ghost predicate SeesLike(w: World, visible: set<Slot>, db: Database.Db, view: Database.View) {
    forall s :: s in w.index ==> (s in visible <==> Database.Sees(db.roots, view, s))
  }

  /** The conditions under which trimming, purging, flushing and shrinking remove entries of a key. */
  ghost predicate KindOk(w: World, why: Removal, slots: set<Slot>) {
    var Removal(db, everRooted, k, view, kind) := why;
    match kind
    case Trim(bound, gone) =>
      && Database.Current(everRooted, bound, view) && Cleaning.FlushedUpTo(db, bound)
      && Cleaning.OutdatedOnly(db, bound, gone) && k in gone && slots == gone[k] && slots !! w.jobs.Keys
    case Purge(bound, gone) =>
      && Database.Current(everRooted, bound, view)
      && k in gone && Cleaning.PurgeableKey(db, bound, gone, k) && slots == gone[k] && slots !! w.jobs.Keys
    case LeaveBehind(slot, cleaned) =>
      && cleaned <= view.maxRoot && Flushing.Superseded(db, slot, cleaned, k) && slots == {slot} && slot !in w.jobs
    case Vanish(slot, alive, dead, zeros) =>
      && Database.Current(everRooted, 0, view) && Shrinking.CacheAhead(db)
      && slot in db.storage && Shrinking.Sorted(db, slot, alive, dead, zeros) && k in zeros && slots == {slot}
      && slot in w.jobs && w.jobs[slot].Shrink? && w.jobs[slot].record.None?
  }

  /** A job removes entries from the index of a database that shows the key as the world does. */
  ghost predicate Removes(w: World, visible: set<Slot>, slots: set<Slot>, why: Removal) {
    && Database.Inv(why.db) && Database.RootsOk(why.db, why.everRooted)
    && Shows(why.db, why.key, w) && SeesLike(w, visible, why.db, why.view)
    && KindOk(w, why, slots)
  }

  lemma SameVisible(db: Database.Db, k: Pubkey, view: Database.View, w: World, visible: set<Slot>)
    requires Shows(db, k, w) && SeesLike(w, visible, db, view)
    ensures Visible(w, visible) == Database.VisibleSlots(db, k, view)
  {
    forall s
      ensures s in Visible(w, visible) <==> s in Database.VisibleSlots(db, k, view)
    {
      assert ShowsAt(db, k, w, s);
    }
  }

  /** The reader should load what the view loads from the database. */
  lemma LogicalIsLoad(db: Database.Db, k: Pubkey, view: Database.View, w: World, visible: set<Slot>)
    requires Database.IndexOk(db) && Shows(db, k, w) && SeesLike(w, visible, db, view)
    ensures Logical(w, visible) == Database.Load(db, k, view)
  {
    SameVisible(db, k, view, w, visible);
    if Visible(w, visible) != {} {
      assert ShowsAt(db, k, w, Database.Newest(Visible(w, visible)));
    }
  }

  /** Without these versions of the key, the view loads the same. */
  ghost predicate Harmless(db: Database.Db, k: Pubkey, view: Database.View, slots: set<Slot>)
    requires Database.IndexOk(db)
  {
    var seen := Database.VisibleSlots(db, k, view);
    seen != {} ==> Database.Newest(seen) !in slots || (seen <= slots && Database.Load(db, k, view) == None)
  }

  /** Outdated versions are older than a version the view sees. */
  lemma TrimIsHarmless(db: Database.Db, bound: Slot, gone: Removing.Gone, k: Pubkey, view: Database.View)
    requires Database.IndexOk(db) && Database.StoresOk(db) && Cleaning.FlushedUpTo(db, bound)
    requires Cleaning.OutdatedOnly(db, bound, gone) && k in gone && bound <= view.maxRoot
    ensures Harmless(db, k, view, gone[k])
  {
    var seen := Database.VisibleSlots(db, k, view);
    forall s | s in seen && s in gone[k]
      ensures s < Database.Newest(seen)
    {
      Cleaning.OutdatedIsSuperseded(db, bound, gone, k, s);
      assert Cleaning.NewestRoot(db.index[k].slots, db.roots, bound) in seen;
    }
  }

  /** The view finds nothing under a purged key, unless it sees a newer version that stays. */
  lemma PurgeIsHarmless(db: Database.Db, everRooted: set<Slot>, bound: Slot, gone: Removing.Gone, k: Pubkey,
                        view: Database.View)
    requires Database.IndexOk(db) && Database.StoresOk(db) && Database.CacheOk(db) && Database.RootsOk(db, everRooted)
    requires k in gone && Cleaning.PurgeableKey(db, bound, gone, k) && Database.Current(everRooted, bound, view)
    ensures Harmless(db, k, view, gone[k])
  {
    Cleaning.PurgedLoadsNothing(db, bound, gone, everRooted, k, view);
  }

  /** A version a flush leaves behind is older than a root the view sees. */
  lemma LeaveBehindIsHarmless(db: Database.Db, slot: Slot, cleaned: Slot, k: Pubkey, view: Database.View)
    requires Database.IndexOk(db) && Flushing.Superseded(db, slot, cleaned, k) && cleaned <= view.maxRoot
    ensures Harmless(db, k, view, {slot})
  {
    var t :| slot < t <= cleaned && t in db.roots && Database.IsLive(db.index, t, k);
    assert t in Database.VisibleSlots(db, k, view);
  }

  /** A version that vanishes in a shrink has no lamports, and the view sees none that is older. */
  lemma VanishIsHarmless(db: Database.Db, everRooted: set<Slot>, slot: Slot, alive: seq<Database.Stored>,
                         dead: set<Pubkey>, zeros: set<Pubkey>, k: Pubkey, view: Database.View)
    requires Database.IndexOk(db) && Database.StoresOk(db) && Database.RefsOk(db, map[]) && Shrinking.CacheAhead(db)
    requires db.cache.Keys !! db.storage.Keys && Database.RootsOk(db, everRooted)
             && Database.Current(everRooted, 0, view)
    requires slot in db.storage && Shrinking.Sorted(db, slot, alive, dead, zeros) && k in zeros
    ensures Harmless(db, k, view, {slot})
  {
    Shrinking.VanishingLoadsNothing(db, slot, alive, dead, zeros, everRooted, k, view);
  }

  lemma KindIsHarmless(w: World, why: Removal, slots: set<Slot>)
    requires Database.Inv(why.db) && Database.RootsOk(why.db, why.everRooted)
    requires KindOk(w, why, slots)
    ensures Harmless(why.db, why.key, why.view, slots)
  {
    var Removal(db, everRooted, k, view, kind) := why;
    match kind
    case Trim(bound, gone) => TrimIsHarmless(db, bound, gone, k, view);
    case Purge(bound, gone) => PurgeIsHarmless(db, everRooted, bound, gone, k, view);
    case LeaveBehind(slot, cleaned) => LeaveBehindIsHarmless(db, slot, cleaned, k, view);
    case Vanish(slot, alive, dead, zeros) => VanishIsHarmless(db, everRooted, slot, alive, dead, zeros, k, view);
  }

  lemma JobsAllow(w: World, why: Removal, slots: set<Slot>)
    requires KindOk(w, why, slots)
    ensures forall s :: s in slots && s in w.jobs ==> w.jobs[s].Shrink? && w.jobs[s].record.None?
  {
  }

  /** No job removes what a reader relies on. */
  lemma RemovalIsSafe(w: World, visible: set<Slot>, slots: set<Slot>, why: Removal)
    requires Removes(w, visible, slots, why)
    ensures MayRemove(w, visible, slots)
  {
    KindIsHarmless(w, why, slots);
    JobsAllow(w, why, slots);
    HarmlessIsSafe(w, visible, slots, why.db, why.key, why.view);
  }

  lemma HarmlessIsSafe(w: World, visible: set<Slot>, slots: set<Slot>, db: Database.Db, k: Pubkey, view: Database.View)
    requires Database.IndexOk(db) && Shows(db, k, w) && SeesLike(w, visible, db, view) && Harmless(db, k, view, slots)
    requires forall s :: s in slots && s in w.jobs ==> w.jobs[s].Shrink? && w.jobs[s].record.None?
    ensures MayRemove(w, visible, slots)
  {
    SameVisible(db, k, view, w, visible);
    LogicalIsLoad(db, k, view, w, visible);
  }

  /** What no removal may do to a reader: change the newest version it sees, unless that is empty and all go. */
  ghost predicate MayRemove(w: World, visible: set<Slot>, slots: set<Slot>) {
    var seen := Visible(w, visible);
    && (forall s :: s in slots && s in w.jobs ==> w.jobs[s].Shrink? && w.jobs[s].record.None?)
    && (seen != {} ==> Database.Newest(seen) !in slots || (seen <= slots && Logical(w, visible) == None))
  }

  // ---- Steps of the background jobs ----

  ghost predicate JobStep(visible: set<Slot>, w: World, e: Event, w': World) {
    if e.Remove? then Removes(w, visible, e.slots, e.why) && w' == w.(index := w.index - e.slots)
    else WorldStep(visible, w, e, w')
  }

  /** The steps, with all that readers rely on in a removal. */
  ghost predicate WorldStep(visible: set<Slot>, w: World, e: Event, w': World) {
    match e
    case ReadIndex => false
    case Probe => false
    case FlushCreate(s, record) =>
      && s !in w.jobs && s !in w.stores
      && (record.None? ==> s !in w.index) && (record.Some? ==> s in w.cache && s in w.index && w.index[s] == Cached)
      && w' == w.(stores := w.stores[s := w.nextId], nextId := w.nextId + 1,
                  records := Recorded(w, record, if s in w.cache then Some(w.cache[s]) else None),
                  jobs := w.jobs[s := Flush(w.nextId, record, false)])
    case FlushIndex(s) =>
      && s in w.jobs && w.jobs[s].Flush? && w.jobs[s].record.Some? && !w.jobs[s].indexed
      && w' == w.(index := w.index[s := AppendVec(w.jobs[s].id, w.jobs[s].record.value)],
                  jobs := w.jobs[s := Indexed(w.jobs[s])])
    case FlushDone(s) =>
      && s in w.jobs && w.jobs[s].Flush? && (w.jobs[s].record.Some? ==> w.jobs[s].indexed)
      && w' == w.(cache := w.cache - {s}, jobs := w.jobs - {s})
    case ShrinkCreate(s, record) =>
      && s in w.stores && s !in w.jobs && s !in w.cache && (record.Some? ==> s in w.index)
      && w' == w.(shrinking := w.shrinking[s := w.nextId], nextId := w.nextId + 1,
                  records := Recorded(w, record, if HasContent(w, s) then Some(Content(w, s)) else None),
                  jobs := w.jobs[s := Shrink(w.stores[s], w.nextId, record, false, false)])
    case ShrinkIndex(s) =>
      && s in w.jobs && w.jobs[s].Shrink? && w.jobs[s].record.Some? && !w.jobs[s].indexed
      && w' == w.(index := w.index[s := AppendVec(w.jobs[s].id, w.jobs[s].record.value)],
                  jobs := w.jobs[s := Indexed(w.jobs[s])])
    case ShrinkSwap(s) =>
      && s in w.jobs && w.jobs[s].Shrink? && !w.jobs[s].swapped
      && (if w.jobs[s].record.Some? then w.jobs[s].indexed else s !in w.index)
      && w' == w.(stores := w.stores[s := w.jobs[s].id], jobs := w.jobs[s := Swapped(w.jobs[s])])
    case ShrinkDone(s) =>
      && s in w.jobs && w.jobs[s].Shrink? && w.jobs[s].swapped
      && w' == w.(shrinking := w.shrinking - {s}, jobs := w.jobs - {s})
    case Remove(slots, _) =>
      MayRemove(w, visible, slots) && w' == w.(index := w.index - slots)
    case DropStore(s) =>
      && s in w.stores && s !in w.index && s !in w.jobs
      && w' == w.(stores := w.stores - {s})
    case DropCached(s) =>
      && s in w.cache && s !in w.index && s !in w.jobs
      && w' == w.(cache := w.cache - {s})
    case Write(s, account) =>
      && s !in visible && s !in w.jobs && s !in w.stores
      && w' == w.(index := w.index[s := Cached], cache := w.cache[s := account])
  }

  function Indexed(job: Job): Job {
    match job
    case Flush(id, record, _) => Flush(id, record, true)
    case Shrink(oldId, id, record, _, swapped) => Shrink(oldId, id, record, true, swapped)
  }

  function Swapped(job: Job): Job {
    match job
    case Flush(_, _, _) => job
    case Shrink(oldId, id, record, indexed, _) => Shrink(oldId, id, record, indexed, true)
  }

  /** The records after a new storage is written, with the key's account when it is in it. */
  function Recorded(w: World, record: Option<Offset>, account: Option<Account>): map<(StoreId, Offset), Account> {
    if record.Some? && account.Some? then w.records[(w.nextId, record.value) := account.value] else w.records
  }

  // ---- Steps of the reader ----

  /** Two locations of a slot are in the same storage, or both in the cache. */
  predicate SameStore(a: Location, b: Location) {
    match (a, b)
    case (Cached, Cached) => true
    case (AppendVec(i, _), AppendVec(j, _)) => i == j
    case _ => false
  }

  function InMap(m: map<Slot, StoreId>, s: Slot, id: StoreId): bool {
    s in m && m[s] == id
  }

  /** Reading the index. A retry that finds the place that just failed is a bad index entry. */
  ghost predicate ReadStep(visible: set<Slot>, c: Config, c': Config) {
    var seen := Visible(c.world, visible);
    && (c.reader.Start? || c.reader.Missed?)
    && c' == c.(reader := c'.reader, readAt := c.moves)
    && if seen == {} then c'.reader == Nothing
       else
         var s := Database.Newest(seen);
         var bad := c.reader.Missed? && s == c.reader.slot && SameStore(c.world.index[s], c.reader.loc);
         c'.reader == if bad then Panicked else Looking(s, c.world.index[s], 0)
  }

  /** Looking in the cache or in one of the two maps. */
  ghost predicate ProbeStep(c: Config, c': Config) {
    && c.reader.Looking?
    && var Looking(s, loc, stage) := c.reader;
       match loc
       case Cached =>
         if s in c.world.cache then c' == c.(reader := Found(c.world.cache[s]))
         else c' == c.(reader := Missed(s, loc), cacheMisses := c.cacheMisses + 1, failures := c.failures + 1)
       case AppendVec(id, o) =>
         var found := InMap(if stage == 1 then c.world.shrinking else c.world.stores, s, id);
         if found && (id, o) in c.world.records then c' == c.(reader := Found(c.world.records[(id, o)]))
         else if stage < 2 then c' == c.(reader := Looking(s, loc, stage + 1))
         else c' == c.(reader := Missed(s, loc), failures := c.failures + 1)
  }

  /** Does the step change an index entry the reader can see? */
  predicate Moves(w: World, visible: set<Slot>, e: Event) {
    match e
    case FlushIndex(s) => s in visible
    case ShrinkIndex(s) => s in visible
    case Remove(slots, _) => Visible(w, visible) * slots != {}
    case _ => false
  }

  ghost predicate Step(visible: set<Slot>, c: Config, e: Event, c': Config) {
    match e
    case ReadIndex => ReadStep(visible, c, c')
    case Probe => ProbeStep(c, c')
    case _ => JobStep(visible, c.world, e, c'.world) && Goes(visible, c, e, c')
  }

  /** The world moves on under the reader. */
  ghost predicate Goes(visible: set<Slot>, c: Config, e: Event, c': Config) {
    c' == c.(world := c'.world, moves := c.moves + if Moves(c.world, visible, e) then 1 else 0)
  }

  /** A step moves an entry the reader sees exactly when it changes or removes one. */
  lemma MovesChange(visible: set<Slot>, w: World, e: Event, w': World)
    requires WorldOk(w)
    requires if e.Remove? then w'.index == w.index - e.slots else WorldStep(visible, w, e, w')
    ensures Moves(w, visible, e) <==>
            exists s :: s in visible && s in w.index && (s in w'.index ==> w'.index[s] != w.index[s])
  {
    match e
    case FlushIndex(s) => assert SlotOk(w, s);
    case ShrinkIndex(s) => assert SlotOk(w, s);
    case Remove(slots, _) =>
      if Moves(w, visible, e) {
        var s :| s in Visible(w, visible) * slots;
        assert s in visible && s in w.index && s !in w'.index;
      }
      if s :| s in visible && s in w.index && (s in w'.index ==> w'.index[s] != w.index[s]) {
        assert s in Visible(w, visible) * slots;
      }
    case _ =>
  }

  // ---- The invariant of the world is kept ----

  /** Nothing about the slot changes, and records and storage ids are only added. */
  ghost predicate SameSlot(w: World, w': World, s: Slot) {
    && (s in w.index <==> s in w'.index) && (s in w.index ==> w'.index[s] == w.index[s])
    && (s in w.cache <==> s in w'.cache) && (s in w.cache ==> w'.cache[s] == w.cache[s])
    && (s in w.stores <==> s in w'.stores) && (s in w.stores ==> w'.stores[s] == w.stores[s])
    && (s in w.shrinking <==> s in w'.shrinking) && (s in w.shrinking ==> w'.shrinking[s] == w.shrinking[s])
    && (s in w.jobs <==> s in w'.jobs) && (s in w.jobs ==> w'.jobs[s] == w.jobs[s])
  }

  ghost predicate Grows(w: World, w': World) {
    w.nextId <= w'.nextId && forall r :: r in w.records ==> r in w'.records && w'.records[r] == w.records[r]
  }

  lemma SameSlotIsOk(w: World, w': World, s: Slot)
    requires SlotOk(w, s) && SameSlot(w, w', s) && Grows(w, w')
    ensures SlotOk(w', s)
    ensures s in w.index ==> Content(w', s) == Content(w, s)
  {
  }

  /** The one slot a step works on. */
  function SlotOf(e: Event): Option<Slot> {
    match e
    case FlushCreate(s, _) => Some(s)
    case FlushIndex(s) => Some(s)
    case FlushDone(s) => Some(s)
    case ShrinkCreate(s, _) => Some(s)
    case ShrinkIndex(s) => Some(s)
    case ShrinkSwap(s) => Some(s)
    case ShrinkDone(s) => Some(s)
    case DropStore(s) => Some(s)
    case DropCached(s) => Some(s)
    case Write(s, _) => Some(s)
    case _ => None
  }

  lemma StepGrows(visible: set<Slot>, w: World, e: Event, w': World)
    requires WorldOk(w) && WorldStep(visible, w, e, w')
    ensures Grows(w, w') && forall r :: r in w'.records ==> r.0 < w'.nextId
  {
  }

  lemma StepElsewhere(visible: set<Slot>, w: World, e: Event, w': World, s: Slot)
    requires WorldOk(w) && WorldStep(visible, w, e, w')
    requires if e.Remove? then s !in e.slots else SlotOf(e) != Some(s)
    ensures SameSlot(w, w', s)
  {
  }

  /** The slot the step works on stays as it should be, and shows the same account to readers that see it. */
  lemma StepHere(visible: set<Slot>, w: World, e: Event, w': World, s: Slot)
    requires WorldOk(w) && WorldStep(visible, w, e, w') && SlotOf(e) == Some(s)
    ensures SlotOk(w', s)
    ensures s in visible ==> (s in w'.index <==> s in w.index)
    ensures s in visible && s in w.index ==> HasContent(w, s) && Content(w', s) == Content(w, s)
  {
    assert SlotOk(w, s);
  }

  lemma RemovedHere(visible: set<Slot>, w: World, e: Event, w': World, s: Slot)
    requires WorldOk(w) && WorldStep(visible, w, e, w') && e.Remove? && s in e.slots
    ensures SlotOk(w', s)
  {
    assert SlotOk(w, s);
  }

  lemma SafeStepKeepsWorld(visible: set<Slot>, w: World, e: Event, w': World)
    requires WorldOk(w) && WorldStep(visible, w, e, w')
    ensures WorldOk(w')
  {
    StepGrows(visible, w, e, w');
    forall s
      ensures SlotOk(w', s)
    {
      if e.Remove? && s in e.slots {
        RemovedHere(visible, w, e, w', s);
      } else if SlotOf(e) == Some(s) {
        StepHere(visible, w, e, w', s);
      } else {
        StepElsewhere(visible, w, e, w', s);
        assert SlotOk(w, s);
        SameSlotIsOk(w, w', s);
      }
    }
  }

  /** Every version the reader sees that is not removed stays, with the same account. */
  lemma StepKeepsVersion(visible: set<Slot>, w: World, e: Event, w': World, s: Slot)
    requires WorldOk(w) && WorldStep(visible, w, e, w') && s in visible
    ensures s in w'.index <==> s in w.index && !(e.Remove? && s in e.slots)
    ensures s in w'.index ==> HasContent(w, s) && HasContent(w', s) && Content(w', s) == Content(w, s)
  {
    StepGrows(visible, w, e, w');
    assert SlotOk(w, s);
    if e.Remove? && s in e.slots {
    } else if SlotOf(e) == Some(s) {
      StepHere(visible, w, e, w', s);
    } else {
      StepElsewhere(visible, w, e, w', s);
      SameSlotIsOk(w, w', s);
    }
  }

  lemma SafeStepKeepsLogical(visible: set<Slot>, w: World, e: Event, w': World)
    requires WorldOk(w) && WorldStep(visible, w, e, w') && WorldOk(w')
    ensures Logical(w', visible) == Logical(w, visible)
    ensures var seen, seen' := Visible(w, visible), Visible(w', visible);
            seen' != {} ==> seen != {} && Database.Newest(seen') == Database.Newest(seen)
  {
    var seen, seen' := Visible(w, visible), Visible(w', visible);
    forall s | s in visible
      ensures s in seen' <==> s in seen && !(e.Remove? && s in e.slots)
      ensures s in seen' ==> HasContent(w, s) && HasContent(w', s) && Content(w', s) == Content(w, s)
    {
      StepKeepsVersion(visible, w, e, w', s);
    }
    if seen != {} {
      assert SlotOk(w, Database.Newest(seen));
    }
    if seen' != {} {
      var n := Database.Newest(seen);
      assert n in seen';
      assert Database.Newest(seen') == n;
    }
  }

  lemma JobIsSafe(visible: set<Slot>, w: World, e: Event, w': World)
    requires JobStep(visible, w, e, w')
    ensures WorldStep(visible, w, e, w')
  {
    if e.Remove? {
      RemovalIsSafe(w, visible, e.slots, e.why);
    }
  }

  /** Every step of a job keeps the invariant of the world. */
  lemma StepKeepsWorld(visible: set<Slot>, w: World, e: Event, w': World)
    requires WorldOk(w) && JobStep(visible, w, e, w')
    ensures WorldOk(w')
  {
    JobIsSafe(visible, w, e, w');
    SafeStepKeepsWorld(visible, w, e, w');
  }

  /** The key logically has the same account after every step of a job, whatever the job removes. */
  lemma StepKeepsLogical(visible: set<Slot>, w: World, e: Event, w': World)
    requires WorldOk(w) && JobStep(visible, w, e, w')
    ensures Logical(w', visible) == Logical(w, visible)
    ensures var seen, seen' := Visible(w, visible), Visible(w', visible);
            seen' != {} ==> seen != {} && Database.Newest(seen') == Database.Newest(seen)
  {
    JobIsSafe(visible, w, e, w');
    SafeStepKeepsWorld(visible, w, e, w');
    SafeStepKeepsLogical(visible, w, e, w');
  }

  // ---- The reader ----

  /** The storage is not one a job has written but not yet put in the index. */
  ghost predicate Published(w: World, s: Slot, id: StoreId) {
    s in w.jobs && !w.jobs[s].indexed ==> w.jobs[s].id != id
  }

  /** What the reader knows: nothing it finds can be wrong, and what it missed has moved. */
  ghost predicate ReaderOk(visible: set<Slot>, truth: Option<Account>, c: Config)
  {
    var w := c.world;
    match c.reader
    case Start => c.failures == 0 && c.cacheMisses == 0
    case Looking(s, loc, stage) =>
      && s in visible && stage < 3 && c.failures <= c.readAt <= c.moves
      && (c.moves == c.readAt ==> s in w.index && w.index[s] == loc)
      && (Visible(w, visible) != {} ==> Database.Newest(Visible(w, visible)) == s)
      && (match loc
          case Cached => stage == 0 && c.cacheMisses == 0 && (s in w.cache ==> Shown(w.cache[s]) == truth)
          case AppendVec(id, o) =>
            && (id, o) in w.records && Shown(w.records[(id, o)]) == truth && Published(w, s, id)
            && (stage == 2 ==> !InMap(w.shrinking, s, id)))
    case Missed(s, loc) =>
      && s in visible && c.failures <= c.moves
      && (match loc
          case Cached => s !in w.cache
          case AppendVec(id, o) =>
            (id, o) in w.records && !InMap(w.stores, s, id) && !InMap(w.shrinking, s, id))
    case Found(account) => Shown(account) == truth
    case Nothing => truth == None
    case Panicked => false
  }

  /** Once the cache has missed, the newest visible version is not in the cache. */
  ghost predicate MissedOnce(visible: set<Slot>, c: Config) {
    && c.cacheMisses <= 1
    && (c.cacheMisses == 1 ==>
          var seen := Visible(c.world, visible); seen != {} ==> c.world.index[Database.Newest(seen)].AppendVec?)
  }

  ghost predicate ConfigOk(visible: set<Slot>, truth: Option<Account>, c: Config) {
    && WorldOk(c.world) && Logical(c.world, visible) == truth
    && ReaderOk(visible, truth, c) && MissedOnce(visible, c)
  }

  lemma ReadKeepsOk(visible: set<Slot>, truth: Option<Account>, c: Config, c': Config)
    requires ConfigOk(visible, truth, c) && ReadStep(visible, c, c')
    ensures ConfigOk(visible, truth, c')
  {
    var seen := Visible(c.world, visible);
    if seen != {} {
      assert SlotOk(c.world, Database.Newest(seen));
    }
  }

  lemma ProbeKeepsOk(visible: set<Slot>, truth: Option<Account>, c: Config, c': Config)
    requires ConfigOk(visible, truth, c) && ProbeStep(c, c')
    ensures ConfigOk(visible, truth, c')
  {
    assert SlotOk(c.world, c.reader.slot);
  }

  lemma JobKeepsLooking(visible: set<Slot>, truth: Option<Account>, c: Config, e: Event, c': Config)
    requires ConfigOk(visible, truth, c) && WorldStep(visible, c.world, e, c'.world) && Goes(visible, c, e, c')
             && WorldOk(c'.world)
    requires c.reader.Looking?
    ensures ReaderOk(visible, truth, c')
  {
    StepGrows(visible, c.world, e, c'.world);
    SafeStepKeepsLogical(visible, c.world, e, c'.world);
    var s := c.reader.slot;
    assert SlotOk(c.world, s);
    if e.Remove? && s in e.slots {
      assert s in c.world.index ==> s in Visible(c.world, visible) * e.slots;
    } else if SlotOf(e) != Some(s) {
      StepElsewhere(visible, c.world, e, c'.world, s);
    }
  }

  lemma JobKeepsMissed(visible: set<Slot>, truth: Option<Account>, c: Config, e: Event, c': Config)
    requires ConfigOk(visible, truth, c) && WorldStep(visible, c.world, e, c'.world) && Goes(visible, c, e, c')
             && WorldOk(c'.world)
    requires c.reader.Missed?
    ensures ReaderOk(visible, truth, c')
  {
    StepGrows(visible, c.world, e, c'.world);
    var s := c.reader.slot;
    assert SlotOk(c.world, s);
    if SlotOf(e) != Some(s) && !(e.Remove? && s in e.slots) {
      StepElsewhere(visible, c.world, e, c'.world, s);
    }
  }

  lemma JobKeepsMisses(visible: set<Slot>, truth: Option<Account>, c: Config, e: Event, c': Config)
    requires ConfigOk(visible, truth, c) && WorldStep(visible, c.world, e, c'.world) && Goes(visible, c, e, c')
             && WorldOk(c'.world)
    ensures MissedOnce(visible, c')
  {
    SafeStepKeepsLogical(visible, c.world, e, c'.world);
    var seen := Visible(c'.world, visible);
    if seen != {} {
      var s := Database.Newest(seen);
      assert SlotOk(c.world, s);
      StepKeepsVersion(visible, c.world, e, c'.world, s);
      if SlotOf(e) != Some(s) {
        StepElsewhere(visible, c.world, e, c'.world, s);
      }
    }
  }

  lemma StepKeepsOk(visible: set<Slot>, truth: Option<Account>, c: Config, e: Event, c': Config)
    requires ConfigOk(visible, truth, c) && Step(visible, c, e, c')
    ensures ConfigOk(visible, truth, c')
  {
    if e.ReadIndex? {
      ReadKeepsOk(visible, truth, c, c');
    } else if e.Probe? {
      ProbeKeepsOk(visible, truth, c, c');
    } else {
      JobIsSafe(visible, c.world, e, c'.world);
      SafeStepKeepsWorld(visible, c.world, e, c'.world);
      SafeStepKeepsLogical(visible, c.world, e, c'.world);
      JobKeepsMisses(visible, truth, c, e, c');
      if c.reader.Looking? {
        JobKeepsLooking(visible, truth, c, e, c');
      } else if c.reader.Missed? {
        JobKeepsMissed(visible, truth, c, e, c');
      }
    }
  }

  // ---- Whole runs ----

  /** A run of the reader among the steps of the jobs, from any state the jobs can be in. */
  ghost predicate IsRun(visible: set<Slot>, configs: seq<Config>, events: seq<Event>) {
    && |configs| == |events| + 1
    && WorldOk(configs[0].world) && configs[0].reader == Start
    && configs[0].cacheMisses == 0 && configs[0].failures == 0 && configs[0].moves == 0
    && forall i :: 0 <= i < |events| ==> Step(visible, configs[i], events[i], configs[i + 1])
  }

  lemma {:induction false} RunKeepsOk(visible: set<Slot>, configs: seq<Config>, events: seq<Event>, i: nat)
    requires IsRun(visible, configs, events) && i < |configs|
    ensures ConfigOk(visible, Logical(configs[0].world, visible), configs[i])
  {
    if i > 0 {
      RunKeepsOk(visible, configs, events, i - 1);
      StepKeepsOk(visible, Logical(configs[0].world, visible), configs[i - 1], events[i - 1], configs[i]);
    }
  }

  /**
   * Whatever the jobs do in between, the reader returns the account the key logically had when it
   * started, never finds a bad index entry, misses the cache at most once, and fails at most as
   * often as a visible index entry moved.
   */
  lemma ReaderIsRight(visible: set<Slot>, configs: seq<Config>, events: seq<Event>, i: nat)
    requires IsRun(visible, configs, events) && i < |configs|
    ensures var truth := Logical(configs[0].world, visible);
            && (configs[i].reader.Found? ==> Shown(configs[i].reader.account) == truth)
            && (configs[i].reader.Nothing? ==> truth == None)
    ensures !configs[i].reader.Panicked? && configs[i].cacheMisses <= 1
    ensures configs[i].reader.Looking? || configs[i].reader.Missed? ==> configs[i].failures <= configs[i].moves
  {
    RunKeepsOk(visible, configs, events, i);
  }

  /**
   * A lookup fails only when the index entry it started from is no longer in place. While the entry
   * stays, the three stages find its storage, wherever a shrink's swap and removal fall between them.
   */
  lemma FailureMeansMoved(visible: set<Slot>, configs: seq<Config>, events: seq<Event>, i: nat)
    requires IsRun(visible, configs, events) && i + 1 < |configs|
    requires configs[i].reader.Looking? && configs[i + 1].reader.Missed?
    ensures !InPlace(configs[i]) && configs[i].readAt < configs[i].moves
  {
    RunKeepsOk(visible, configs, events, i);
    assert Step(visible, configs[i], events[i], configs[i + 1]);
    assert SlotOk(configs[i].world, configs[i].reader.slot);
  }

  /** The index still has the entry the reader looks up. */
  predicate InPlace(c: Config)
    requires c.reader.Looking?
  {
    c.reader.slot in c.world.index && c.world.index[c.reader.slot] == c.reader.loc
  }

  /** The last stage finds an entry that is in place, and an entry of the cache is found at once. */
  lemma InPlaceIsFound(visible: set<Slot>, configs: seq<Config>, events: seq<Event>, i: nat)
    requires IsRun(visible, configs, events) && i < |events| && events[i].Probe?
    requires configs[i].reader.Looking? && (configs[i].reader.loc.Cached? || configs[i].reader.stage == 2)
    requires InPlace(configs[i])
    ensures configs[i + 1].reader.Found?
  {
    assert Step(visible, configs[i], events[i], configs[i + 1]);
    if configs[i + 1].reader.Missed? {
      FailureMeansMoved(visible, configs, events, i);
    }
  }

  /** The assertions on the two maps of storages hold when a shrink begins, swaps and ends. */
  lemma StorageAssertsHold(visible: set<Slot>, configs: seq<Config>, events: seq<Event>, i: nat)
    requires IsRun(visible, configs, events) && i < |events| && SlotOf(events[i]).Some?
    ensures var w, s := configs[i].world, SlotOf(events[i]).value;
            && (events[i].ShrinkCreate? ==> s !in w.shrinking)
            && (events[i].ShrinkSwap? ==> s in w.jobs && w.jobs[s].Shrink? && InMap(w.stores, s, w.jobs[s].oldId))
            && (events[i].ShrinkDone? ==> s in w.shrinking)
  {
    RunKeepsOk(visible, configs, events, i);
    assert Step(visible, configs[i], events[i], configs[i + 1]);
    assert SlotOk(configs[i].world, SlotOf(events[i]).value);
  }
}
