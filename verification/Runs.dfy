/** Whole runs of the database: every load in every reachable state is what the reference remembers. */
module Runs {
  import opened Types
  import opened Database
  import opened Flushing
  import opened Reclaiming
  import opened Removing
  import opened Cleaning
  import opened Shrinking
  import opened History

  function Max(a: nat, b: nat): (r: nat)
    ensures a <= r && b <= r && (r == a || r == b)
  {
    if a < b then b else a
  }

  /** A background job that keeps the invariant and all current loads keeps the agreement with the reference. */
  lemma BackgroundIsSound(db: Db, h: History, cleaned: Slot, db': Db, cleaned': Slot)
    requires Sound(db, h, cleaned) && cleaned <= cleaned'
    requires Inv(db') && CacheAhead(db') && RootsOk(db', h.roots) && SameUnrooted(db', h)
    requires UnflushedOk(db', h.roots)
    requires forall k, view :: Current(h.roots, cleaned', view) ==> Load(db', k, view) == Load(db, k, view)
    ensures Sound(db', h, cleaned')
  {
    forall k, view | Current(h.roots, cleaned', view)
      ensures Load(db', k, view) == Recall(h, k, view)
    {
      assert Current(h.roots, cleaned, view);
      assert Load(db, k, view) == Recall(h, k, view);
    }
  }

  // ---- Clean ----

  /** The states and choices of one clean. */
  datatype CleanRun = CleanRun(trim: Gone, trimmed: Db, outdated: Reclaims, outDead: set<Slot>, middle: Db,
                               purge: Gone, purged: Db, empty: Reclaims, emptyDead: set<Slot>)

  ghost predicate TrimStep(db: Db, bound: Slot, run: CleanRun) {
    && OutdatedOnly(db, bound, run.trim) && Removed(db, run.trim, run.trimmed)
    && AllStored(db.index, run.trim) && Collects(db.index, run.trim, run.outdated)
    && Reclaimed(run.trimmed, run.outdated, run.outDead, run.middle)
  }

  ghost predicate PurgeStep(bound: Slot, run: CleanRun, db': Db) {
    && Purgeable(run.middle, bound, run.purge) && Removed(run.middle, run.purge, run.purged)
    && AllStored(run.middle.index, run.purge) && Collects(run.middle.index, run.purge, run.empty)
    && Reclaimed(run.purged, run.empty, run.emptyDead, db')
  }

  lemma TrimIsSound(db: Db, h: History, cleaned: Slot, bound: Slot, run: CleanRun)
    requires Sound(db, h, cleaned) && FlushedUpTo(db, bound) && TrimStep(db, bound, run)
    ensures InvExcept(run.trimmed, run.outdated)
    ensures Sound(run.middle, h, Max(cleaned, bound)) && FlushedUpTo(run.middle, bound)
  {
    TrimKeepsInv(db, bound, run.trim, run.trimmed, run.outdated);
    ReclaimKeepsInv(run.trimmed, run.outdated, run.outDead, run.middle);
    RemoveKeepsRoots(db, run.trim, run.trimmed, h.roots);
    ReclaimKeepsRoots(run.trimmed, run.outdated, run.outDead, run.middle, h.roots);
    forall k, view | Current(h.roots, Max(cleaned, bound), view)
      ensures Load(run.middle, k, view) == Load(db, k, view)
    {
      TrimKeepsLoads(db, bound, run.trim, run.trimmed, k, view);
      ReclaimKeepsLoads(run.trimmed, run.outdated, run.outDead, run.middle, k, view);
    }
    BackgroundIsSound(db, h, cleaned, run.middle, Max(cleaned, bound));
  }

  lemma PurgeIsSound(h: History, cleaned: Slot, bound: Slot, run: CleanRun, db': Db)
    requires Sound(run.middle, h, cleaned) && bound <= cleaned && PurgeStep(bound, run, db')
    ensures Sound(db', h, cleaned)
    ensures InvExcept(run.purged, run.empty) && AllDie(run.purge, run.emptyDead)
  {
    PurgeKeepsInv(run.middle, bound, run.purge, run.purged, run.empty);
    ReclaimKeepsInv(run.purged, run.empty, run.emptyDead, db');
    RemoveKeepsRoots(run.middle, run.purge, run.purged, h.roots);
    ReclaimKeepsRoots(run.purged, run.empty, run.emptyDead, db', h.roots);
    forall k, view | Current(h.roots, cleaned, view)
      ensures Load(db', k, view) == Load(run.middle, k, view)
    {
      assert Current(h.roots, bound, view);
      PurgeKeepsLoads(run.middle, bound, run.purge, run.purged, h.roots, k, view);
      ReclaimKeepsLoads(run.purged, run.empty, run.emptyDead, db', k, view);
    }
    BackgroundIsSound(run.middle, h, cleaned, db', cleaned);
  }

  /** Every storage that held any version of a purged key is gone. */
  lemma PurgedKeysAreGone(bound: Slot, run: CleanRun, db': Db, k: Pubkey)
    requires IndexOk(run.middle) && CacheOk(run.middle) && RefsOk(run.middle, map[])
    requires PurgeStep(bound, run, db') && AllDie(run.purge, run.emptyDead) && k in run.purge
    ensures Holders(db'.storage, k) == {}
  {
    PurgedEverywhere(run.middle, bound, run.purge, k);
    ReclaimedRecords(run.purged, run.empty, run.emptyDead, db');
    HoldersDropped(run.purged.storage, db'.storage, run.emptyDead, k);
  }

  /** A clean changes no current load, and leaves no storage with any version of a purged key. */
  lemma CleanIsSound(db: Db, h: History, cleaned: Slot, bound: Slot, run: CleanRun, db': Db)
    requires Sound(db, h, cleaned) && FlushedUpTo(db, bound) && TrimStep(db, bound, run) && PurgeStep(bound, run, db')
    ensures Sound(db', h, Max(cleaned, bound))
    ensures forall k :: k in run.purge ==> Holders(db'.storage, k) == {}
  {
    TrimIsSound(db, h, cleaned, bound, run);
    PurgeIsSound(h, Max(cleaned, bound), bound, run, db');
    forall k | k in run.purge
      ensures Holders(db'.storage, k) == {}
    {
      PurgedKeysAreGone(bound, run, db', k);
    }
  }

  // ---- Flush ----

  /** The slots of one flush in order, what each wrote to storage, and the states in between. */
  datatype FlushRun = FlushRun(slots: seq<Slot>, keeps: seq<seq<Stored>>, states: seq<Db>)

  ghost predicate FlushStep(db: Db, slot: Slot, keep: seq<Stored>, bound: Slot, db': Db) {
    && slot in db.cache && slot in db.roots && Flushed(db, slot, keep, db')
    && forall k :: k in db.cache[slot] && k !in KeysOf(keep) ==> Superseded(db, slot, bound, k)
  }

  ghost predicate FlushSteps(db: Db, bound: Slot, run: FlushRun) {
    && |run.keeps| == |run.slots| && |run.states| == |run.slots| + 1
    && run.states[0] == db.(unflushed := run.states[0].unflushed)
    && forall i :: 0 <= i < |run.slots| ==>
         FlushStep(run.states[i], run.slots[i], run.keeps[i], bound, run.states[i + 1])
  }

  function Slots(s: seq<Slot>): set<Slot> {
    set i | 0 <= i < |s| :: s[i]
  }

  /** Every cached root is flushed or stays unflushed, and what stays is newer than what is flushed. */
  ghost predicate FlushedBelow(db: Db, run: FlushRun)
    requires |run.states| > 0
  {
    var rest := run.states[0].unflushed;
    && rest <= db.unflushed
    && (forall s :: s in db.cache && s in db.roots ==> s in rest || s in Slots(run.slots))
    && (forall s, i :: s in rest && 0 <= i < |run.slots| ==> run.slots[i] < s)
  }

  /** What a flush run keeps, state by state. */
  ghost predicate FlushInv(db: Db, h: History, bound: Slot, run: FlushRun, i: nat)
    requires Inv(db) && i < |run.states| && i <= |run.slots|
  {
    var db' := run.states[i];
    && Inv(db') && RootsOk(db', h.roots)
    && db'.cache == db.cache - Slots(run.slots[..i])
    && db.roots - Slots(run.slots[..i]) <= db'.roots <= db.roots && db'.unflushed == run.states[0].unflushed
    && db'.storage.Keys <= db.storage.Keys + Slots(run.slots[..i])
    && forall k, view :: Current(h.roots, bound, view) ==> Load(db', k, view) == Load(db, k, view)
  }

  lemma UnflushedKeepsLoad(db: Db, db': Db, k: Pubkey, view: View)
    requires IndexOk(db) && IndexOk(db') && db' == db.(unflushed := db'.unflushed)
    ensures Load(db', k, view) == Load(db, k, view)
  {
    assert VisibleSlots(db', k, view) == VisibleSlots(db, k, view);
  }

  lemma FlushInvStep(db: Db, h: History, bound: Slot, run: FlushRun, i: nat)
    requires Inv(db) && FlushSteps(db, bound, run) && i < |run.slots| && FlushInv(db, h, bound, run, i)
    ensures FlushInv(db, h, bound, run, i + 1)
  {
    var a, b, slot, keep := run.states[i], run.states[i + 1], run.slots[i], run.keeps[i];
    assert FlushStep(a, slot, keep, bound, b);
    FlushKeepsInv(a, slot, keep, b);
    FlushKeepsRoots(a, slot, keep, b, h.roots);
    forall k, view | Current(h.roots, bound, view)
      ensures Load(b, k, view) == Load(db, k, view)
    {
      FlushKeepsLoads(a, slot, keep, b, bound, k, view);
    }
    assert Slots(run.slots[..i + 1]) == Slots(run.slots[..i]) + {slot};
  }

  lemma {:induction false} FlushKeepsAll(db: Db, h: History, bound: Slot, run: FlushRun, i: nat)
    requires Inv(db) && RootsOk(db, h.roots) && FlushSteps(db, bound, run) && i <= |run.slots|
    ensures FlushInv(db, h, bound, run, i)
  {
    if i == 0 {
      SameContentsSameInv(db, run.states[0]);
      forall k, view
        ensures Load(run.states[0], k, view) == Load(db, k, view)
      {
        UnflushedKeepsLoad(db, run.states[0], k, view);
      }
    } else {
      FlushKeepsAll(db, h, bound, run, i - 1);
      FlushInvStep(db, h, bound, run, i - 1);
    }
  }

  /** A flush changes no current load. */
  lemma FlushIsSound(db: Db, h: History, cleaned: Slot, bound: Slot, run: FlushRun)
    requires Sound(db, h, cleaned) && FlushSteps(db, bound, run) && FlushedBelow(db, run)
    ensures Sound(run.states[|run.slots|], h, Max(cleaned, bound))
  {
    var n := |run.slots|;
    var db' := run.states[n];
    FlushKeepsAll(db, h, bound, run, n);
    assert run.slots[..n] == run.slots;
    forall k, view | Current(h.roots, Max(cleaned, bound), view)
      ensures Load(db', k, view) == Load(db, k, view)
    {
      assert Current(h.roots, bound, view);
    }
    FlushedSlotsWereRoots(db, h, bound, run);
    BackgroundIsSound(db, h, cleaned, db', Max(cleaned, bound));
  }

  lemma FlushedSlotsWereRoots(db: Db, h: History, bound: Slot, run: FlushRun)
    requires Inv(db) && RootsOk(db, h.roots) && FlushSteps(db, bound, run)
    ensures Slots(run.slots) <= h.roots
  {
    forall i | 0 <= i < |run.slots|
      ensures run.slots[i] in h.roots
    {
      FlushKeepsAll(db, h, bound, run, i);
      assert FlushStep(run.states[i], run.slots[i], run.keeps[i], bound, run.states[i + 1]);
    }
  }

  // ---- Shrink ----

  lemma ShrinkKeepsCache(db: Db, h: History, slot: Slot, alive: seq<Stored>, dead: set<Pubkey>, zeros: set<Pubkey>,
                         db': Db)
    requires CacheAhead(db) && UnflushedOk(db, h.roots) && SameUnrooted(db, h)
             && Shrunk(db, slot, alive, dead, zeros, db')
    ensures CacheAhead(db') && UnflushedOk(db', h.roots) && SameUnrooted(db', h)
  {
  }

  lemma ShrinkIsSound(db: Db, h: History, cleaned: Slot, slot: Slot, alive: seq<Stored>, dead: set<Pubkey>,
                      zeros: set<Pubkey>, db': Db)
    requires Sound(db, h, cleaned) && Shrunk(db, slot, alive, dead, zeros, db')
    ensures Sound(db', h, cleaned)
  {
    ShrinkKeepsInv(db, slot, alive, dead, zeros, db');
    ShrinkKeepsCache(db, h, slot, alive, dead, zeros, db');
    ShrinkKeepsRoots(db, slot, alive, dead, zeros, db', h.roots);
    forall k, view | Current(h.roots, cleaned, view)
      ensures Load(db', k, view) == Load(db, k, view)
    {
      ShrinkKeepsLoads(db, slot, alive, dead, zeros, db', h.roots, k, view);
    }
    BackgroundIsSound(db, h, cleaned, db', cleaned);
  }

  // ---- Runs ----

  datatype State = State(db: Db, history: History, cleaned: Slot)

  datatype Event =
    | Write(slot: Slot, key: Pubkey, account: Account)
    | Root(slot: Slot)
    | Flush(bound: Slot, flush: FlushRun)
    | Clean(bound: Slot, clean: CleanRun)
    | Shrink(slot: Slot, alive: seq<Stored>, dead: set<Pubkey>, zeros: set<Pubkey>)

  ghost predicate Step(a: State, e: Event, b: State) {
    match e
    case Write(slot, k, account) =>
      && slot !in a.history.roots
      && b == State(Written(a.db, slot, k, account), Remember(a.history, slot, k, account), a.cleaned)
    case Root(slot) =>
      && (forall r :: r in a.history.roots ==> r <= slot)
      && b == State(Rooted(a.db, slot), a.history.(roots := a.history.roots + {slot}), a.cleaned)
    case Flush(bound, run) =>
      && FlushSteps(a.db, bound, run) && FlushedBelow(a.db, run)
      && b == State(run.states[|run.slots|], a.history, Max(a.cleaned, bound))
    case Clean(bound, run) =>
      && FlushedUpTo(a.db, bound) && TrimStep(a.db, bound, run) && PurgeStep(bound, run, b.db)
      && b == State(b.db, a.history, Max(a.cleaned, bound))
    case Shrink(slot, alive, dead, zeros) =>
      && Shrunk(a.db, slot, alive, dead, zeros, b.db)
      && b == State(b.db, a.history, a.cleaned)
  }

  ghost predicate SoundState(a: State) {
    Sound(a.db, a.history, a.cleaned)
  }

  lemma StepIsSound(a: State, e: Event, b: State)
    requires SoundState(a) && Step(a, e, b)
    ensures SoundState(b)
  {
    match e
    case Write(slot, k, account) => WriteIsSound(a.db, a.history, a.cleaned, slot, k, account);
    case Root(slot) => RootIsSound(a.db, a.history, a.cleaned, slot);
    case Flush(bound, run) => FlushIsSound(a.db, a.history, a.cleaned, bound, run);
    case Clean(bound, run) => CleanIsSound(a.db, a.history, a.cleaned, bound, run, b.db);
    case Shrink(slot, alive, dead, zeros) => ShrinkIsSound(a.db, a.history, a.cleaned, slot, alive, dead, zeros, b.db);
  }

  ghost predicate IsRun(states: seq<State>, events: seq<Event>) {
    && |states| == |events| + 1
    && states[0] == State(EMPTY, History(map[], {}), 0)
    && forall i :: 0 <= i < |events| ==> Step(states[i], events[i], states[i + 1])
  }

  lemma {:induction false} RunIsSound(states: seq<State>, events: seq<Event>, i: nat)
    requires IsRun(states, events) && i < |states|
    ensures SoundState(states[i])
  {
    if i == 0 {
      EmptyIsSound();
    } else {
      RunIsSound(states, events, i - 1);
      StepIsSound(states[i - 1], events[i - 1], states[i]);
    }
  }

  /**
   * In every state of every run, a current reader loads the newest version it sees of all that
   * was ever written, no matter how much was flushed, cleaned and shrunk in between.
   */
  lemma EveryLoadIsRemembered(states: seq<State>, events: seq<Event>, i: nat, k: Pubkey, view: View)
    requires IsRun(states, events) && i < |states|
    requires Current(states[i].history.roots, states[i].cleaned, view)
    ensures IndexOk(states[i].db) && Load(states[i].db, k, view) == Recall(states[i].history, k, view)
  {
    RunIsSound(states, events, i);
  }
}
