/**
 * The jobs of the database, seen through one key, are traces of the steps a reader can meet. So
 * the reader of the protocol loads what the reference of a run remembers.
 */
module ReaderJobs {
  import opened Types
  import opened Database
  import opened Flushing
  import opened Reclaiming
  import opened Removing
  import opened Cleaning
  import opened Shrinking
  import opened History
  import opened ReaderProtocol
  import Runs

  // ---- A database at rest ----

  /** In a slot, the world has what the database has of the key. */
  ghost predicate RestsAt(db: Db, k: Pubkey, w: World, s: Slot) {
    && ShowsAt(db, k, w, s)
    && (s in w.cache <==> s in db.cache && k in db.cache[s]) && (s in w.cache ==> w.cache[s] == db.cache[s][k])
    && (s in w.stores <==> s in db.storage) && (s in w.stores ==> w.stores[s] == db.storage[s].id)
  }

  /** The world is that of the database between two jobs. */
  ghost predicate Rests(db: Db, k: Pubkey, w: World) {
    && (forall s :: RestsAt(db, k, w, s))
    && w.shrinking == map[] && w.jobs == map[] && w.nextId == db.nextId
    && (forall r :: r in w.records ==> r.0 < w.nextId)
  }

  lemma RestsShows(db: Db, k: Pubkey, w: World)
    requires Rests(db, k, w)
    ensures Shows(db, k, w)
  {
    forall s
      ensures ShowsAt(db, k, w, s)
    {
      assert RestsAt(db, k, w, s);
    }
  }

  lemma RestsIsOk(db: Db, k: Pubkey, w: World)
    requires StoresOk(db) && Rests(db, k, w)
    ensures WorldOk(w)
  {
    forall s
      ensures SlotOk(w, s)
    {
      assert RestsAt(db, k, w, s);
    }
  }

  /** The slots a view sees, whatever roots have been dropped since. */
  ghost function SeenSlots(everRooted: set<Slot>, view: View): set<Slot> {
    view.ancestors + set r | r in everRooted && r <= view.maxRoot
  }

  lemma SeesLikeView(db: Db, k: Pubkey, w: World, everRooted: set<Slot>, view: View)
    requires Shows(db, k, w) && RootsOk(db, everRooted)
    ensures SeesLike(w, SeenSlots(everRooted, view), db, view)
  {
    forall s | s in w.index
      ensures s in SeenSlots(everRooted, view) <==> Sees(db.roots, view, s)
    {
      assert ShowsAt(db, k, w, s);
    }
  }

  // ---- Traces ----

  /** Steps of jobs, with the worlds before, between and after them. */
  datatype Trace = Trace(worlds: seq<World>, events: seq<Event>)

  ghost predicate IsTrace(visible: set<Slot>, t: Trace, w: World, w': World) {
    && |t.worlds| == |t.events| + 1 && t.worlds[0] == w && t.worlds[|t.events|] == w'
    && forall i :: 0 <= i < |t.events| ==> JobStep(visible, t.worlds[i], t.events[i], t.worlds[i + 1])
  }

  lemma NoSteps(visible: set<Slot>, w: World) returns (t: Trace)
    ensures IsTrace(visible, t, w, w)
  {
    t := Trace([w], []);
  }

  lemma OneStep(visible: set<Slot>, w: World, e: Event, w': World) returns (t: Trace)
    requires JobStep(visible, w, e, w')
    ensures IsTrace(visible, t, w, w')
  {
    t := Trace([w, w'], [e]);
  }

  lemma Join(visible: set<Slot>, a: Trace, b: Trace, w: World, middle: World, w': World) returns (t: Trace)
    requires IsTrace(visible, a, w, middle) && IsTrace(visible, b, middle, w')
    ensures IsTrace(visible, t, w, w')
  {
    var n := |a.events|;
    t := Trace(a.worlds + b.worlds[1..], a.events + b.events);
    forall i | 0 <= i < |t.events|
      ensures JobStep(visible, t.worlds[i], t.events[i], t.worlds[i + 1])
    {
      if i < n {
        assert JobStep(visible, a.worlds[i], a.events[i], a.worlds[i + 1]);
      } else {
        assert JobStep(visible, b.worlds[i - n], b.events[i - n], b.worlds[i - n + 1]);
        assert t.worlds[i] == b.worlds[i - n];
      }
    }
  }

  lemma Then(visible: set<Slot>, a: Trace, w: World, middle: World, e: Event, w': World) returns (t: Trace)
    requires IsTrace(visible, a, w, middle) && JobStep(visible, middle, e, w')
    ensures IsTrace(visible, t, w, w')
  {
    var b := OneStep(visible, middle, e, w');
    t := Join(visible, a, b, w, middle, w');
  }

  // ---- Flush ----

  lemma FlushRestsElsewhere(db: Db, slot: Slot, keep: seq<Stored>, db': Db, k: Pubkey, w: World, w': World, s: Slot)
    requires CacheOk(db) && IndexOk(db) && Flushed(db, slot, keep, db') && s != slot
    requires RestsAt(db, k, w, s) && SameSlot(w, w', s) && Grows(w, w')
    ensures RestsAt(db', k, w', s)
  {
    FlushLiveness(db, slot, keep, db', s, k);
    if IsLive(db'.index, s, k) {
      FlushLocates(db, slot, keep, db', s, k);
    }
  }

  /** The world after a flush that writes the key. */
  function FlushedWorld(w: World, slot: Slot, o: Offset): World
    requires slot in w.cache
  {
    w.(index := w.index[slot := AppendVec(w.nextId, o)], cache := w.cache - {slot},
       stores := w.stores[slot := w.nextId],
       records := w.records[(w.nextId, o) := w.cache[slot]], nextId := w.nextId + 1)
  }

  /** A key that is written moves to the new storage, and then leaves the cache. */
  lemma FlushSteps(visible: set<Slot>, w: World, slot: Slot, o: Offset) returns (t: Trace)
    requires w.jobs == map[] && slot !in w.stores && slot in w.cache && slot in w.index && w.index[slot] == Cached
    ensures IsTrace(visible, t, w, FlushedWorld(w, slot, o))
  {
    var id := w.nextId;
    var w1 := w.(stores := w.stores[slot := id], nextId := id + 1, records := w.records[(id, o) := w.cache[slot]],
                 jobs := map[slot := Flush(id, Some(o), false)]);
    var w2 := w1.(index := w1.index[slot := AppendVec(id, o)], jobs := map[slot := Flush(id, Some(o), true)]);
    t := OneStep(visible, w, FlushCreate(slot, Some(o)), w1);
    t := Then(visible, t, w, w1, FlushIndex(slot), w2);
    assert w2.jobs - {slot} == map[];
    t := Then(visible, t, w, w2, FlushDone(slot), FlushedWorld(w, slot, o));
  }

  lemma FlushWrittenAt(db: Db, slot: Slot, keep: seq<Stored>, db': Db, k: Pubkey, w: World)
    requires CacheOk(db) && IndexOk(db) && Flushed(db, slot, keep, db') && k in KeysOf(keep)
    requires RestsAt(db, k, w, slot) && w.nextId == db.nextId
    ensures slot in w.cache && slot !in w.stores && slot in w.index && w.index[slot] == Cached
    ensures RestsAt(db', k, FlushedWorld(w, slot, OffsetOf(keep, k)), slot)
  {
    FlushLiveness(db, slot, keep, db', slot, k);
    FlushLocates(db, slot, keep, db', slot, k);
    assert FlushedKey(db, slot, keep, db'.index, k);
  }

  lemma FlushWrittenRests(db: Db, slot: Slot, keep: seq<Stored>, db': Db, k: Pubkey, w: World)
    requires CacheOk(db) && IndexOk(db) && Flushed(db, slot, keep, db') && k in KeysOf(keep) && Rests(db, k, w)
    requires slot in w.cache && RestsAt(db', k, FlushedWorld(w, slot, OffsetOf(keep, k)), slot)
    ensures Rests(db', k, FlushedWorld(w, slot, OffsetOf(keep, k)))
  {
    var w' := FlushedWorld(w, slot, OffsetOf(keep, k));
    forall s | s != slot
      ensures RestsAt(db', k, w', s)
    {
      assert RestsAt(db, k, w, s);
      FlushRestsElsewhere(db, slot, keep, db', k, w, w', s);
    }
  }

  lemma FlushWritten(db: Db, slot: Slot, keep: seq<Stored>, db': Db, k: Pubkey, visible: set<Slot>, w: World)
    returns (t: Trace, w': World)
    requires CacheOk(db) && IndexOk(db) && Flushed(db, slot, keep, db') && k in KeysOf(keep) && Rests(db, k, w)
    ensures IsTrace(visible, t, w, w') && Rests(db', k, w')
  {
    assert RestsAt(db, k, w, slot);
    FlushWrittenAt(db, slot, keep, db', k, w);
    FlushWrittenRests(db, slot, keep, db', k, w);
    t := FlushSteps(visible, w, slot, OffsetOf(keep, k));
    w' := FlushedWorld(w, slot, OffsetOf(keep, k));
  }

  /** A key that is not in the index at the slot leaves the cache. A storage is made for the others. */
  lemma FlushOthers(db: Db, slot: Slot, keep: seq<Stored>, db': Db, k: Pubkey, visible: set<Slot>, w: World)
    returns (t: Trace, w': World)
    requires slot !in w.index && slot !in w.stores && w.jobs == map[] && Flushed(db, slot, keep, db')
    ensures IsTrace(visible, t, w, w')
    ensures w'.index == w.index && w'.cache == w.cache - {slot} && w'.jobs == map[] && w'.records == w.records
    ensures w'.shrinking == w.shrinking
    ensures if keep == [] then w'.stores == w.stores && w'.nextId == w.nextId
            else w'.stores == w.stores[slot := w.nextId] && w'.nextId == w.nextId + 1
  {
    if keep != [] {
      var w1 := w.(stores := w.stores[slot := w.nextId], nextId := w.nextId + 1,
                   jobs := w.jobs[slot := Flush(w.nextId, None, false)]);
      w' := w1.(cache := w1.cache - {slot}, jobs := w1.jobs - {slot});
      t := OneStep(visible, w, FlushCreate(slot, None), w1);
      t := Then(visible, t, w, w1, FlushDone(slot), w');
    } else if slot in w.cache {
      w' := w.(cache := w.cache - {slot});
      t := OneStep(visible, w, DropCached(slot), w');
    } else {
      w' := w;
      t := NoSteps(visible, w);
      assert w.cache - {slot} == w.cache;
    }
  }

  lemma FlushLeft(db: Db, everRooted: set<Slot>, bound: Slot, slot: Slot, keep: seq<Stored>, k: Pubkey, view: View,
                  w: World)
    returns (t: Trace, w': World)
    requires Inv(db) && RootsOk(db, everRooted) && bound <= view.maxRoot && Rests(db, k, w) && slot in db.cache
    requires k in db.cache[slot] && k !in KeysOf(keep) ==> Superseded(db, slot, bound, k)
    requires k !in KeysOf(keep)
    ensures IsTrace(SeenSlots(everRooted, view), t, w, w') && w' == w.(index := w.index - {slot})
  {
    var visible := SeenSlots(everRooted, view);
    w' := w.(index := w.index - {slot});
    assert RestsAt(db, k, w, slot);
    RestsShows(db, k, w);
    if k in db.cache[slot] {
      SeesLikeView(db, k, w, everRooted, view);
      t := OneStep(visible, w, Remove({slot}, Removal(db, everRooted, k, view, LeaveBehind(slot, bound))), w');
    } else {
      assert w.index - {slot} == w.index;
      t := NoSteps(visible, w);
    }
  }

  lemma FlushLeftRests(db: Db, slot: Slot, keep: seq<Stored>, db': Db, k: Pubkey, w: World, w': World)
    requires CacheOk(db) && IndexOk(db) && Flushed(db, slot, keep, db') && k !in KeysOf(keep) && Rests(db, k, w)
    requires w'.index == w.index - {slot} && w'.cache == w.cache - {slot} && w'.jobs == map[] && w'.records == w.records
    requires w'.shrinking == w.shrinking
    requires if keep == [] then w'.stores == w.stores && w'.nextId == w.nextId
             else w'.stores == w.stores[slot := w.nextId] && w'.nextId == w.nextId + 1
    ensures Rests(db', k, w')
  {
    forall s
      ensures RestsAt(db', k, w', s)
    {
      assert RestsAt(db, k, w, s);
      if s == slot {
        FlushLiveness(db, slot, keep, db', slot, k);
      } else {
        FlushRestsElsewhere(db, slot, keep, db', k, w, w', s);
      }
    }
  }

  /** Flushing one slot is a trace of flush steps on the key. */
  lemma FlushIsTrace(db: Db, everRooted: set<Slot>, bound: Slot, slot: Slot, keep: seq<Stored>, db': Db, k: Pubkey,
                     view: View, w: World)
    returns (t: Trace, w': World)
    requires Inv(db) && RootsOk(db, everRooted) && bound <= view.maxRoot
    requires Runs.FlushStep(db, slot, keep, bound, db') && Rests(db, k, w)
    ensures IsTrace(SeenSlots(everRooted, view), t, w, w') && Rests(db', k, w')
  {
    var visible := SeenSlots(everRooted, view);
    if k in KeysOf(keep) {
      t, w' := FlushWritten(db, slot, keep, db', k, visible, w);
    } else {
      assert RestsAt(db, k, w, slot);
      var left, w1 := FlushLeft(db, everRooted, bound, slot, keep, k, view, w);
      var others, w2 := FlushOthers(db, slot, keep, db', k, visible, w1);
      t := Join(visible, left, others, w, w1, w2);
      w' := w2;
      FlushLeftRests(db, slot, keep, db', k, w, w');
    }
  }

  // ---- Shrink ----

  lemma ShrinkRests(db: Db, slot: Slot, alive: seq<Stored>, dead: set<Pubkey>, zeros: set<Pubkey>, db': Db, k: Pubkey,
                    w: World, w': World)
    requires IndexOk(db) && StoresOk(db) && CacheOk(db) && Shrunk(db, slot, alive, dead, zeros, db') && Rests(db, k, w)
    requires forall s :: s != slot ==> SameSlot(w, w', s)
    requires Grows(w, w') && RestsAt(db', k, w', slot)
    requires w'.shrinking == map[] && w'.jobs == map[] && w'.nextId == db'.nextId
    requires forall r :: r in w'.records ==> r.0 < w'.nextId
    ensures Rests(db', k, w')
  {
    forall s | s != slot
      ensures RestsAt(db', k, w', s)
    {
      assert RestsAt(db, k, w, s) && SameSlot(w, w', s);
      ShrinkLiveness(db, slot, alive, dead, zeros, db', s, k);
      if IsLive(db'.index, s, k) {
        ShrinkLocates(db, slot, alive, dead, zeros, db', s, k);
      }
    }
  }

  /** The new storage takes the place of the old one. */
  lemma ShrinkEnds(visible: set<Slot>, w: World, slot: Slot) returns (t: Trace)
    requires slot in w.jobs && w.jobs[slot].Shrink? && !w.jobs[slot].swapped
    requires if w.jobs[slot].record.Some? then w.jobs[slot].indexed else slot !in w.index
    ensures IsTrace(visible, t, w, w.(stores := w.stores[slot := w.jobs[slot].id], shrinking := w.shrinking - {slot},
                                      jobs := w.jobs - {slot}))
  {
    var w1 := w.(stores := w.stores[slot := w.jobs[slot].id], jobs := w.jobs[slot := Swapped(w.jobs[slot])]);
    var w2 := w1.(shrinking := w1.shrinking - {slot}, jobs := w1.jobs - {slot});
    assert w1.jobs - {slot} == w.jobs - {slot};
    t := OneStep(visible, w, ShrinkSwap(slot), w1);
    t := Then(visible, t, w, w1, ShrinkDone(slot), w2);
  }

  /** The world after a shrink that keeps the key. */
  ghost function ShrunkWorld(w: World, slot: Slot, o: Offset): World
    requires HasContent(w, slot)
  {
    w.(index := w.index[slot := AppendVec(w.nextId, o)], stores := w.stores[slot := w.nextId],
       records := w.records[(w.nextId, o) := Content(w, slot)], nextId := w.nextId + 1)
  }

  /** An alive key moves to the new storage before the storages are swapped. */
  lemma ShrinkSteps(visible: set<Slot>, w: World, slot: Slot, o: Offset) returns (t: Trace)
    requires w.jobs == map[] && w.shrinking == map[] && slot in w.stores && slot !in w.cache && HasContent(w, slot)
    ensures IsTrace(visible, t, w, ShrunkWorld(w, slot, o))
  {
    var oldId, id := w.stores[slot], w.nextId;
    var w1 := w.(shrinking := map[slot := id], nextId := id + 1, records := w.records[(id, o) := Content(w, slot)],
                 jobs := map[slot := Shrink(oldId, id, Some(o), false, false)]);
    var w2 := w1.(index := w1.index[slot := AppendVec(id, o)],
                  jobs := map[slot := Shrink(oldId, id, Some(o), true, false)]);
    t := OneStep(visible, w, ShrinkCreate(slot, Some(o)), w1);
    t := Then(visible, t, w, w1, ShrinkIndex(slot), w2);
    var end := ShrinkEnds(visible, w2, slot);
    assert w2.jobs - {slot} == map[] && w2.shrinking - {slot} == map[];
    t := Join(visible, t, end, w, w2, ShrunkWorld(w, slot, o));
  }

  lemma ShrinkAliveAt(db: Db, slot: Slot, alive: seq<Stored>, dead: set<Pubkey>, zeros: set<Pubkey>, db': Db, k: Pubkey,
                      w: World)
    requires IndexOk(db) && StoresOk(db) && CacheOk(db) && Shrunk(db, slot, alive, dead, zeros, db')
             && k in KeysOf(alive)
    requires RestsAt(db, k, w, slot) && w.nextId == db.nextId
    ensures slot in w.stores && slot !in w.cache && HasContent(w, slot)
    ensures RestsAt(db', k, ShrunkWorld(w, slot, OffsetOf(alive, k)), slot)
  {
    AliveIsSame(db, slot, alive, dead, zeros, OffsetOf(alive, k));
    assert ShrunkKey(db, slot, alive, dead, zeros, db'.index, k);
    ShrinkLocates(db, slot, alive, dead, zeros, db', slot, k);
  }

  lemma ShrinkAlive(db: Db, slot: Slot, alive: seq<Stored>, dead: set<Pubkey>, zeros: set<Pubkey>, db': Db, k: Pubkey,
                    visible: set<Slot>, w: World)
    returns (t: Trace, w': World)
    requires IndexOk(db) && StoresOk(db) && CacheOk(db) && Shrunk(db, slot, alive, dead, zeros, db')
             && k in KeysOf(alive)
    requires Rests(db, k, w)
    ensures IsTrace(visible, t, w, w') && Rests(db', k, w')
  {
    assert RestsAt(db, k, w, slot);
    ShrinkAliveAt(db, slot, alive, dead, zeros, db', k, w);
    t := ShrinkSteps(visible, w, slot, OffsetOf(alive, k));
    w' := ShrunkWorld(w, slot, OffsetOf(alive, k));
    ShrinkRests(db, slot, alive, dead, zeros, db', k, w, w');
  }

  /** The world while a shrink that drops the key is under way. */
  function Begun(w: World, slot: Slot): World
    requires slot in w.stores
  {
    w.(shrinking := map[slot := w.nextId], nextId := w.nextId + 1,
       jobs := map[slot := Shrink(w.stores[slot], w.nextId, None, false, false)])
  }

  /** The world after it. */
  function Dropped(w: World, slot: Slot): World {
    w.(index := w.index - {slot}, stores := w.stores[slot := w.nextId], nextId := w.nextId + 1)
  }

  /** A key that is not alive leaves the index, if it is there, before the storages are swapped. */
  lemma DropSteps(visible: set<Slot>, w: World, slot: Slot, why: Removal) returns (t: Trace)
    requires w.jobs == map[] && w.shrinking == map[] && slot in w.stores && slot !in w.cache
    requires slot in w.index ==> Removes(Begun(w, slot), visible, {slot}, why)
    ensures IsTrace(visible, t, w, Dropped(w, slot))
  {
    var w1 := Begun(w, slot);
    var w2 := w1.(index := w1.index - {slot});
    t := OneStep(visible, w, ShrinkCreate(slot, None), w1);
    if slot in w.index {
      t := Then(visible, t, w, w1, Remove({slot}, why), w2);
    } else {
      assert w1.index - {slot} == w1.index;
    }
    var end := ShrinkEnds(visible, w2, slot);
    assert w2.jobs - {slot} == map[] && w2.shrinking - {slot} == map[];
    t := Join(visible, t, end, w, w2, Dropped(w, slot));
  }

  lemma ShowsSame(db: Db, k: Pubkey, w: World, w': World)
    requires Rests(db, k, w) && w'.index == w.index && w'.cache == w.cache && w'.records == w.records
    ensures Shows(db, k, w')
  {
    forall s
      ensures ShowsAt(db, k, w', s)
    {
      assert RestsAt(db, k, w, s);
    }
  }

  lemma VanishKind(db: Db, everRooted: set<Slot>, slot: Slot, alive: seq<Stored>, dead: set<Pubkey>, zeros: set<Pubkey>,
                   k: Pubkey, view: View, w: World)
    requires CacheAhead(db) && Current(everRooted, 0, view)
    requires slot in db.storage && Sorted(db, slot, alive, dead, zeros) && k in zeros && slot in w.stores
    ensures KindOk(Begun(w, slot), Removal(db, everRooted, k, view, Vanish(slot, alive, dead, zeros)), {slot})
  {
  }

  lemma VanishRemoves(db: Db, everRooted: set<Slot>, slot: Slot, alive: seq<Stored>, dead: set<Pubkey>,
                      zeros: set<Pubkey>, k: Pubkey, view: View, w: World)
    requires Inv(db) && CacheAhead(db) && RootsOk(db, everRooted) && Current(everRooted, 0, view)
    requires slot in db.storage && Sorted(db, slot, alive, dead, zeros) && k in zeros && slot in w.stores
             && Rests(db, k, w)
    ensures Removes(Begun(w, slot), SeenSlots(everRooted, view), {slot},
                    Removal(db, everRooted, k, view, Vanish(slot, alive, dead, zeros)))
  {
    ShowsSame(db, k, w, Begun(w, slot));
    SeesLikeView(db, k, Begun(w, slot), everRooted, view);
    VanishKind(db, everRooted, slot, alive, dead, zeros, k, view, w);
  }

  /** What is live in a shrunk slot and not alive vanishes. */
  lemma NotAliveAt(db: Db, slot: Slot, alive: seq<Stored>, dead: set<Pubkey>, zeros: set<Pubkey>, db': Db, k: Pubkey,
                   w: World)
    requires IndexOk(db) && CacheOk(db) && Shrunk(db, slot, alive, dead, zeros, db') && k !in KeysOf(alive)
    requires RestsAt(db, k, w, slot) && w.nextId == db.nextId
    ensures slot in w.stores && slot !in w.cache && (slot in w.index ==> k in zeros)
    ensures RestsAt(db', k, Dropped(w, slot), slot)
  {
    ShrinkLiveness(db, slot, alive, dead, zeros, db', slot, k);
  }

  lemma ShrinkGoneRests(db: Db, slot: Slot, alive: seq<Stored>, dead: set<Pubkey>, zeros: set<Pubkey>, db': Db,
                        k: Pubkey, w: World)
    requires IndexOk(db) && StoresOk(db) && CacheOk(db) && Shrunk(db, slot, alive, dead, zeros, db') && Rests(db, k, w)
    requires RestsAt(db', k, Dropped(w, slot), slot)
    ensures Rests(db', k, Dropped(w, slot))
  {
    ShrinkRests(db, slot, alive, dead, zeros, db', k, w, Dropped(w, slot));
  }

  lemma ShrinkGoneSteps(db: Db, everRooted: set<Slot>, slot: Slot, alive: seq<Stored>, dead: set<Pubkey>,
                        zeros: set<Pubkey>, k: Pubkey, view: View, w: World)
    returns (t: Trace)
    requires Inv(db) && CacheAhead(db) && RootsOk(db, everRooted) && Current(everRooted, 0, view)
    requires slot in db.storage && Sorted(db, slot, alive, dead, zeros) && Rests(db, k, w)
    requires slot in w.stores && slot !in w.cache && (slot in w.index ==> k in zeros)
    ensures IsTrace(SeenSlots(everRooted, view), t, w, Dropped(w, slot))
  {
    if slot in w.index {
      VanishRemoves(db, everRooted, slot, alive, dead, zeros, k, view, w);
    }
    t := DropSteps(SeenSlots(everRooted, view), w, slot,
                   Removal(db, everRooted, k, view, Vanish(slot, alive, dead, zeros)));
  }

  lemma ShrinkGone(db: Db, everRooted: set<Slot>, slot: Slot, alive: seq<Stored>, dead: set<Pubkey>, zeros: set<Pubkey>,
                   db': Db, k: Pubkey, view: View, w: World)
    returns (t: Trace, w': World)
    requires Inv(db) && CacheAhead(db) && RootsOk(db, everRooted) && Current(everRooted, 0, view)
    requires Shrunk(db, slot, alive, dead, zeros, db') && k !in KeysOf(alive) && Rests(db, k, w)
    ensures IsTrace(SeenSlots(everRooted, view), t, w, w') && Rests(db', k, w')
  {
    assert RestsAt(db, k, w, slot);
    NotAliveAt(db, slot, alive, dead, zeros, db', k, w);
    ShrinkGoneRests(db, slot, alive, dead, zeros, db', k, w);
    t := ShrinkGoneSteps(db, everRooted, slot, alive, dead, zeros, k, view, w);
    w' := Dropped(w, slot);
  }

  /** Shrinking a storage is a trace of shrink steps on the key. */
  lemma ShrinkIsTrace(db: Db, everRooted: set<Slot>, slot: Slot, alive: seq<Stored>, dead: set<Pubkey>,
                      zeros: set<Pubkey>, db': Db, k: Pubkey, view: View, w: World)
    returns (t: Trace, w': World)
    requires Inv(db) && CacheAhead(db) && RootsOk(db, everRooted) && Current(everRooted, 0, view)
    requires Shrunk(db, slot, alive, dead, zeros, db') && Rests(db, k, w)
    ensures IsTrace(SeenSlots(everRooted, view), t, w, w') && Rests(db', k, w')
  {
    if k in KeysOf(alive) {
      t, w' := ShrinkAlive(db, slot, alive, dead, zeros, db', k, SeenSlots(everRooted, view), w);
    } else {
      t, w' := ShrinkGone(db, everRooted, slot, alive, dead, zeros, db', k, view, w);
    }
  }

  // ---- Clean ----

  /** Storages without an entry of the key go one by one. */
  lemma {:induction false} DropIsTrace(visible: set<Slot>, w: World, dead: set<Slot>) returns (t: Trace)
    requires dead <= w.stores.Keys && dead !! w.index.Keys && w.jobs == map[]
    ensures IsTrace(visible, t, w, w.(stores := w.stores - dead))
    decreases dead
  {
    if dead == {} {
      assert w.stores - dead == w.stores;
      t := NoSteps(visible, w);
    } else {
      var s :| s in dead;
      var w1 := w.(stores := w.stores - {s});
      var rest := DropIsTrace(visible, w1, dead - {s});
      assert w1.stores - (dead - {s}) == w.stores - dead;
      var first := OneStep(visible, w, DropStore(s), w1);
      t := Join(visible, first, rest, w, w1, w.(stores := w.stores - dead));
    }
  }

  /** Reclaiming drops the dead storages. */
  lemma ReclaimIsTrace(db: Db, pending: Reclaims, dead: set<Slot>, db': Db, k: Pubkey, visible: set<Slot>, w: World)
    returns (t: Trace, w': World)
    requires InvExcept(db, pending) && Reclaimed(db, pending, dead, db') && Rests(db, k, w)
    ensures IsTrace(visible, t, w, w') && Rests(db', k, w')
  {
    w' := w.(stores := w.stores - dead);
    forall s | s in dead
      ensures s in w.stores && s !in w.index
    {
      assert RestsAt(db, k, w, s);
      if IsLive(db.index, s, k) {
        LiveIsNotDead(db, pending, k, s);
      }
    }
    t := DropIsTrace(visible, w, dead);
    forall s
      ensures RestsAt(db', k, w', s)
    {
      assert RestsAt(db, k, w, s);
      if IsLive(db.index, s, k) {
        ReclaimKeepsAccounts(db, pending, dead, db', k, s);
      }
    }
  }

  lemma RemoveRests(db: Db, gone: Gone, db': Db, k: Pubkey, w: World)
    requires IndexOk(db) && IndexOk(db') && Removed(db, gone, db') && Rests(db, k, w)
    ensures Rests(db', k, w.(index := w.index - GoneOf(gone, k)))
  {
    var w' := w.(index := w.index - GoneOf(gone, k));
    forall s
      ensures RestsAt(db', k, w', s)
    {
      assert RestsAt(db, k, w, s);
      RemoveLiveness(db, gone, db', k, s);
      if IsLive(db'.index, s, k) {
        assert Located(db', k, s);
      }
    }
  }

  /** Removing entries of the key is one step, or none when it loses nothing. */
  lemma RemoveIsTrace(db: Db, everRooted: set<Slot>, gone: Gone, db': Db, k: Pubkey, view: View, kind: Kind, w: World)
    returns (t: Trace, w': World)
    requires Inv(db) && RootsOk(db, everRooted) && IndexOk(db') && Removed(db, gone, db') && Rests(db, k, w)
    requires k in gone ==> KindOk(w, Removal(db, everRooted, k, view, kind), gone[k])
    ensures IsTrace(SeenSlots(everRooted, view), t, w, w') && Rests(db', k, w')
  {
    var visible := SeenSlots(everRooted, view);
    w' := w.(index := w.index - GoneOf(gone, k));
    RemoveRests(db, gone, db', k, w);
    RestsShows(db, k, w);
    if k in gone {
      SeesLikeView(db, k, w, everRooted, view);
      t := OneStep(visible, w, Remove(gone[k], Removal(db, everRooted, k, view, kind)), w');
    } else {
      assert w.index - {} == w.index;
      t := NoSteps(visible, w);
    }
  }

  /** The first part of a clean is a trace. */
  lemma TrimIsTrace(db: Db, h: History, cleaned: Slot, bound: Slot, run: Runs.CleanRun, k: Pubkey, view: View, w: World)
    returns (t: Trace, w': World)
    requires Sound(db, h, cleaned) && FlushedUpTo(db, bound) && Runs.TrimStep(db, bound, run)
    requires Current(h.roots, bound, view) && Rests(db, k, w)
    ensures IsTrace(SeenSlots(h.roots, view), t, w, w') && Rests(run.middle, k, w')
  {
    var visible := SeenSlots(h.roots, view);
    Runs.TrimIsSound(db, h, cleaned, bound, run);
    var a, w1 := RemoveIsTrace(db, h.roots, run.trim, run.trimmed, k, view, Trim(bound, run.trim), w);
    var b, w2 := ReclaimIsTrace(run.trimmed, run.outdated, run.outDead, run.middle, k, visible, w1);
    t := Join(visible, a, b, w, w1, w2);
    w' := w2;
  }

  /** So is the second part. */
  lemma PurgeIsTrace(h: History, cleaned: Slot, bound: Slot, run: Runs.CleanRun, db': Db, k: Pubkey, view: View,
                     w: World)
    returns (t: Trace, w': World)
    requires Sound(run.middle, h, cleaned) && Runs.PurgeStep(bound, run, db')
    requires Current(h.roots, bound, view) && Rests(run.middle, k, w)
    ensures IsTrace(SeenSlots(h.roots, view), t, w, w') && Rests(db', k, w')
  {
    var visible := SeenSlots(h.roots, view);
    PurgeKeepsInv(run.middle, bound, run.purge, run.purged, run.empty);
    var a, w1 := RemoveIsTrace(run.middle, h.roots, run.purge, run.purged, k, view, Purge(bound, run.purge), w);
    var b, w2 := ReclaimIsTrace(run.purged, run.empty, run.emptyDead, db', k, visible, w1);
    t := Join(visible, a, b, w, w1, w2);
    w' := w2;
  }

  // ---- Whole runs ----

  lemma RestsSame(db: Db, db': Db, k: Pubkey, w: World)
    requires Rests(db, k, w)
    requires db'.index == db.index && db'.cache == db.cache && db'.storage == db.storage && db'.nextId == db.nextId
    ensures Rests(db', k, w)
  {
    forall s
      ensures RestsAt(db', k, w, s)
    {
      assert RestsAt(db, k, w, s);
    }
  }

  /** A flush of several roots is a trace. */
  lemma {:induction false} FlushRunIsTrace(db: Db, h: History, bound: Slot, run: Runs.FlushRun, i: nat, k: Pubkey,
                                           view: View, w: World)
    returns (t: Trace, w': World)
    requires Inv(db) && RootsOk(db, h.roots) && Runs.FlushSteps(db, bound, run) && i <= |run.slots|
    requires bound <= view.maxRoot && Rests(db, k, w)
    ensures IsTrace(SeenSlots(h.roots, view), t, w, w') && Rests(run.states[i], k, w')
  {
    var visible := SeenSlots(h.roots, view);
    if i == 0 {
      RestsSame(db, run.states[0], k, w);
      t := NoSteps(visible, w);
      w' := w;
    } else {
      var a, w1 := FlushRunIsTrace(db, h, bound, run, i - 1, k, view, w);
      Runs.FlushKeepsAll(db, h, bound, run, i - 1);
      assert Runs.FlushStep(run.states[i - 1], run.slots[i - 1], run.keeps[i - 1], bound, run.states[i]);
      var b, w2 := FlushIsTrace(run.states[i - 1], h.roots, bound, run.slots[i - 1], run.keeps[i - 1], run.states[i], k,
                                view, w1);
      t := Join(visible, a, b, w, w1, w2);
      w' := w2;
    }
  }

  /** The world after a write. Only a write to the key changes it. */
  function WrittenWorld(w: World, slot: Slot, key: Pubkey, account: Account, k: Pubkey): World {
    if key != k then w
    else w.(index := w.index[slot := Cached], cache := w.cache[slot := Canonical(account)])
  }

  lemma WriteRests(db: Db, slot: Slot, key: Pubkey, account: Account, k: Pubkey, w: World)
    requires IndexOk(db) && slot !in db.storage && Rests(db, k, w)
    ensures Rests(Written(db, slot, key, account), k, WrittenWorld(w, slot, key, account, k))
  {
    var w' := WrittenWorld(w, slot, key, account, k);
    var db' := Written(db, slot, key, account);
    forall s
      ensures RestsAt(db', k, w', s)
    {
      assert RestsAt(db, k, w, s);
      WriteRestsAt(db, slot, key, account, k, w, s);
    }
  }

  lemma WriteRestsAt(db: Db, slot: Slot, key: Pubkey, account: Account, k: Pubkey, w: World, s: Slot)
    requires slot !in db.storage && RestsAt(db, k, w, s)
    ensures RestsAt(Written(db, slot, key, account), k, WrittenWorld(w, slot, key, account, k), s)
  {
    WriteLiveness(db, slot, key, account, s, k);
  }

  /** A write to a slot the reader does not see is a step on its key, or none. */
  lemma WriteIsTrace(db: Db, slot: Slot, key: Pubkey, account: Account, k: Pubkey, visible: set<Slot>, w: World)
    returns (t: Trace, w': World)
    requires IndexOk(db) && slot !in db.storage && slot !in visible && Rests(db, k, w)
    ensures IsTrace(visible, t, w, w') && Rests(Written(db, slot, key, account), k, w')
  {
    WriteRests(db, slot, key, account, k, w);
    assert RestsAt(db, k, w, slot);
    if key == k {
      w' := w.(index := w.index[slot := Cached], cache := w.cache[slot := Canonical(account)]);
      t := OneStep(visible, w, Write(slot, Canonical(account)), w');
    } else {
      w' := w;
      t := NoSteps(visible, w);
    }
  }

  /** The reader's slots stay the same: nothing is written to them, and no other slot comes into view. */
  predicate KeepsView(e: Runs.Event, view: View) {
    match e
    case Write(slot, _, _) => slot !in view.ancestors
    case Root(slot) => slot in view.ancestors || view.maxRoot < slot
    case _ => true
  }

  /** Every step of a run that keeps the view of a current reader is a trace of steps the reader can meet. */
  lemma StepIsTrace(a: Runs.State, e: Runs.Event, b: Runs.State, k: Pubkey, view: View, w: World)
    returns (t: Trace, w': World)
    requires Runs.SoundState(a) && Runs.Step(a, e, b) && KeepsView(e, view)
    requires Current(b.history.roots, b.cleaned, view) && Rests(a.db, k, w)
    ensures SeenSlots(b.history.roots, view) == SeenSlots(a.history.roots, view)
    ensures IsTrace(SeenSlots(a.history.roots, view), t, w, w') && Rests(b.db, k, w')
  {
    var visible := SeenSlots(a.history.roots, view);
    match e
    case Write(slot, key, account) =>
      t, w' := WriteIsTrace(a.db, slot, key, account, k, visible, w);
    case Root(slot) =>
      RestsSame(a.db, b.db, k, w);
      t := NoSteps(visible, w);
      w' := w;
    case Flush(bound, run) =>
      t, w' := FlushRunIsTrace(a.db, a.history, bound, run, |run.slots|, k, view, w);
    case Clean(bound, run) =>
      t, w' := CleanIsTrace(a.db, a.history, a.cleaned, bound, run, b.db, k, view, w);
    case Shrink(slot, alive, dead, zeros) =>
      t, w' := ShrinkIsTrace(a.db, a.history.roots, slot, alive, dead, zeros, b.db, k, view, w);
  }

  lemma CleanIsTrace(db: Db, h: History, cleaned: Slot, bound: Slot, run: Runs.CleanRun, db': Db, k: Pubkey, view: View,
                     w: World)
    returns (t: Trace, w': World)
    requires Sound(db, h, cleaned) && FlushedUpTo(db, bound) && Runs.TrimStep(db, bound, run)
             && Runs.PurgeStep(bound, run, db')
    requires Current(h.roots, bound, view) && Rests(db, k, w)
    ensures IsTrace(SeenSlots(h.roots, view), t, w, w') && Rests(db', k, w')
  {
    Runs.TrimIsSound(db, h, cleaned, bound, run);
    var a, w1 := TrimIsTrace(db, h, cleaned, bound, run, k, view, w);
    var b, w2 := PurgeIsTrace(h, Runs.Max(cleaned, bound), bound, run, db', k, view, w1);
    t := Join(SeenSlots(h.roots, view), a, b, w, w1, w2);
    w' := w2;
  }

  /** So is every stretch of a run. */
  lemma {:induction false} RunIsTrace(states: seq<Runs.State>, events: seq<Runs.Event>, i: nat, j: nat, k: Pubkey,
                                      view: View, w: World)
    returns (t: Trace, w': World)
    requires Runs.IsRun(states, events) && i <= j < |states| && Rests(states[i].db, k, w)
    requires forall n :: i <= n < j ==> KeepsView(events[n], view)
    requires forall n :: i <= n <= j ==> Current(states[n].history.roots, states[n].cleaned, view)
    ensures SeenSlots(states[j].history.roots, view) == SeenSlots(states[i].history.roots, view)
    ensures IsTrace(SeenSlots(states[i].history.roots, view), t, w, w') && Rests(states[j].db, k, w')
    decreases j
  {
    if i == j {
      t := NoSteps(SeenSlots(states[i].history.roots, view), w);
      w' := w;
    } else {
      var a, w1 := RunIsTrace(states, events, i, j - 1, k, view, w);
      var b, w2 := NextIsTrace(states, events, j - 1, k, view, w1);
      t := Join(SeenSlots(states[i].history.roots, view), a, b, w, w1, w2);
      w' := w2;
    }
  }

  lemma NextIsTrace(states: seq<Runs.State>, events: seq<Runs.Event>, i: nat, k: Pubkey, view: View, w: World)
    returns (t: Trace, w': World)
    requires Runs.IsRun(states, events) && i < |events| && Rests(states[i].db, k, w) && KeepsView(events[i], view)
    requires Current(states[i + 1].history.roots, states[i + 1].cleaned, view)
    ensures SeenSlots(states[i + 1].history.roots, view) == SeenSlots(states[i].history.roots, view)
    ensures IsTrace(SeenSlots(states[i].history.roots, view), t, w, w') && Rests(states[i + 1].db, k, w')
  {
    Runs.RunIsSound(states, events, i);
    t, w' := StepIsTrace(states[i], events[i], states[i + 1], k, view, w);
  }

  /**
   * A reader that starts in any state of any run, among any steps of jobs that follow, loads what
   * the reference remembered when it started.
   */
  lemma ReaderLoadsHistory(states: seq<Runs.State>, events: seq<Runs.Event>, i: nat, k: Pubkey, view: View,
                           configs: seq<Config>, steps: seq<Event>, n: nat)
    requires Runs.IsRun(states, events) && i < |states| && Current(states[i].history.roots, states[i].cleaned, view)
    requires IsRun(SeenSlots(states[i].history.roots, view), configs, steps) && n < |configs|
    requires Rests(states[i].db, k, configs[0].world)
    ensures var answer := Recall(states[i].history, k, view);
            && (configs[n].reader.Found? ==> Shown(configs[n].reader.account) == answer)
            && (configs[n].reader.Nothing? ==> answer == None)
            && !configs[n].reader.Panicked?
  {
    var db, w, roots := states[i].db, configs[0].world, states[i].history.roots;
    Runs.RunIsSound(states, events, i);
    Runs.EveryLoadIsRemembered(states, events, i, k, view);
    RestsShows(db, k, w);
    SeesLikeView(db, k, w, roots, view);
    LogicalIsLoad(db, k, view, w, SeenSlots(roots, view));
    ReaderIsRight(SeenSlots(roots, view), configs, steps, n);
  }
}
