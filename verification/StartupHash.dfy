/**
 * The hash and the data length of all accounts at startup. While the index is rebuilt, every
 * stored account is mixed in. Afterwards the older versions are mixed out again.
 */
module StartupHash {
  import opened Types
  import opened Database
  import opened Groups

  /** One version of a key: the key and the slot. */
  type Version = (Pubkey, Slot)

  /** A storage found at startup, with the offsets already known to be obsolete. */
  datatype Storage = Storage(slot: Slot, accounts: seq<Stored>, obsolete: set<Offset>)

  datatype Place = Place(store: nat, offset: Offset)

  type Places = map<Pubkey, map<Slot, Place>>

  /** What is added up: a group, the value of an account in it, and the value of an empty account. */
  datatype Measure<!G> = Measure(group: Group<G>, of: (Pubkey, Account) -> G)

  ghost predicate Lawful<G(!new)>(m: Measure<G>) {
    Abelian(m.group) && forall k, a: Account :: a.lamports == 0 ==> m.of(k, a) == m.group.zero
  }

  // ---- Storages and the index ----

  /** A record that is not obsolete. */
  predicate Current(storages: seq<Storage>, p: Place) {
    p.store < |storages| && p.offset < |storages[p.store].accounts| && p.offset !in storages[p.store].obsolete
  }

  function VersionAt(storages: seq<Storage>, p: Place): Version
    requires Current(storages, p)
  {
    (storages[p.store].accounts[p.offset].pubkey, storages[p.store].slot)
  }

  function AccountAt(storages: seq<Storage>, p: Place): Account
    requires Current(storages, p)
  {
    storages[p.store].accounts[p.offset].account
  }

  /** Each slot has one storage, and each storage one current record of a key. */
  ghost predicate OneEach(storages: seq<Storage>) {
    forall p, q :: Current(storages, p) && Current(storages, q) && VersionAt(storages, p) == VersionAt(storages, q) ==>
      p == q
  }

  predicate IsIndexed(index: Places, v: Version) {
    v.0 in index && v.1 in index[v.0]
  }

  ghost function Versions(index: Places): set<Version> {
    set k, s | k in index && s in index[k] :: (k, s)
  }

  /** The index leads from the versions of the given records to those records. */
  ghost predicate Indexes(storages: seq<Storage>, covered: set<Place>, index: Places) {
    && (forall v: Version :: IsIndexed(index, v) ==>
          var p := index[v.0][v.1]; p in covered && Current(storages, p) && VersionAt(storages, p) == v)
    && (forall p :: p in covered ==>
          Current(storages, p) && var v := VersionAt(storages, p); IsIndexed(index, v) && index[v.0][v.1] == p)
    && (forall k :: k in index ==> index[k] != map[])
  }

  /** The account of a version. */
  ghost function AccountOf(storages: seq<Storage>, v: Version): Account {
    if exists p :: Current(storages, p) && VersionAt(storages, p) == v then
      var p :| Current(storages, p) && VersionAt(storages, p) == v;
      AccountAt(storages, p)
    else Account(0, [])
  }

  ghost function ValueOf<G>(m: Measure<G>, storages: seq<Storage>): Version -> G {
    (v: Version) => m.of(v.0, AccountOf(storages, v))
  }

  lemma ValueIsRecord<G>(m: Measure<G>, storages: seq<Storage>, p: Place)
    requires OneEach(storages) && Current(storages, p)
    ensures var v := VersionAt(storages, p); ValueOf(m, storages)(v) == m.of(v.0, AccountAt(storages, p))
  {
    var v := VersionAt(storages, p);
    assert AccountOf(storages, v) == AccountAt(storages, p);
  }

  /** The data of an account counts unless it has no lamports. */
  const DATA_LEN: Measure<int> := Measure(INTEGERS, (k: Pubkey, a: Account) => if a.lamports == 0 then 0 else |a.data|)

  // ---- Building the index ----

  function SlotsOf(index: Places, k: Pubkey): map<Slot, Place> {
    if k in index then index[k] else map[]
  }

  function Insert(index: Places, v: Version, p: Place): Places {
    index[v.0 := SlotsOf(index, v.0)[v.1 := p]]
  }

  lemma InsertVersions(index: Places, v: Version, p: Place)
    ensures Versions(Insert(index, v, p)) == Versions(index) + {v}
    ensures forall u: Version :: IsIndexed(Insert(index, v, p), u) <==> IsIndexed(index, u) || u == v
    ensures forall u: Version :: IsIndexed(index, u) && u != v ==> Insert(index, v, p)[u.0][u.1] == index[u.0][u.1]
  {
    var index' := Insert(index, v, p);
    forall u | u in Versions(index) + {v}
      ensures u in Versions(index')
    {
      assert u.0 in index' && u.1 in index'[u.0];
    }
  }

  lemma InsertIndexes(storages: seq<Storage>, covered: set<Place>, index: Places, p: Place)
    requires OneEach(storages) && Indexes(storages, covered, index) && Current(storages, p) && p !in covered
    ensures Indexes(storages, covered + {p}, Insert(index, VersionAt(storages, p), p))
    ensures VersionAt(storages, p) !in Versions(index)
  {
    var v := VersionAt(storages, p);
    InsertVersions(index, v, p);
    assert !IsIndexed(index, v);
    var index' := Insert(index, v, p);
    forall q | q in covered + {p}
      ensures Current(storages, q) && var u := VersionAt(storages, q); IsIndexed(index', u) && index'[u.0][u.1] == q
    {
      if q != p {
        assert VersionAt(storages, q) != v;
      }
    }
  }

  /** What has been added since `start`, and what it measures. */
  ghost predicate Measured<G>(m: Measure<G>, storages: seq<Storage>, start: Places, added: set<Version>, index: Places,
                              sum: G, dataLen: int)
  {
    && Versions(index) == Versions(start) + added && Versions(start) !! added
    && sum == Total(m.group, added, ValueOf(m, storages))
    && dataLen == Total(INTEGERS, added, ValueOf(DATA_LEN, storages))
  }

  lemma MeasureMore<G(!new)>(m: Measure<G>, storages: seq<Storage>, start: Places, added: set<Version>, index: Places,
                             sum: G, dataLen: int, p: Place)
    requires Lawful(m) && OneEach(storages) && Current(storages, p)
    requires Measured(m, storages, start, added, index, sum, dataLen) && VersionAt(storages, p) !in Versions(index)
    ensures var v, account := VersionAt(storages, p), AccountAt(storages, p);
            Measured(m, storages, start, added + {v}, Insert(index, v, p), m.group.add(sum, m.of(v.0, account)),
                     dataLen + if account.lamports == 0 then 0 else |account.data|)
  {
    var v := VersionAt(storages, p);
    InsertVersions(index, v, p);
    IntegersAreAbelian();
    ValueIsRecord(m, storages, p);
    ValueIsRecord(DATA_LEN, storages, p);
    TotalAdd(m.group, added, v, ValueOf(m, storages));
    TotalAdd(INTEGERS, added, v, ValueOf(DATA_LEN, storages));
  }

  /** The current records among the first `n` of a storage. */
  ghost function PlacesOf(storages: seq<Storage>, i: nat, n: nat): set<Place>
    requires i < |storages| && n <= |storages[i].accounts|
  {
    set o | 0 <= o < n && o !in storages[i].obsolete :: Place(i, o)
  }

  lemma PlacesMore(storages: seq<Storage>, i: nat, n: nat)
    requires i < |storages| && n < |storages[i].accounts|
    ensures PlacesOf(storages, i, n + 1)
            == PlacesOf(storages, i, n) + if n in storages[i].obsolete then {} else {Place(i, n)}
    ensures Place(i, n) !in PlacesOf(storages, i, n)
  {
  }

  /** Adds one storage to the index, and measures its current accounts. */
  method GenerateIndexForSlot<G(!new)>(m: Measure<G>, storages: seq<Storage>, i: nat, index: Places,
                                       ghost covered: set<Place>)
    returns (index': Places, sum: G, dataLen: nat, ghost added: set<Version>)
    requires Lawful(m) && OneEach(storages) && i < |storages| && Indexes(storages, covered, index)
    requires forall p :: p in covered ==> p.store != i
    ensures Indexes(storages, covered + PlacesOf(storages, i, |storages[i].accounts|), index')
    ensures Measured(m, storages, index, added, index', sum, dataLen)
  {
    index', sum, dataLen, added := index, m.group.zero, 0, {};
    var storage := storages[i];
    assert covered + PlacesOf(storages, i, 0) == covered;
    for o := 0 to |storage.accounts|
      invariant Indexes(storages, covered + PlacesOf(storages, i, o), index')
      invariant Measured(m, storages, index, added, index', sum, dataLen)
    {
      PlacesMore(storages, i, o);
      assert covered + PlacesOf(storages, i, o + 1)
          == covered + PlacesOf(storages, i, o) + if o in storage.obsolete then {} else {Place(i, o)};
      if o !in storage.obsolete {
        var Stored(k, account) := storage.accounts[o];
        InsertIndexes(storages, covered + PlacesOf(storages, i, o), index', Place(i, o));
        MeasureMore(m, storages, index, added, index', sum, dataLen, Place(i, o));
        dataLen := dataLen + if account.lamports == 0 then 0 else |account.data|;
        index' := Insert(index', (k, storage.slot), Place(i, o));
        sum := m.group.add(sum, m.of(k, account));
        added := added + {(k, storage.slot)};
      }
    }
  }

  // ---- All storages, spread over threads ----

  predicate InRange(order: seq<nat>, n: nat) {
    forall j :: 0 <= j < |order| ==> order[j] < n
  }

  predicate Distinct(order: seq<nat>) {
    forall i, j :: 0 <= i < j < |order| ==> order[i] != order[j]
  }

  /** The current records of the given storages. */
  ghost function PlacesIn(storages: seq<Storage>, order: seq<nat>): set<Place>
    requires InRange(order, |storages|)
  {
    set j, o | 0 <= j < |order| && 0 <= o < |storages[order[j]].accounts|
               && o !in storages[order[j]].obsolete :: Place(order[j], o)
  }

  lemma PlacesInMore(storages: seq<Storage>, order: seq<nat>, i: nat)
    requires InRange(order, |storages|) && i < |storages|
    ensures PlacesIn(storages, order + [i]) == PlacesIn(storages, order) + PlacesOf(storages, i, |storages[i].accounts|)
  {
    var more := order + [i];
    forall p | p in PlacesIn(storages, order) + PlacesOf(storages, i, |storages[i].accounts|)
      ensures p in PlacesIn(storages, more)
    {
      if p in PlacesIn(storages, order) {
        var j :| 0 <= j < |order| && order[j] == p.store;
        assert more[j] == p.store;
      } else {
        assert more[|order|] == i;
      }
    }
  }

  /** The storages in the order the threads take them, one thread after the other. */
  ghost function Flat(threads: seq<seq<nat>>): seq<nat> {
    if threads == [] then [] else Flat(threads[..|threads| - 1]) + threads[|threads| - 1]
  }

  /** Every storage is taken by one thread, once. */
  ghost predicate Assigned(threads: seq<seq<nat>>, n: nat) {
    var order := Flat(threads);
    && InRange(order, n) && Distinct(order)
    && (forall i: nat :: i < n ==> i in order)
  }

  /** One thread takes its storages and adds up what they measure. */
  method IndexThread<G(!new)>(m: Measure<G>, storages: seq<Storage>, mine: seq<nat>, index: Places,
                              ghost order: seq<nat>)
    returns (index': Places, sum: G, dataLen: nat, ghost added: set<Version>)
    requires Lawful(m) && OneEach(storages)
    requires InRange(order, |storages|) && InRange(mine, |storages|) && Distinct(order + mine)
    requires Indexes(storages, PlacesIn(storages, order), index)
    ensures Indexes(storages, PlacesIn(storages, order + mine), index')
    ensures Measured(m, storages, index, added, index', sum, dataLen)
  {
    index', sum, dataLen, added := index, m.group.zero, 0, {};
    assert order + mine[..0] == order;
    for j := 0 to |mine|
      invariant InRange(order + mine[..j], |storages|)
      invariant Indexes(storages, PlacesIn(storages, order + mine[..j]), index')
      invariant Measured(m, storages, index, added, index', sum, dataLen)
    {
      ghost var taken := order + mine[..j];
      assert mine[j] == (order + mine)[|order| + j];
      forall l | 0 <= l < |taken|
        ensures taken[l] != mine[j]
      {
        assert taken[l] == (order + mine)[l];
      }
      var middle, slotSum, slotLen; ghost var slotAdded;
      middle, slotSum, slotLen, slotAdded := GenerateIndexForSlot(m, storages, mine[j], index',
                                                                  PlacesIn(storages, taken));
      MeasureJoin(m, storages, index, added, index', sum, dataLen, slotAdded, middle, slotSum, slotLen);
      PlacesInMore(storages, taken, mine[j]);
      assert order + mine[..j + 1] == taken + [mine[j]];
      index', sum, dataLen, added := middle, m.group.add(sum, slotSum), dataLen + slotLen, added + slotAdded;
    }
    assert mine[..|mine|] == mine;
  }

  /** What two parts measure adds up. */
  lemma MeasureJoin<G(!new)>(m: Measure<G>, storages: seq<Storage>, start: Places, a: set<Version>, middle: Places,
                             sum: G, dataLen: int, b: set<Version>, end: Places, sum': G, dataLen': int)
    requires Lawful(m) && Measured(m, storages, start, a, middle, sum, dataLen)
    requires Measured(m, storages, middle, b, end, sum', dataLen')
    ensures Measured(m, storages, start, a + b, end, m.group.add(sum, sum'), dataLen + dataLen')
  {
    IntegersAreAbelian();
    TotalUnion(m.group, a, b, ValueOf(m, storages));
    TotalUnion(INTEGERS, a, b, ValueOf(DATA_LEN, storages));
  }

  /** Builds the index from all storages, and measures every current record in them. */
  method IndexStorages<G(!new)>(m: Measure<G>, storages: seq<Storage>, threads: seq<seq<nat>>)
    returns (index: Places, sum: G, dataLen: nat)
    requires Lawful(m) && OneEach(storages) && Assigned(threads, |storages|)
    ensures IndexesAll(storages, index)
    ensures sum == Total(m.group, Versions(index), ValueOf(m, storages))
    ensures dataLen == Total(INTEGERS, Versions(index), ValueOf(DATA_LEN, storages))
  {
    index, sum, dataLen := map[], m.group.zero, 0;
    ghost var added: set<Version> := {};
    ghost var order: seq<nat> := [];
    assert PlacesIn(storages, []) == {};
    for t := 0 to |threads|
      invariant order == Flat(threads[..t]) && InRange(order, |storages|)
      invariant Indexes(storages, PlacesIn(storages, order), index)
      invariant Measured(m, storages, map[], added, index, sum, dataLen)
    {
      NextThread(threads, t, |storages|);
      var index', threadSum, threadLen; ghost var threadAdded;
      index', threadSum, threadLen, threadAdded := IndexThread(m, storages, threads[t], index, order);
      MeasureJoin(m, storages, map[], added, index, sum, dataLen, threadAdded, index', threadSum, threadLen);
      index, sum, dataLen, added := index', m.group.add(sum, threadSum), dataLen + threadLen, added + threadAdded;
      order := order + threads[t];
    }
    assert threads[..|threads|] == threads;
    AllPlaces(storages, threads, index);
    assert Versions(index) == added;
  }

  /** The next thread takes storages nobody has taken yet. */
  lemma NextThread(threads: seq<seq<nat>>, t: nat, n: nat)
    requires t < |threads| && Assigned(threads, n)
    ensures Flat(threads[..t + 1]) == Flat(threads[..t]) + threads[t]
    ensures var order := Flat(threads[..t]) + threads[t]; InRange(order, n) && Distinct(order)
    ensures InRange(threads[t], n)
  {
    FlatPrefix(threads, t);
    var order := Flat(threads[..t]);
    forall j | 0 <= j < |threads[t]|
      ensures threads[t][j] < n
    {
      assert threads[t][j] == (order + threads[t])[|order| + j];
    }
  }

  /** The index leads to every current record, and to nothing else. */
  ghost predicate IndexesAll(storages: seq<Storage>, index: Places) {
    && (forall v: Version :: IsIndexed(index, v) ==>
          var p := index[v.0][v.1]; Current(storages, p) && VersionAt(storages, p) == v)
    && (forall p :: Current(storages, p) ==>
          var v := VersionAt(storages, p); IsIndexed(index, v) && index[v.0][v.1] == p)
    && (forall k :: k in index ==> index[k] != map[])
  }

  lemma AllPlaces(storages: seq<Storage>, threads: seq<seq<nat>>, index: Places)
    requires Assigned(threads, |storages|) && Indexes(storages, PlacesIn(storages, Flat(threads)), index)
    ensures IndexesAll(storages, index)
  {
    forall p | Current(storages, p)
      ensures p in PlacesIn(storages, Flat(threads))
    {
      assert p.store in Flat(threads);
      var j :| 0 <= j < |Flat(threads)| && Flat(threads)[j] == p.store;
    }
  }

  lemma {:induction false} FlatPrefix(threads: seq<seq<nat>>, t: nat)
    requires t < |threads|
    ensures Flat(threads[..t + 1]) == Flat(threads[..t]) + threads[t]
    ensures Flat(threads[..t + 1]) <= Flat(threads)
    decreases |threads| - t
  {
    assert threads[..t + 1][..t] == threads[..t];
    if t + 1 == |threads| {
      assert threads[..t + 1] == threads;
    } else {
      FlatPrefix(threads, t + 1);
    }
  }

  // ---- Older versions ----

  /** The versions of the given keys other than the newest of each. */
  ghost function Older(index: Places, keys: set<Pubkey>): set<Version>
    requires forall k :: k in index ==> index[k].Keys != {}
  {
    set k, s | k in keys && k in index && s in index[k] && s != Newest(index[k].Keys) :: (k, s)
  }

  /** The newest version of each key. */
  ghost function Latest(index: Places): set<Version>
    requires forall k :: k in index ==> index[k].Keys != {}
  {
    set k | k in index :: (k, Newest(index[k].Keys))
  }

  lemma LatestAreTheRest(index: Places)
    requires forall k :: k in index ==> index[k].Keys != {}
    ensures Older(index, index.Keys) <= Versions(index)
    ensures Versions(index) - Older(index, index.Keys) == Latest(index)
  {
  }

  /** The newest versions are those that no current record of the same key is newer than. */
  lemma LatestAreNewest(storages: seq<Storage>, index: Places, v: Version)
    requires IndexesAll(storages, index)
    ensures (forall k :: k in index ==> index[k].Keys != {})
            && (v in Latest(index) <==>
                  && (exists p :: Current(storages, p) && VersionAt(storages, p) == v)
                  && (forall p :: Current(storages, p) && VersionAt(storages, p).0 == v.0 ==>
                        VersionAt(storages, p).1 <= v.1))
  {
    KeysNotEmpty(index);
    if v in Latest(index) {
      assert IsIndexed(index, v);
    } else if exists p :: Current(storages, p) && VersionAt(storages, p) == v {
      var p :| Current(storages, p) && VersionAt(storages, p) == v;
      assert IsIndexed(index, v);
      var newest: Version := (v.0, Newest(index[v.0].Keys));
      assert IsIndexed(index, newest);
      assert newest != v && v.1 < newest.1;
      var q := index[v.0][newest.1];
      assert Current(storages, q) && VersionAt(storages, q) == newest;
    }
  }

  lemma KeysNotEmpty(index: Places)
    requires forall k :: k in index ==> index[k] != map[]
    ensures forall k :: k in index ==> index[k].Keys != {}
  {
    forall k | k in index
      ensures index[k].Keys != {}
    {
      var s :| s in index[k];
    }
  }

  /** The total of a set of versions, as a hash and as a data length. */
  ghost predicate Totals<G>(m: Measure<G>, storages: seq<Storage>, versions: set<Version>, sum: G, dataLen: int) {
    sum == Total(m.group, versions, ValueOf(m, storages))
    && dataLen == Total(INTEGERS, versions, ValueOf(DATA_LEN, storages))
  }

  lemma TotalsMore<G(!new)>(m: Measure<G>, storages: seq<Storage>, versions: set<Version>, sum: G, dataLen: int,
                            p: Place)
    requires Lawful(m) && OneEach(storages) && Current(storages, p)
    requires Totals(m, storages, versions, sum, dataLen) && VersionAt(storages, p) !in versions
    ensures var v, account := VersionAt(storages, p), AccountAt(storages, p);
            Totals(m, storages, versions + {v}, m.group.add(sum, m.of(v.0, account)),
                   dataLen + if account.lamports == 0 then 0 else |account.data|)
  {
    var v := VersionAt(storages, p);
    IntegersAreAbelian();
    ValueIsRecord(m, storages, p);
    ValueIsRecord(DATA_LEN, storages, p);
    TotalAdd(m.group, versions, v, ValueOf(m, storages));
    TotalAdd(INTEGERS, versions, v, ValueOf(DATA_LEN, storages));
  }

  method NewestSlot(slots: map<Slot, Place>) returns (max: Slot)
    requires slots.Keys != {}
    ensures max == Newest(slots.Keys)
  {
    var todo := slots.Keys;
    max :| max in todo;
    todo := todo - {max};
    while todo != {}
      invariant todo <= slots.Keys && max in slots
      invariant forall s :: s in slots ==> s in todo || s <= max
    {
      var s :| s in todo;
      todo := todo - {s};
      max := if max < s then s else max;
    }
  }

  ghost function VersionsAt(k: Pubkey, slots: set<Slot>): set<Version> {
    set s | s in slots :: (k, s)
  }

  /** Adds up the versions of one key in all its slots but one. */
  method VisitSlots<G(!new)>(m: Measure<G>, storages: seq<Storage>, k: Pubkey, slots: map<Slot, Place>, max: Slot,
                             sum: G, dataLen: nat, ghost versions: set<Version>)
    returns (sum': G, dataLen': nat)
    requires Lawful(m) && OneEach(storages)
    requires forall s :: s in slots ==> Current(storages, slots[s]) && VersionAt(storages, slots[s]) == (k, s)
    requires Totals(m, storages, versions, sum, dataLen) && versions !! VersionsAt(k, slots.Keys)
    ensures Totals(m, storages, versions + VersionsAt(k, slots.Keys - {max}), sum', dataLen')
  {
    sum', dataLen' := sum, dataLen;
    var todo := slots.Keys - {max};
    ghost var done: set<Slot> := {};
    assert versions + VersionsAt(k, done) == versions;
    while todo != {}
      invariant done + todo == slots.Keys - {max} && done !! todo
      invariant Totals(m, storages, versions + VersionsAt(k, done), sum', dataLen')
    {
      var s :| s in todo;
      var p := slots[s];
      var account := storages[p.store].accounts[p.offset].account;
      assert (k, s) in VersionsAt(k, slots.Keys) && (k, s) !in VersionsAt(k, done);
      TotalsMore(m, storages, versions + VersionsAt(k, done), sum', dataLen', p);
      dataLen' := dataLen' + if account.lamports > 0 then |account.data| else 0;
      sum' := m.group.add(sum', m.of(k, account));
      assert versions + VersionsAt(k, done + {s}) == versions + VersionsAt(k, done) + {(k, s)};
      todo, done := todo - {s}, done + {s};
    }
  }

  /** Adds up the older versions of one key. */
  method VisitKey<G(!new)>(m: Measure<G>, storages: seq<Storage>, index: Places, k: Pubkey, sum: G, dataLen: nat,
                           ghost versions: set<Version>)
    returns (sum': G, dataLen': nat)
    requires Lawful(m) && OneEach(storages) && IndexesAll(storages, index)
             && (forall k :: k in index ==> index[k].Keys != {})
    requires Totals(m, storages, versions, sum, dataLen) && (forall s :: (k, s) !in versions)
    ensures Totals(m, storages, versions + Older(index, {k}), sum', dataLen')
  {
    sum', dataLen' := sum, dataLen;
    OlderOfKey(index, k);
    if k in index && |index[k]| > 1 {
      var max := NewestSlot(index[k]);
      forall s | s in index[k]
        ensures Current(storages, index[k][s]) && VersionAt(storages, index[k][s]) == (k, s)
      {
        assert IsIndexed(index, (k, s));
      }
      sum', dataLen' := VisitSlots(m, storages, k, index[k], max, sum, dataLen, versions);
    } else {
      assert versions + Older(index, {k}) == versions;
    }
  }

  lemma OlderOfKey(index: Places, k: Pubkey)
    requires forall k :: k in index ==> index[k].Keys != {}
    ensures k in index ==> Older(index, {k}) == VersionsAt(k, index[k].Keys - {Newest(index[k].Keys)})
    ensures k !in index || |index[k]| <= 1 ==> Older(index, {k}) == {}
  {
    if k in index && |index[k]| <= 1 {
      OnlyNewest(index[k]);
    }
  }

  lemma OnlyNewest(slots: map<Slot, Place>)
    requires slots.Keys != {} && |slots| <= 1
    ensures forall s :: s in slots ==> s == Newest(slots.Keys)
  {
    forall s | s in slots
      ensures s == Newest(slots.Keys)
    {
      SubsetSameSize({s}, slots.Keys);
    }
  }

  function KeySet(keys: seq<Pubkey>): set<Pubkey> {
    set j | 0 <= j < |keys| :: keys[j]
  }

  lemma OlderMore(index: Places, keys: set<Pubkey>, k: Pubkey)
    requires forall k :: k in index ==> index[k].Keys != {}
    ensures Older(index, keys + {k}) == Older(index, keys) + Older(index, {k})
  {
  }

  /** Adds up the older versions of some keys. */
  method VisitDuplicates<G(!new)>(m: Measure<G>, storages: seq<Storage>, index: Places, keys: seq<Pubkey>)
    returns (sum: G, dataLen: nat)
    requires Lawful(m) && OneEach(storages) && IndexesAll(storages, index)
             && (forall k :: k in index ==> index[k].Keys != {})
    requires Distinct(keys)
    ensures Totals(m, storages, Older(index, KeySet(keys)), sum, dataLen)
  {
    sum, dataLen := m.group.zero, 0;
    assert Older(index, KeySet(keys[..0])) == {};
    for j := 0 to |keys|
      invariant Totals(m, storages, Older(index, KeySet(keys[..j])), sum, dataLen)
    {
      assert keys[j] !in KeySet(keys[..j]);
      sum, dataLen := VisitKey(m, storages, index, keys[j], sum, dataLen, Older(index, KeySet(keys[..j])));
      assert KeySet(keys[..j + 1]) == KeySet(keys[..j]) + {keys[j]};
      OlderMore(index, KeySet(keys[..j]), keys[j]);
    }
    assert keys[..|keys|] == keys;
  }

  /** The keys present in more than one slot. */
  method DuplicateKeys(index: Places) returns (keys: seq<Pubkey>)
    ensures Distinct(keys) && forall k :: k in KeySet(keys) <==> k in index && |index[k]| > 1
  {
    keys := [];
    var todo := index.Keys;
    while todo != {}
      invariant todo <= index.Keys && Distinct(keys)
      invariant forall k :: k in KeySet(keys) <==> k in index && |index[k]| > 1 && k !in todo
    {
      var k :| k in todo;
      todo := todo - {k};
      if |index[k]| > 1 {
        KeySetMore(keys, k);
        forall j | 0 <= j < |keys|
          ensures keys[j] != k
        {
          assert keys[j] in KeySet(keys);
        }
        keys := keys + [k];
      }
    }
  }

  lemma KeySetMore(keys: seq<Pubkey>, k: Pubkey)
    ensures KeySet(keys + [k]) == KeySet(keys) + {k}
  {
    forall x | x in KeySet(keys) + {k}
      ensures x in KeySet(keys + [k])
    {
      if x == k {
        assert (keys + [k])[|keys|] == k;
      } else {
        var j :| 0 <= j < |keys| && keys[j] == x;
        assert (keys + [k])[j] == x;
      }
    }
  }

  lemma TotalsJoin<G(!new)>(m: Measure<G>, storages: seq<Storage>, a: set<Version>, sum: G, dataLen: int,
                            b: set<Version>, sum': G, dataLen': int)
    requires Lawful(m) && a !! b && Totals(m, storages, a, sum, dataLen) && Totals(m, storages, b, sum', dataLen')
    ensures Totals(m, storages, a + b, m.group.add(sum, sum'), dataLen + dataLen')
  {
    IntegersAreAbelian();
    TotalUnion(m.group, a, b, ValueOf(m, storages));
    TotalUnion(INTEGERS, a, b, ValueOf(DATA_LEN, storages));
  }

  lemma OlderSplit(index: Places, a: set<Pubkey>, b: set<Pubkey>)
    requires forall k :: k in index ==> index[k].Keys != {}
    ensures Older(index, a + b) == Older(index, a) + Older(index, b)
    ensures a !! b ==> Older(index, a) !! Older(index, b)
  {
  }

  /** Adds up the older versions of the keys, chunk by chunk. */
  method VisitChunks<G(!new)>(m: Measure<G>, storages: seq<Storage>, index: Places, keys: seq<Pubkey>, size: nat)
    returns (sum: G, dataLen: nat)
    requires Lawful(m) && OneEach(storages) && IndexesAll(storages, index)
             && (forall k :: k in index ==> index[k].Keys != {})
    requires Distinct(keys) && size > 0
    ensures Totals(m, storages, Older(index, KeySet(keys)), sum, dataLen)
  {
    sum, dataLen := m.group.zero, 0;
    var start := 0;
    assert Older(index, KeySet(keys[..0])) == {};
    while start < |keys|
      invariant start <= |keys|
      invariant Totals(m, storages, Older(index, KeySet(keys[..start])), sum, dataLen)
    {
      var end := if start + size < |keys| then start + size else |keys|;
      var chunkSum, chunkLen := VisitDuplicates(m, storages, index, keys[start..end]);
      KeySetSplit(keys, start, end);
      OlderSplit(index, KeySet(keys[..start]), KeySet(keys[start..end]));
      TotalsJoin(m, storages, Older(index, KeySet(keys[..start])), sum, dataLen,
                 Older(index, KeySet(keys[start..end])), chunkSum, chunkLen);
      sum, dataLen, start := m.group.add(sum, chunkSum), dataLen + chunkLen, end;
    }
    assert keys[..start] == keys;
  }

  lemma KeySetSplit(keys: seq<Pubkey>, start: nat, end: nat)
    requires start <= end <= |keys| && Distinct(keys)
    ensures KeySet(keys[..end]) == KeySet(keys[..start]) + KeySet(keys[start..end])
    ensures KeySet(keys[..start]) !! KeySet(keys[start..end])
  {
    forall k | k in KeySet(keys[..end])
      ensures k in KeySet(keys[..start]) + KeySet(keys[start..end])
    {
      var j :| 0 <= j < end && keys[..end][j] == k;
      if j < start {
        assert keys[..start][j] == k;
      } else {
        assert keys[start..end][j - start] == k;
      }
    }
    forall k | k in KeySet(keys[start..end])
      ensures k in KeySet(keys[..end])
    {
      var j :| 0 <= j < end - start && keys[start..end][j] == k;
      assert keys[..end][start + j] == k;
    }
    forall k | k in KeySet(keys[..start])
      ensures k in KeySet(keys[..end])
    {
      var j :| 0 <= j < start && keys[..start][j] == k;
      assert keys[..end][j] == k;
    }
  }

  lemma OlderOfDuplicates(index: Places, keys: set<Pubkey>)
    requires forall k :: k in index ==> index[k].Keys != {}
    requires forall k :: k in keys <==> k in index && |index[k]| > 1
    ensures Older(index, keys) == Older(index, index.Keys)
  {
    forall k | k in index && k !in keys
      ensures Older(index, {k}) == {}
    {
      OlderOfKey(index, k);
    }
    forall v | v in Older(index, index.Keys)
      ensures v in Older(index, keys)
    {
      assert v in Older(index, {v.0});
    }
  }

  // ---- The startup computation and the walk over the index ----

  /**
   * Rebuilds the index. Whatever storages each thread takes and however the duplicates are
   * chunked, the result is the total of the newest version of every key.
   */
  method GenerateIndex<G(!new)>(m: Measure<G>, storages: seq<Storage>, threads: seq<seq<nat>>, size: nat)
    returns (index: Places, sum: G, dataLen: nat)
    requires Lawful(m) && OneEach(storages) && Assigned(threads, |storages|) && size > 0
    ensures IndexesAll(storages, index) && (forall k :: k in index ==> index[k].Keys != {})
    ensures Totals(m, storages, Latest(index), sum, dataLen)
  {
    index, sum, dataLen := IndexStorages(m, storages, threads);
    KeysNotEmpty(index);
    var keys := DuplicateKeys(index);
    var oldSum, oldLen := VisitChunks(m, storages, index, keys, size);
    OlderOfDuplicates(index, KeySet(keys));
    LatestAreTheRest(index);
    IntegersAreAbelian();
    TotalDifference(m.group, Versions(index), Older(index, index.Keys), ValueOf(m, storages));
    TotalDifference(INTEGERS, Versions(index), Older(index, index.Keys), ValueOf(DATA_LEN, storages));
    TotalIsNat(Latest(index), ValueOf(DATA_LEN, storages));
    sum, dataLen := m.group.sub(sum, oldSum), dataLen - oldLen;
  }

  /** Walks the index and adds up the newest version of each key, unless it has no lamports. */
  method WalkIndex<G(!new)>(m: Measure<G>, storages: seq<Storage>, index: Places) returns (sum: G)
    requires Lawful(m) && OneEach(storages) && IndexesAll(storages, index)
             && (forall k :: k in index ==> index[k].Keys != {})
    ensures sum == Total(m.group, Latest(index), ValueOf(m, storages))
  {
    sum := m.group.zero;
    var todo := index.Keys;
    ghost var done: set<Version> := {};
    while todo != {}
      invariant todo <= index.Keys
      invariant done == set k | k in index && k !in todo :: (k, Newest(index[k].Keys))
      invariant sum == Total(m.group, done, ValueOf(m, storages))
    {
      var k :| k in todo;
      todo := todo - {k};
      var s := NewestSlot(index[k]);
      assert IsIndexed(index, (k, s));
      var p := index[k][s];
      var account := storages[p.store].accounts[p.offset].account;
      ValueIsRecord(m, storages, p);
      TotalAdd(m.group, done, (k, s), ValueOf(m, storages));
      if account.lamports != 0 {
        sum := m.group.add(sum, m.of(k, account));
      } else {
        assert Cancels(m.group, sum, m.group.zero);
      }
      done := done + {(k, s)};
    }
    assert done == Latest(index);
  }

  /** The hash computed while the index is rebuilt is the hash of a walk over the index. */
  method StartupMatchesWalk<G(!new)>(m: Measure<G>, storages: seq<Storage>, threads: seq<seq<nat>>, size: nat)
    returns (startup: G, walk: G)
    requires Lawful(m) && OneEach(storages) && Assigned(threads, |storages|) && size > 0
    ensures startup == walk
  {
    var index, dataLen;
    index, startup, dataLen := GenerateIndex(m, storages, threads, size);
    walk := WalkIndex(m, storages, index);
  }
}
