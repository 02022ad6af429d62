/** The sizes the write cache keeps: of each slot, and of all slot caches still in memory. */
module CacheSize {
  import opened Types
  import opened Groups

  /** A slot cache. It stays in memory until the last reference to it is dropped. */
  datatype SlotCache = SlotCache(accounts: map<Pubkey, Account>, size: nat, count: nat)

  type CacheId = nat

  ghost function DataLen(accounts: map<Pubkey, Account>): Pubkey -> int {
    (k: Pubkey) => if k in accounts then |accounts[k].data| else 0
  }

  /** The data of all accounts of a slot. */
  ghost function Bytes(accounts: map<Pubkey, Account>): int {
    Total(INTEGERS, accounts.Keys, DataLen(accounts))
  }

  /** The slot cache counts its accounts and the bytes of their data. */
  ghost predicate Accurate(slot: SlotCache) {
    slot.size == Bytes(slot.accounts) && slot.count == |slot.accounts|
  }

  type Caches = map<CacheId, SlotCache>

  /** What a slot cache adds to the totals, if it is in memory. */
  function SizeAt(caches: Caches, c: CacheId): (nat, nat) {
    if c in caches then (caches[c].size, caches[c].count) else (0, 0)
  }

  /** The sizes and counts of the slot caches with an id below `n`, added up. */
  ghost function SumsUpTo(caches: Caches, n: nat): (nat, nat) {
    if n == 0 then (0, 0)
    else
      var (size, count) := SumsUpTo(caches, n - 1);
      (size + SizeAt(caches, n - 1).0, count + SizeAt(caches, n - 1).1)
  }

  lemma OnlyOneChanges<V(!new)>(items: set<V>, v: V, f: V -> int, h: V -> int)
    requires v in items && forall u :: u in items && u != v ==> h(u) == f(u)
    ensures Total(INTEGERS, items, h) == Total(INTEGERS, items, f) - f(v) + h(v)
  {
    IntegersAreAbelian();
    var rest := items - {v};
    assert items == rest + {v};
    TotalAdd(INTEGERS, rest, v, f);
    TotalAdd(INTEGERS, rest, v, h);
    TotalSame(INTEGERS, rest, f, h);
  }

  lemma OneMore<V(!new)>(items: set<V>, v: V, f: V -> int, h: V -> int)
    requires v !in items && forall u :: u in items ==> h(u) == f(u)
    ensures Total(INTEGERS, items + {v}, h) == Total(INTEGERS, items, f) + h(v)
  {
    IntegersAreAbelian();
    TotalAdd(INTEGERS, items, v, h);
    TotalSame(INTEGERS, items, f, h);
  }

  /** A part of a total of sizes is not more than the whole. */
  lemma PartOfTotal<V(!new)>(items: set<V>, v: V, f: V -> int)
    requires v in items && forall u :: u in items ==> f(u) >= 0
    ensures f(v) <= Total(INTEGERS, items, f)
  {
    IntegersAreAbelian();
    assert items == (items - {v}) + {v};
    TotalAdd(INTEGERS, items - {v}, v, f);
    TotalIsNat(items - {v}, f);
  }

  ghost predicate AllAccurate(caches: Caches) {
    forall c {:trigger Accurate(caches[c])} :: c in caches ==> Accurate(caches[c])
  }

  /** A slot cache changes, and the sums with it. */
  lemma {:induction false} SumsChange(caches: Caches, caches': Caches, c: CacheId, n: nat)
    requires forall d :: d != c ==> SizeAt(caches', d) == SizeAt(caches, d)
    ensures SumsUpTo(caches', n).0 == SumsUpTo(caches, n).0 + if c < n then SizeAt(caches', c).0 - SizeAt(caches, c).0
              else 0
    ensures SumsUpTo(caches', n).1 == SumsUpTo(caches, n).1 + if c < n then SizeAt(caches', c).1 - SizeAt(caches, c).1
              else 0
  {
    if n > 0 {
      SumsChange(caches, caches', c, n - 1);
    }
  }

  lemma {:induction false} SumsCoverEach(caches: Caches, c: CacheId, n: nat)
    requires c < n
    ensures SizeAt(caches, c).0 <= SumsUpTo(caches, n).0 && SizeAt(caches, c).1 <= SumsUpTo(caches, n).1
  {
    if c < n - 1 {
      SumsCoverEach(caches, c, n - 1);
    }
  }

  lemma UpdateKeepsAccurate(caches: Caches, c: CacheId, slot: SlotCache)
    requires AllAccurate(caches) && Accurate(slot)
    ensures AllAccurate(caches[c := slot])
  {
    var caches' := caches[c := slot];
    forall d | d in caches'
      ensures Accurate(caches'[d])
    {
      assert d != c ==> Accurate(caches[d]);
    }
  }

  lemma DropKeepsAccurate(caches: Caches, c: CacheId)
    requires AllAccurate(caches)
    ensures AllAccurate(caches - {c})
  {
    var caches' := caches - {c};
    forall d | d in caches'
      ensures Accurate(caches'[d])
    {
      assert Accurate(caches[d]);
    }
  }

  lemma ReplacedBytes(accounts: map<Pubkey, Account>, k: Pubkey, account: Account)
    requires k in accounts
    ensures |accounts[k].data| <= Bytes(accounts)
    ensures Bytes(accounts[k := account]) == Bytes(accounts) - |accounts[k].data| + |account.data|
    ensures |accounts[k := account]| == |accounts|
  {
    var accounts' := accounts[k := account];
    assert accounts'.Keys == accounts.Keys && |accounts'| == |accounts'.Keys| == |accounts|;
    PartOfTotal(accounts.Keys, k, DataLen(accounts));
    OnlyOneChanges(accounts.Keys, k, DataLen(accounts), DataLen(accounts'));
  }

  lemma AddedBytes(accounts: map<Pubkey, Account>, k: Pubkey, account: Account)
    requires k !in accounts
    ensures Bytes(accounts[k := account]) == Bytes(accounts) + |account.data|
  {
    var accounts' := accounts[k := account];
    assert accounts'.Keys == accounts.Keys + {k};
    OneMore(accounts.Keys, k, DataLen(accounts), DataLen(accounts'));
  }

  lemma AddedCount(accounts: map<Pubkey, Account>, k: Pubkey, account: Account)
    requires k !in accounts
    ensures |accounts[k := account]| == |accounts| + 1
  {
    assert accounts[k := account].Keys == accounts.Keys + {k};
  }

  /** By how much the bytes of a slot cache grow or shrink, and how many accounts are added. */
  function Deltas(accounts: map<Pubkey, Account>, k: Pubkey, account: Account): (nat, nat, nat) {
    var dataLen := |account.data|;
    if k !in accounts then (dataLen, 0, 1)
    else
      var oldLen := |accounts[k].data|;
      if dataLen > oldLen then (dataLen - oldLen, 0, 0) else (0, oldLen - dataLen, 0)
  }

  /** The sizes of a slot cache can take the change, and are accurate afterwards. */
  lemma InsertKeepsAccurate(caches: Caches, c: CacheId, k: Pubkey, account: Account)
    requires AllAccurate(caches) && c in caches
    ensures var slot := caches[c];
            var (grow, shrink, added) := Deltas(slot.accounts, k, account);
            && shrink <= slot.size
            && AllAccurate(caches[c := SlotCache(slot.accounts[k := account], slot.size + grow - shrink,
                                                 slot.count + added)])
  {
    var slot := caches[c];
    assert Accurate(caches[c]);
    if k in slot.accounts {
      ReplacedBytes(slot.accounts, k, account);
    } else {
      AddedBytes(slot.accounts, k, account);
      AddedCount(slot.accounts, k, account);
    }
    var (grow, shrink, added) := Deltas(slot.accounts, k, account);
    UpdateKeepsAccurate(caches, c,
                        SlotCache(slot.accounts[k := account], slot.size + grow - shrink, slot.count + added));
  }

  class AccountsCache {
    /** The slot cache of each slot in the map. */
    var slots: map<Slot, CacheId>
    /** All slot caches in memory, those taken out of the map included. */
    var caches: Caches
    var totalSize: nat
    var totalCount: nat
    var nextId: CacheId

    ghost predicate Valid()
      reads this
    {
      && AllAccurate(caches) && (totalSize, totalCount) == SumsUpTo(caches, nextId)
      && (forall c :: c in caches ==> c < nextId) && (forall s :: s in slots ==> slots[s] in caches)
      && (forall s, t :: s in slots && t in slots && s != t ==> slots[s] != slots[t])
    }

    constructor ()
      ensures Valid() && slots == map[] && caches == map[]
    {
      slots, caches, totalSize, totalCount, nextId := map[], map[], 0, 0, 0;
    }

    /** Puts an account into a slot cache. The totals grow or shrink by as much as the slot's sizes. */
    method Insert(c: CacheId, k: Pubkey, account: Account)
      requires Valid() && c in caches
      modifies this`caches, this`totalSize, this`totalCount
      ensures Valid() && c in caches && caches == old(caches)[c := caches[c]]
      ensures caches[c].accounts == old(caches)[c].accounts[k := account]
    {
      var SlotCache(accounts, size, count) := caches[c];
      var (grow, shrink, added) := Deltas(accounts, k, account);
      InsertKeepsAccurate(caches, c, k, account);
      var slot' := SlotCache(accounts[k := account], size + grow - shrink, count + added);
      SumsCoverEach(caches, c, nextId);
      SumsChange(caches, caches[c := slot'], c, nextId);
      totalSize := totalSize + grow - shrink;
      totalCount := totalCount + added;
      caches := caches[c := slot'];
    }

    /** Makes a slot cache for a slot. */
    method NewSlot(slot: Slot)
      requires Valid() && slot !in slots
      modifies this`slots, this`caches, this`nextId
      ensures Valid() && slots == old(slots)[slot := old(nextId)]
      ensures caches == old(caches)[old(nextId) := SlotCache(map[], 0, 0)]
    {
      UpdateKeepsAccurate(caches, nextId, SlotCache(map[], 0, 0));
      SumsChange(caches, caches[nextId := SlotCache(map[], 0, 0)], nextId, nextId + 1);
      caches := caches[nextId := SlotCache(map[], 0, 0)];
      slots := slots[slot := nextId];
      nextId := nextId + 1;
    }

    /** Stores an account in the cache of its slot, and makes one when there is none. */
    method Store(slot: Slot, k: Pubkey, account: Account)
      requires Valid()
      modifies this
      ensures Valid() && slot in slots && slots == old(slots)[slot := slots[slot]]
      ensures slot in old(slots) ==> slots == old(slots)
      ensures var before := if slot in old(slots) then old(caches)[old(slots)[slot]].accounts else map[];
              caches[slots[slot]].accounts == before[k := account]
      ensures forall c :: c in old(caches) && c != slots[slot] ==> c in caches && caches[c] == old(caches)[c]
      ensures forall s :: s in old(slots) && s != slot ==> caches[slots[s]] == old(caches)[old(slots)[s]]
    {
      if slot !in slots {
        NewSlot(slot);
      }
      Insert(slots[slot], k, account);
    }

    /** Takes the cache of a slot out of the map. It still counts while somebody holds it. */
    method RemoveSlot(slot: Slot) returns (removed: Option<CacheId>)
      requires Valid()
      modifies this`slots
      ensures Valid() && slots == old(slots) - {slot}
      ensures removed == if slot in old(slots) then Some(old(slots)[slot]) else None
    {
      removed := if slot in slots then Some(slots[slot]) else None;
      slots := slots - {slot};
    }

    /** The last reference to a slot cache goes, and its sizes with it. Neither total goes below zero. */
    method Drop(c: CacheId)
      requires Valid() && c in caches && forall s :: s in slots ==> slots[s] != c
      modifies this`caches, this`totalSize, this`totalCount
      ensures Valid() && caches == old(caches) - {c}
    {
      SumsCoverEach(caches, c, nextId);
      SumsChange(caches, caches - {c}, c, nextId);
      DropKeepsAccurate(caches, c);
      totalSize := totalSize - caches[c].size;
      totalCount := totalCount - caches[c].count;
      caches := caches - {c};
    }
  }
}
