/**
 * Which storages a clean may delete. Candidate keys and the slots that hold them form a
 * bipartite graph. A slot may go only when every key in it can leave every slot it is in.
 */
module DeleteDependencies {
  import opened Types

  /** A candidate key: the rooted slots that hold it, and its reference count in the index. */
  datatype CleaningInfo = CleaningInfo(slotList: map<Slot, AccountInfo>, refCount: nat)

  /** Accounts left alive in a slot once all candidates are gone, and the candidates in it. */
  datatype StoreCount = StoreCount(count: nat, pubkeys: set<Pubkey>)

  type Candidates = map<Pubkey, CleaningInfo>
  type StoreCounts = map<Slot, StoreCount>

  /** The candidates are kept in bins, each key in the bin its bytes select. */
  ghost predicate Binned(bins: seq<Candidates>, binOf: Pubkey -> nat, cands: Candidates) {
    && (forall b, k :: 0 <= b < |bins| && k in bins[b] ==> binOf(k) == b && k in cands && cands[k] == bins[b][k])
    && (forall k :: k in cands ==> binOf(k) < |bins| && k in bins[binOf(k)])
  }

  /** Each slot's key set is exactly the candidates whose slot list names the slot. */
  ghost predicate Consistent(cands: Candidates, counts: StoreCounts) {
    forall s, k :: s in counts ==> (k in counts[s].pubkeys <==> k in cands && s in cands[k].slotList)
  }

  /** Only slots of candidates are counted. */
  ghost predicate Occupied(counts: StoreCounts) {
    forall s :: s in counts ==> counts[s].pubkeys != {}
  }

  /** A key that, taken alone, may leave every slot it is in. */
  ghost predicate Removable(info: CleaningInfo, counts: StoreCounts) {
    && |info.slotList| == info.refCount
    && forall s :: s in info.slotList ==> s in counts && counts[s].count == 0
  }

  /** A set of slots closed under sharing a key, all of whose keys are removable. */
  ghost predicate Deletable(cands: Candidates, counts: StoreCounts, slots: set<Slot>) {
    && slots <= counts.Keys
    && (forall k, s :: k in cands && s in cands[k].slotList && s in slots
          ==> Removable(cands[k], counts) && cands[k].slotList.Keys <= slots)
  }

  ghost predicate LargestDeletable(cands: Candidates, counts: StoreCounts, slots: set<Slot>) {
    && Deletable(cands, counts, slots)
    && forall other: set<Slot> {:trigger Deletable(cands, counts, other)} ::
         Deletable(cands, counts, other) ==> other <= slots
  }

  /** A deletable slot has no account left once its candidates are gone. */
  lemma DeletableIsEmpty(cands: Candidates, counts: StoreCounts, slots: set<Slot>, s: Slot)
    requires Consistent(cands, counts) && Occupied(counts) && Deletable(cands, counts, slots) && s in slots
    ensures counts[s].count == 0
  {
    var k :| k in counts[s].pubkeys;
    assert Removable(cands[k], counts);
  }

  /** Whatever the iteration order, the answer is the same. */
  lemma LargestIsUnique(cands: Candidates, counts: StoreCounts, a: set<Slot>, b: set<Slot>)
    requires LargestDeletable(cands, counts, a) && LargestDeletable(cands, counts, b)
    ensures a == b
  {
    assert Deletable(cands, counts, a) && Deletable(cands, counts, b);
  }

  /** No deletable set meets `slots`. */
  ghost predicate Ruled(cands: Candidates, counts: StoreCounts, slots: set<Slot>) {
    forall other: set<Slot> {:trigger Deletable(cands, counts, other)} ::
      Deletable(cands, counts, other) ==> other !! slots
  }

  /** A key with one slot in `counted` has all its slots there or still waiting in `pending`. */
  ghost predicate Closed(cands: Candidates, counts: StoreCounts, counted: set<Slot>, pending: set<Slot>) {
    forall k, s :: k in cands && s in cands[k].slotList && s in counts && s in counted
      ==> cands[k].slotList.Keys <= counted + pending
  }

  /** The entries of `counts` that `counted` has not struck out. */
  ghost predicate Struck(counts: StoreCounts, counted: set<Slot>, left: StoreCounts) {
    && left.Keys == counts.Keys - counted
    && forall s :: s in left ==> left[s] == counts[s]
  }

  /** A key is settled once it is seen to be removable, or all its slots are struck out. */
  ghost predicate Settled(cands: Candidates, counts: StoreCounts, counted: set<Slot>, k: Pubkey)
    requires k in cands
  {
    Removable(cands[k], counts) || cands[k].slotList.Keys <= counted
  }

  lemma StuckKeyIsRuled(cands: Candidates, counts: StoreCounts, counted: set<Slot>, left: StoreCounts, k: Pubkey)
    requires k in cands && Struck(counts, counted, left)
    requires Ruled(cands, counts, counted) && Closed(cands, counts, counted, {})
    requires !Removable(cands[k], left)
    ensures Ruled(cands, counts, counted + cands[k].slotList.Keys)
  {
    if Removable(cands[k], counts) {
      var s :| s in cands[k].slotList && s !in left;
      assert counted + cands[k].slotList.Keys == counted;
    }
  }

  lemma NeighboursAreRuled(cands: Candidates, counts: StoreCounts, slots: set<Slot>, s: Slot, k: Pubkey)
    requires Ruled(cands, counts, slots) && s in slots
    requires k in cands && s in cands[k].slotList
    ensures Ruled(cands, counts, slots + cands[k].slotList.Keys)
  {
  }

  ghost function AllSlots(cands: Candidates): (r: set<Slot>)
    ensures forall k, s :: k in cands && s in cands[k].slotList ==> s in r
  {
    set k, s | k in cands && s in cands[k].slotList :: s
  }

  /** Does every slot of this key's list have a zero count? */
  method CanDelete(info: CleaningInfo, left: StoreCounts) returns (delete: bool)
    ensures delete <==> Removable(info, left)
  {
    if |info.slotList| != info.refCount {
      return false;
    }
    var todo := info.slotList.Keys;
    while todo != {}
      invariant todo <= info.slotList.Keys
      invariant forall s :: s in info.slotList && s !in todo ==> s in left && left[s].count == 0
    {
      var s :| s in todo;
      if s !in left || left[s].count != 0 {
        return false;
      }
      todo := todo - {s};
    }
    return true;
  }

  /** Queue every slot of one key that is not struck out yet. */
  method AddPending(info: CleaningInfo, counted: set<Slot>, pending: set<Slot>) returns (r: set<Slot>)
    ensures r == pending + (info.slotList.Keys - counted)
  {
    r := pending;
    var todo := info.slotList.Keys;
    while todo != {}
      invariant todo <= info.slotList.Keys
      invariant r == pending + (info.slotList.Keys - todo - counted)
    {
      var s :| s in todo;
      if s !in counted {
        r := r + {s};
      }
      todo := todo - {s};
    }
  }

  /** Queue the slots of every key in a struck-out slot. */
  method AddNeighbours(bins: seq<Candidates>, binOf: Pubkey -> nat, ghost cands: Candidates, ghost counts: StoreCounts,
                       slot: Slot, pubkeys: set<Pubkey>, counted: set<Slot>, pending: set<Slot>)
    returns (r: set<Slot>)
    requires Binned(bins, binOf, cands) && slot in counted
    requires forall k :: k in pubkeys ==> k in cands && slot in cands[k].slotList
    requires Ruled(cands, counts, counted + pending) && pending !! counted && pending <= AllSlots(cands)
    ensures pending <= r && r !! counted && r <= AllSlots(cands)
    ensures forall k :: k in pubkeys ==> cands[k].slotList.Keys <= counted + r
    ensures Ruled(cands, counts, counted + r)
  {
    r := pending;
    var todo := pubkeys;
    while todo != {}
      invariant todo <= pubkeys && pending <= r && r !! counted && r <= AllSlots(cands)
      invariant forall k :: k in pubkeys && k !in todo ==> cands[k].slotList.Keys <= counted + r
      invariant Ruled(cands, counts, counted + r)
    {
      var k :| k in todo;
      NeighboursAreRuled(cands, counts, counted + r, slot, k);
      ghost var before := r;
      r := AddPending(bins[binOf(k)][k], counted, r);
      assert counted + r == counted + before + cands[k].slotList.Keys;
      todo := todo - {k};
    }
  }

  /** Strike out `pending` and everything connected to it. */
  method StrikeOut(bins: seq<Candidates>, binOf: Pubkey -> nat, ghost cands: Candidates, ghost counts: StoreCounts,
                   counted0: set<Slot>, left0: StoreCounts, pending0: set<Slot>)
    returns (counted: set<Slot>, left: StoreCounts)
    requires Binned(bins, binOf, cands) && Consistent(cands, counts)
    requires Struck(counts, counted0, left0)
    requires pending0 !! counted0 && pending0 <= AllSlots(cands)
    requires Ruled(cands, counts, counted0 + pending0) && Closed(cands, counts, counted0, {})
    ensures counted0 + pending0 <= counted && Struck(counts, counted, left)
    ensures Ruled(cands, counts, counted) && Closed(cands, counts, counted, {})
  {
    var pending := pending0;
    counted, left := counted0, left0;
    while pending != {}
      invariant pending !! counted && pending <= AllSlots(cands)
      invariant counted0 + pending0 <= counted + pending
      invariant Struck(counts, counted, left)
      invariant Ruled(cands, counts, counted + pending)
      invariant Closed(cands, counts, counted, pending)
      decreases AllSlots(cands) - counted
    {
      var slot :| slot in pending;
      ghost var all := counted + pending;
      pending := pending - {slot};
      counted := counted + {slot};
      assert counted + pending == all;
      if slot in left {
        var affected := left[slot].pubkeys;
        left := left - {slot};
        pending := AddNeighbours(bins, binOf, cands, counts, slot, affected, counted, pending);
      }
    }
  }

  /** Strike out what one key keeps from being deleted. */
  method VisitKey(bins: seq<Candidates>, binOf: Pubkey -> nat, ghost cands: Candidates, ghost counts: StoreCounts,
                  k: Pubkey, info: CleaningInfo, counted0: set<Slot>, left0: StoreCounts)
    returns (counted: set<Slot>, left: StoreCounts)
    requires Binned(bins, binOf, cands) && Consistent(cands, counts)
    requires k in cands && info == cands[k]
    requires Progress(cands, counts, counted0, left0)
    ensures counted0 <= counted && Progress(cands, counts, counted, left)
    ensures Settled(cands, counts, counted, k)
  {
    var delete := CanDelete(info, left0);
    if delete {
      assert Removable(info, counts);
      return counted0, left0;
    }
    var pending := AddPending(info, counted0, {});
    assert Ruled(cands, counts, counted0 + pending) by {
      StuckKeyIsRuled(cands, counts, counted0, left0, k);
      assert counted0 + pending == counted0 + cands[k].slotList.Keys;
    }
    counted, left := StrikeOut(bins, binOf, cands, counts, counted0, left0, pending);
    assert cands[k].slotList.Keys <= counted0 + pending;
  }

  /** What holds between two keys of the outer loop. */
  ghost predicate Progress(cands: Candidates, counts: StoreCounts, counted: set<Slot>, left: StoreCounts) {
    && Struck(counts, counted, left)
    && Ruled(cands, counts, counted)
    && Closed(cands, counts, counted, {})
  }

  lemma AllSettledIsLargest(cands: Candidates, counts: StoreCounts, counted: set<Slot>, left: StoreCounts)
    requires Progress(cands, counts, counted, left)
    requires forall k :: k in cands ==> Settled(cands, counts, counted, k)
    ensures LargestDeletable(cands, counts, left.Keys)
  {
    forall other: set<Slot> | Deletable(cands, counts, other)
      ensures other <= left.Keys
    {
    }
  }

  /** Leaves exactly the slots that can be deleted. */
  method CalcDeleteDependencies(bins: seq<Candidates>, binOf: Pubkey -> nat, ghost cands: Candidates,
                                counts: StoreCounts)
    returns (left: StoreCounts)
    requires Binned(bins, binOf, cands) && Consistent(cands, counts) && Occupied(counts)
    ensures left.Keys <= counts.Keys && forall s :: s in left ==> left[s] == counts[s] && left[s].count == 0
    ensures LargestDeletable(cands, counts, left.Keys)
  {
    left := counts;
    var counted: set<Slot> := {};
    for b := 0 to |bins|
      invariant Progress(cands, counts, counted, left)
      invariant forall k :: k in cands && binOf(k) < b ==> Settled(cands, counts, counted, k)
    {
      var todo := bins[b].Keys;
      while todo != {}
        invariant todo <= bins[b].Keys
        invariant Progress(cands, counts, counted, left)
        invariant forall k :: k in cands && binOf(k) < b ==> Settled(cands, counts, counted, k)
        invariant forall k :: k in bins[b] && k !in todo ==> Settled(cands, counts, counted, k)
      {
        var k :| k in todo;
        todo := todo - {k};
        counted, left := VisitKey(bins, binOf, cands, counts, k, bins[b][k], counted, left);
      }
    }
    AllSettledIsLargest(cands, counts, counted, left);
    forall s | s in left
      ensures left[s].count == 0
    {
      DeletableIsEmpty(cands, counts, left.Keys, s);
    }
  }
}
