/** The accounts with the largest balances, found in one scan with a heap of bounded size. */
module LargestAccounts {
  import opened Types

  datatype Balance = Balance(lamports: nat, pubkey: Pubkey)

  /** By balance, and by key among equal balances. */
  predicate Less(a: Balance, b: Balance) {
    a.lamports < b.lamports || (a.lamports == b.lamports && a.pubkey < b.pubkey)
  }

  datatype Filter = Exclude | Include

  predicate Eligible(b: Balance, addresses: set<Pubkey>, filter: Filter) {
    b.lamports != 0 && (if filter == Include then b.pubkey in addresses else b.pubkey !in addresses)
  }

  /** The eligible accounts of a scan. */
  ghost function EligibleIn(scan: seq<Balance>, addresses: set<Pubkey>, filter: Filter): set<Balance> {
    set i | 0 <= i < |scan| && Eligible(scan[i], addresses, filter) :: scan[i]
  }

  ghost function Elements(s: seq<Balance>): set<Balance> {
    set i | 0 <= i < |s| :: s[i]
  }

  predicate Descending(s: seq<Balance>) {
    forall i, j :: 0 <= i < j < |s| ==> Less(s[j], s[i])
  }

  /** `best` lists, from the largest down, the `num` largest of all, or all when there are fewer. */
  ghost predicate Best(best: seq<Balance>, all: set<Balance>, num: nat) {
    && Descending(best) && Elements(best) <= all
    && |best| == (if |all| < num then |all| else num)
    && forall a, i :: a in all && a !in Elements(best) && 0 <= i < |best| ==> Less(a, best[i])
  }

  lemma {:induction false} DescendingSize(s: seq<Balance>)
    requires Descending(s)
    ensures |Elements(s)| == |s|
  {
    if s != [] {
      var init := s[..|s| - 1];
      DescendingSize(init);
      assert Elements(s) == Elements(init) + {s[|s| - 1]};
      assert s[|s| - 1] !in Elements(init);
    }
  }

  /** The heap is kept as its elements from the largest down, so the smallest is at the end. */
  function Push(heap: seq<Balance>, b: Balance): (r: seq<Balance>)
    ensures |r| == |heap| + 1
  {
    if heap == [] || Less(b, heap[|heap| - 1]) then heap + [b]
    else Push(heap[..|heap| - 1], b) + [heap[|heap| - 1]]
  }

  lemma {:induction false} PushHas(heap: seq<Balance>, b: Balance)
    ensures Elements(Push(heap, b)) == Elements(heap) + {b}
  {
    var pushed := Push(heap, b);
    if heap == [] || Less(b, heap[|heap| - 1]) {
      ElementsMore(heap, b);
    } else {
      var init, last := heap[..|heap| - 1], heap[|heap| - 1];
      PushHas(init, b);
      ElementsMore(Push(init, b), last);
      ElementsMore(init, last);
      assert init + [last] == heap;
    }
  }

  lemma ElementsMore(s: seq<Balance>, b: Balance)
    ensures Elements(s + [b]) == Elements(s) + {b}
  {
    forall x | x in Elements(s) + {b}
      ensures x in Elements(s + [b])
    {
      if x == b {
        assert (s + [b])[|s|] == b;
      } else {
        var i :| 0 <= i < |s| && s[i] == x;
        assert (s + [b])[i] == x;
      }
    }
  }

  lemma {:induction false} PushKeepsOrder(heap: seq<Balance>, b: Balance)
    requires Descending(heap) && b !in Elements(heap)
    ensures Descending(Push(heap, b))
  {
    if heap != [] && !Less(b, heap[|heap| - 1]) {
      var init, last := heap[..|heap| - 1], heap[|heap| - 1];
      assert last in Elements(heap);
      forall x | x in Elements(init)
        ensures x in Elements(heap)
      {
        var i :| 0 <= i < |init| && init[i] == x;
        assert heap[i] == x;
      }
      PushKeepsOrder(init, b);
      PushHas(init, b);
      forall i | 0 <= i < |Push(init, b)|
        ensures Less(last, Push(init, b)[i])
      {
        assert Push(init, b)[i] in Elements(Push(init, b));
      }
    }
  }

  /** An account not larger than the smallest of a full heap changes nothing. */
  lemma TooSmall(best: seq<Balance>, all: set<Balance>, num: nat, b: Balance)
    requires Best(best, all, num) && num > 0 && |best| == num && b !in all
    requires Less(b, best[num - 1])
    ensures Best(best, all + {b}, num)
  {
    forall a, i | a in all + {b} && a !in Elements(best) && 0 <= i < |best|
      ensures Less(a, best[i])
    {
      assert i < num - 1 ==> Less(best[num - 1], best[i]);
    }
  }

  /** A new account joins a heap that is not full. */
  lemma Joins(best: seq<Balance>, all: set<Balance>, num: nat, b: Balance)
    requires Best(best, all, num) && |best| < num && b !in all
    ensures Best(Push(best, b), all + {b}, num)
  {
    DescendingSize(best);
    SubsetSameSize(Elements(best), all);
    PushHas(best, b);
    PushKeepsOrder(best, b);
  }

  /** A larger account takes the place of the smallest in a full heap. */
  lemma Replaces(best: seq<Balance>, all: set<Balance>, num: nat, b: Balance)
    requires Best(best, all, num) && num > 0 && |best| == num && b !in all && Less(best[num - 1], b)
    ensures Best(Push(best[..num - 1], b), all + {b}, num)
  {
    var rest, least := best[..num - 1], best[num - 1];
    assert best == rest + [least];
    ElementsMore(rest, least);
    assert least !in Elements(rest);
    PushHas(rest, b);
    PushKeepsOrder(rest, b);
    var best' := Push(rest, b);
    forall a, i | a in all + {b} && a !in Elements(best') && 0 <= i < |best'|
      ensures Less(a, best'[i])
    {
      assert best'[i] in Elements(best');
      assert a == least || Less(a, least);
      if best'[i] != b {
        var j :| 0 <= j < |rest| && rest[j] == best'[i];
        assert Less(least, best[j]);
      }
    }
    SizeGrows(all, b, num);
  }

  lemma SizeGrows(all: set<Balance>, b: Balance, num: nat)
    requires b !in all && num <= |all|
    ensures num <= |all + {b}|
  {
  }

  /** The largest eligible accounts of a scan in which each key comes once, largest first. */
  method LoadLargestAccounts(scan: seq<Balance>, num: nat, addresses: set<Pubkey>, filter: Filter)
    returns (largest: seq<Balance>)
    requires forall i, j :: 0 <= i < j < |scan| ==> scan[i].pubkey != scan[j].pubkey
    ensures Best(largest, EligibleIn(scan, addresses, filter), num)
    ensures AreLargest(largest, scan, num, addresses, filter)
  {
    largest := [];
    if num == 0 {
      return;
    }
    assert EligibleIn(scan[..0], addresses, filter) == {};
    for i := 0 to |scan|
      invariant Best(largest, EligibleIn(scan[..i], addresses, filter), num)
    {
      ghost var all := EligibleIn(scan[..i], addresses, filter);
      var b := scan[i];
      EligibleMore(scan, i, addresses, filter);
      if Eligible(b, addresses, filter) {
        if |largest| == num {
          if !Less(largest[num - 1], b) {
            SameOrLess(largest, all, num, b);
            TooSmall(largest, all, num, b);
          } else {
            Replaces(largest, all, num, b);
            largest := Push(largest[..num - 1], b);
          }
        } else {
          Joins(largest, all, num, b);
          largest := Push(largest, b);
        }
      }
    }
    assert scan[..|scan|] == scan;
    BestAreLargest(scan, num, addresses, filter, largest);
  }

  /**
   * Of the scanned accounts that have lamports and pass the filter, `largest` lists at most `num`, by
   * balance and among equal balances by key. Another such account is missing only when `num` are listed,
   * and then comes after them all.
   */
  ghost predicate AreLargest(largest: seq<Balance>, scan: seq<Balance>, num: nat, addresses: set<Pubkey>,
                             filter: Filter) {
    && |largest| <= num
    && (forall b :: b in largest ==>
          b in scan && b.lamports > 0 && (filter == Include <==> b.pubkey in addresses))
    && (forall i, j :: 0 <= i < j < |largest| ==>
          largest[j].lamports < largest[i].lamports
          || (largest[j].lamports == largest[i].lamports && largest[j].pubkey < largest[i].pubkey))
    && (forall b | b in scan && b !in largest && b.lamports > 0 && (filter == Include <==> b.pubkey in addresses) ::
          |largest| == num
          && forall i :: 0 <= i < |largest| ==>
               b.lamports < largest[i].lamports
               || (b.lamports == largest[i].lamports && b.pubkey < largest[i].pubkey))
  }

  lemma BestAreLargest(scan: seq<Balance>, num: nat, addresses: set<Pubkey>, filter: Filter, largest: seq<Balance>)
    requires Best(largest, EligibleIn(scan, addresses, filter), num)
    ensures AreLargest(largest, scan, num, addresses, filter)
  {
    var all := EligibleIn(scan, addresses, filter);
    forall b | b in largest
      ensures b in Elements(largest) && b in all
    {
    }
    assert forall b :: b in Elements(largest) ==> b in largest;
    forall b | b in scan && b !in largest && b.lamports > 0 && (filter == Include <==> b.pubkey in addresses)
      ensures b in all && |largest| == num
    {
      DescendingSize(largest);
      if |largest| == |all| {
        SubsetSameSize(Elements(largest), all);
      }
    }
  }

  lemma SameOrLess(best: seq<Balance>, all: set<Balance>, num: nat, b: Balance)
    requires Best(best, all, num) && num > 0 && |best| == num && b !in all && !Less(best[num - 1], b)
    ensures Less(b, best[num - 1])
  {
    assert best[num - 1] in Elements(best);
  }

  lemma EligibleMore(scan: seq<Balance>, i: nat, addresses: set<Pubkey>, filter: Filter)
    requires i < |scan| && forall i, j :: 0 <= i < j < |scan| ==> scan[i].pubkey != scan[j].pubkey
    ensures EligibleIn(scan[..i + 1], addresses, filter)
            == EligibleIn(scan[..i], addresses, filter) + if Eligible(scan[i], addresses, filter) then {scan[i]} else {}
    ensures scan[i] !in EligibleIn(scan[..i], addresses, filter)
  {
    var now, next := EligibleIn(scan[..i], addresses, filter), EligibleIn(scan[..i + 1], addresses, filter);
    forall b | b in now
      ensures b in next
    {
      var j :| 0 <= j < i && scan[..i][j] == b;
      assert scan[..i + 1][j] == b;
    }
    if Eligible(scan[i], addresses, filter) {
      assert scan[..i + 1][i] == scan[i];
    }
    forall b | b in next && b != scan[i]
      ensures b in now
    {
      var j :| 0 <= j < i + 1 && scan[..i + 1][j] == b && Eligible(b, addresses, filter);
      assert scan[..i][j] == b;
    }
  }
}
