/** Sorting the accounts of a storage by key and keeping the last version of each. */
module Dedup {
  import opened Types

  datatype AccountFromStorage = AccountFromStorage(pubkey: Pubkey, offset: Offset)

  predicate SortedByKey(s: seq<AccountFromStorage>) {
    forall i, j :: 0 <= i < j < |s| ==> s[i].pubkey <= s[j].pubkey
  }

  predicate StrictlySorted(s: seq<AccountFromStorage>) {
    forall i, j :: 0 <= i < j < |s| ==> s[i].pubkey < s[j].pubkey
  }

  /** The version of a key that was stored last. */
  function LastVersion(s: seq<AccountFromStorage>, k: Pubkey): (r: Option<AccountFromStorage>)
    ensures r.Some? ==> r.value.pubkey == k
  {
    if s == [] then None
    else if s[|s| - 1].pubkey == k then Some(s[|s| - 1])
    else LastVersion(s[..|s| - 1], k)
  }

  /** `r` has, for each key of `s` and for no other, its last version. */
  ghost predicate LastVersions(s: seq<AccountFromStorage>, r: seq<AccountFromStorage>) {
    && StrictlySorted(r)
    && (forall i :: 0 <= i < |r| ==> LastVersion(s, r[i].pubkey) == Some(r[i]))
    && (forall k :: LastVersion(s, k).Some? ==> LastVersion(s, k).value in r)
  }

  // ---- Stable sort ----

  function Insert(s: seq<AccountFromStorage>, x: AccountFromStorage): (r: seq<AccountFromStorage>)
    ensures |r| == |s| + 1
  {
    if s == [] || s[|s| - 1].pubkey <= x.pubkey then s + [x]
    else Insert(s[..|s| - 1], x) + [s[|s| - 1]]
  }

  function StableSort(s: seq<AccountFromStorage>): (r: seq<AccountFromStorage>)
    ensures |r| == |s|
  {
    if s == [] then [] else Insert(StableSort(s[..|s| - 1]), s[|s| - 1])
  }

  lemma {:induction false} InsertSorts(s: seq<AccountFromStorage>, x: AccountFromStorage)
    requires SortedByKey(s)
    ensures SortedByKey(Insert(s, x))
    ensures forall y :: y in Insert(s, x) ==> y == x || y in s
  {
    if s != [] && x.pubkey < s[|s| - 1].pubkey {
      InsertSorts(s[..|s| - 1], x);
      assert forall y :: y in Insert(s[..|s| - 1], x) ==> y.pubkey <= s[|s| - 1].pubkey;
    }
  }

  lemma LastVersionPush(s: seq<AccountFromStorage>, x: AccountFromStorage, k: Pubkey)
    ensures LastVersion(s + [x], k) == if x.pubkey == k then Some(x) else LastVersion(s, k)
  {
    assert (s + [x])[..|s|] == s;
  }

  lemma {:induction false} InsertKeepsLast(s: seq<AccountFromStorage>, x: AccountFromStorage, k: Pubkey)
    requires SortedByKey(s)
    ensures LastVersion(Insert(s, x), k) == if x.pubkey == k then Some(x) else LastVersion(s, k)
  {
    if s == [] || s[|s| - 1].pubkey <= x.pubkey {
      LastVersionPush(s, x, k);
    } else {
      InsertKeepsLast(s[..|s| - 1], x, k);
      LastVersionPush(Insert(s[..|s| - 1], x), s[|s| - 1], k);
    }
  }

  /** The sort orders the keys and does not change which version of a key comes last. */
  lemma {:induction false} SortIsStable(s: seq<AccountFromStorage>)
    ensures SortedByKey(StableSort(s))
    ensures forall k :: LastVersion(StableSort(s), k) == LastVersion(s, k)
  {
    if s != [] {
      var init, last := s[..|s| - 1], s[|s| - 1];
      SortIsStable(init);
      InsertSorts(StableSort(init), last);
      forall k
        ensures LastVersion(StableSort(s), k) == LastVersion(s, k)
      {
        InsertKeepsLast(StableSort(init), last, k);
      }
    }
  }

  // ---- Compaction ----

  /** The last element of every run of equal keys. */
  function LastOfRuns(s: seq<AccountFromStorage>): (r: seq<AccountFromStorage>)
    ensures |r| <= |s|
    ensures s != [] ==> r != [] && r[|r| - 1] == s[|s| - 1]
  {
    if |s| <= 1 then s
    else
      var r := LastOfRuns(s[..|s| - 1]);
      if s[|s| - 1].pubkey == s[|s| - 2].pubkey then r[..|r| - 1] + [s[|s| - 1]] else r + [s[|s| - 1]]
  }

  lemma LastOfRunsPush(s: seq<AccountFromStorage>, x: AccountFromStorage)
    requires s != []
    ensures var r := LastOfRuns(s);
            LastOfRuns(s + [x]) == if x.pubkey == r[|r| - 1].pubkey then r[..|r| - 1] + [x] else r + [x]
  {
    assert (s + [x])[..|s|] == s;
  }

  lemma OneVersion(s: seq<AccountFromStorage>)
    requires |s| <= 1
    ensures LastVersions(s, s)
  {
    if |s| == 1 {
      assert s == [] + [s[0]];
      forall k
        ensures LastVersion(s, k) == if s[0].pubkey == k then Some(s[0]) else None
      {
        LastVersionPush([], s[0], k);
      }
    }
  }

  lemma {:induction false} RunsOfSorted(s: seq<AccountFromStorage>)
    requires SortedByKey(s)
    ensures LastVersions(s, LastOfRuns(s))
  {
    if |s| <= 1 {
      OneVersion(s);
    } else {
      var init, last := s[..|s| - 1], s[|s| - 1];
      var r := LastOfRuns(init);
      assert SortedByKey(init) && r[|r| - 1] == s[|s| - 2] && s[|s| - 2].pubkey <= last.pubkey;
      RunsOfSorted(init);
      RunsStep(init, last, r, LastOfRuns(s));
      assert init + [last] == s;
    }
  }

  lemma RunsStepVersions(init: seq<AccountFromStorage>, last: AccountFromStorage, r: seq<AccountFromStorage>,
                         r': seq<AccountFromStorage>, k: Pubkey)
    requires LastVersions(init, r) && r != [] && r' != [] && r'[|r'| - 1] == last
    requires r' == (if last.pubkey == r[|r| - 1].pubkey then r[..|r| - 1] + [last] else r + [last])
    requires LastVersion(init + [last], k).Some?
    ensures LastVersion(init + [last], k).value in r'
  {
    LastVersionPush(init, last, k);
    if k != last.pubkey {
      var i :| 0 <= i < |r| && r[i] == LastVersion(init, k).value;
      assert r'[i] == r[i];
    }
  }

  lemma RunsStep(init: seq<AccountFromStorage>, last: AccountFromStorage, r: seq<AccountFromStorage>,
                 r': seq<AccountFromStorage>)
    requires LastVersions(init, r)
    requires r != [] && r[|r| - 1].pubkey <= last.pubkey
    requires r' == if last.pubkey == r[|r| - 1].pubkey then r[..|r| - 1] + [last] else r + [last]
    ensures LastVersions(init + [last], r')
  {
    assert r'[|r'| - 1] == last;
    forall k | LastVersion(init + [last], k).Some?
      ensures LastVersion(init + [last], k).value in r'
    {
      RunsStepVersions(init, last, r, r', k);
    }
    forall i | 0 <= i < |r'|
      ensures LastVersion(init + [last], r'[i].pubkey) == Some(r'[i])
    {
      LastVersionPush(init, last, r'[i].pubkey);
    }
  }

  /** What holds between two steps of the compaction. */
  ghost predicate Compacted(b: seq<AccountFromStorage>, last: nat, curr: nat, s: seq<AccountFromStorage>) {
    last < curr <= |b| == |s| && b[..last + 1] == LastOfRuns(s[..curr]) && b[curr..] == s[curr..]
  }

  /** Writing an element at or just behind the end of a prefix. */
  lemma PrefixUpdate(b: seq<AccountFromStorage>, n: nat, curr: nat, last: nat, x: AccountFromStorage)
    requires n <= last <= n + 1 && last <= curr < |b|
    ensures b[last := x][..last + 1] == (if last == n then b[..n + 1][..n] else b[..n + 1]) + [x]
    ensures b[last := x][curr + 1..] == b[curr..][1..]
  {
  }

  lemma CompactStep(b: seq<AccountFromStorage>, last: nat, curr: nat, s: seq<AccountFromStorage>)
    requires Compacted(b, last, curr, s) && curr < |b|
    ensures var last' := if b[curr].pubkey != b[last].pubkey then last + 1 else last;
            Compacted(b[last' := b[curr]], last', curr + 1, s)
  {
    var r, last' := LastOfRuns(s[..curr]), if b[curr].pubkey != b[last].pubkey then last + 1 else last;
    LastOfRunsPush(s[..curr], s[curr]);
    PrefixUpdate(b, last, curr, last', b[curr]);
    assert s[..curr + 1] == s[..curr] + [s[curr]];
    assert b[curr] == b[curr..][0] == s[curr] && b[last] == b[..last + 1][last] == r[last];
  }

  /** Compacts a sorted vector in place and says how many elements are left. */
  method RemoveDups(a: array<AccountFromStorage>) returns (kept: nat)
    modifies a
    ensures kept <= a.Length && a[..kept] == LastOfRuns(old(a[..]))
  {
    ghost var s := a[..];
    if a.Length <= 1 {
      return a.Length;
    }
    var last, curr := 0, 1;
    while curr < a.Length
      invariant last < curr <= a.Length && Compacted(a[..], last, curr, s)
    {
      ghost var b := a[..];
      CompactStep(b, last, curr, s);
      if a[curr].pubkey != a[last].pubkey {
        last := last + 1;
      }
      a[last] := a[curr];
      assert a[..] == b[last := b[curr]];
      curr := curr + 1;
    }
    assert s[..curr] == s;
    kept := last + 1;
  }

  method SortByPubkey(a: array<AccountFromStorage>)
    modifies a
    ensures a[..] == StableSort(old(a[..]))
  {
    var sorted := StableSort(a[..]);
    for i := 0 to a.Length
      invariant a[..i] == sorted[..i]
    {
      a[i] := sorted[i];
    }
  }

  /** What is left is the last stored version of every key, in key order. */
  method SortAndRemoveDups(a: array<AccountFromStorage>) returns (kept: nat, duplicates: nat)
    modifies a
    ensures kept + duplicates == a.Length
    ensures LastVersions(old(a[..]), a[..kept])
  {
    ghost var s := a[..];
    SortByPubkey(a);
    kept := RemoveDups(a);
    duplicates := a.Length - kept;
    SortIsStable(s);
    RunsOfSorted(StableSort(s));
  }
}
