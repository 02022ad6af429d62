/** Locks on accounts for transactions: one at a time, or relaxed within a batch as SIMD-0083 allows. */
module Locks {
  import opened Types

  /** The accounts of a transaction, each with whether it is written. */
  type LockKeys = seq<(Pubkey, bool)>

  datatype Error = AccountInUse | AccountLoadedTwice | TooManyAccountLocks | Other

  datatype Result<T> = Ok(value: T) | Err(error: Error)

  /** A granted transaction, with the lock batch it belongs to. */
  datatype Grant = Grant(batch: nat, keys: LockKeys)

  // ---- What is outstanding ----

  /** How often the keys name the account in the given mode. */
  ghost function Times(keys: LockKeys, k: Pubkey, writable: bool): nat {
    if keys == [] then 0
    else Times(keys[..|keys| - 1], k, writable) + if keys[|keys| - 1] == (k, writable) then 1 else 0
  }

  /** How many outstanding grants hold the account in the given mode. */
  ghost function Count(held: seq<Grant>, k: Pubkey, writable: bool): nat {
    if held == [] then 0 else Count(held[..|held| - 1], k, writable) + Times(held[|held| - 1].keys, k, writable)
  }

  /** Two transactions touch the same account and one of them writes it. */
  ghost predicate Conflict(a: LockKeys, b: LockKeys) {
    exists k, w, v :: (k, w) in a && (k, v) in b && (w || v)
  }

  ghost predicate NoConflicts(held: seq<Grant>) {
    forall i, j :: 0 <= i < j < |held| && held[i].batch != held[j].batch ==> !Conflict(held[i].keys, held[j].keys)
  }

  lemma TimesMore(keys: LockKeys, key: (Pubkey, bool), k: Pubkey, writable: bool)
    ensures Times(keys + [key], k, writable) == Times(keys, k, writable) + if key == (k, writable) then 1 else 0
  {
    assert (keys + [key])[..|keys|] == keys;
  }

  lemma {:induction false} TimesPositive(keys: LockKeys, k: Pubkey, writable: bool)
    ensures Times(keys, k, writable) > 0 <==> (k, writable) in keys
  {
    if keys != [] {
      TimesPositive(keys[..|keys| - 1], k, writable);
      assert keys == keys[..|keys| - 1] + [keys[|keys| - 1]];
    }
  }

  lemma CountMore(held: seq<Grant>, grant: Grant, k: Pubkey, writable: bool)
    ensures Count(held + [grant], k, writable) == Count(held, k, writable) + Times(grant.keys, k, writable)
  {
    assert (held + [grant])[..|held|] == held;
  }

  function Without(held: seq<Grant>, i: nat): seq<Grant>
    requires i < |held|
  {
    held[..i] + held[i + 1..]
  }

  lemma {:induction false} CountBoth(a: seq<Grant>, b: seq<Grant>, k: Pubkey, writable: bool)
    ensures Count(a + b, k, writable) == Count(a, k, writable) + Count(b, k, writable)
  {
    if b == [] {
      assert a + b == a;
    } else {
      CountBoth(a, b[..|b| - 1], k, writable);
      assert (a + b)[..|a + b| - 1] == a + b[..|b| - 1];
    }
  }

  lemma CountLess(held: seq<Grant>, i: nat, k: Pubkey, writable: bool)
    requires i < |held|
    ensures Count(held, k, writable) == Count(Without(held, i), k, writable) + Times(held[i].keys, k, writable)
  {
    CountBoth(held[..i], held[i + 1..], k, writable);
    CountMore(held[..i], held[i], k, writable);
    CountBoth(held[..i] + [held[i]], held[i + 1..], k, writable);
    assert held[..i] + [held[i]] + held[i + 1..] == held;
  }

  lemma {:induction false} HeldIsCounted(held: seq<Grant>, i: nat, k: Pubkey, writable: bool)
    requires i < |held| && (k, writable) in held[i].keys
    ensures Count(held, k, writable) > 0
  {
    TimesPositive(held[i].keys, k, writable);
    CountLess(held, i, k, writable);
  }

  // ---- The lock tables ----

  function Locked(table: map<Pubkey, nat>, k: Pubkey): nat {
    if k in table then table[k] else 0
  }

  ghost predicate NoZeros(table: map<Pubkey, nat>) {
    forall k :: k in table ==> table[k] > 0
  }

  /** A table says, key by key, how many outstanding grants hold the key. */
  ghost predicate Counts(table: map<Pubkey, nat>, held: seq<Grant>, writable: bool) {
    NoZeros(table) && forall k :: Locked(table, k) == Count(held, k, writable)
  }

  /** One lock more. */
  function Raised(table: map<Pubkey, nat>, k: Pubkey): map<Pubkey, nat> {
    table[k := Locked(table, k) + 1]
  }

  /** One lock less. */
  function Lowered(table: map<Pubkey, nat>, k: Pubkey): map<Pubkey, nat>
    requires k in table && table[k] > 0
  {
    if table[k] == 1 then table - {k} else table[k := table[k] - 1]
  }

  /** No key is locked in a way that conflicts. */
  ghost predicate Available(writers: map<Pubkey, nat>, readers: map<Pubkey, nat>, keys: LockKeys) {
    forall i :: 0 <= i < |keys| ==> Locked(writers, keys[i].0) == 0 && (keys[i].1 ==> Locked(readers, keys[i].0) == 0)
  }

  /** Available keys conflict with nothing outstanding. */
  lemma AvailableIsSafe(writers: map<Pubkey, nat>, readers: map<Pubkey, nat>, held: seq<Grant>, keys: LockKeys, i: nat)
    requires Counts(writers, held, true) && Counts(readers, held, false) && Available(writers, readers, keys)
             && i < |held|
    ensures !Conflict(held[i].keys, keys)
  {
    forall k, w, v | (k, w) in held[i].keys && (k, v) in keys
      ensures !w && !v
    {
      HeldIsCounted(held, i, k, w);
      var j :| 0 <= j < |keys| && keys[j] == (k, v);
      assert Locked(writers, keys[j].0) == 0;
    }
  }

  lemma {:induction false} CountedIsHeld(held: seq<Grant>, k: Pubkey, writable: bool)
    requires Count(held, k, writable) > 0
    ensures exists i :: 0 <= i < |held| && (k, writable) in held[i].keys
  {
    var last := |held| - 1;
    TimesPositive(held[last].keys, k, writable);
    if (k, writable) !in held[last].keys {
      CountedIsHeld(held[..last], k, writable);
      var i :| 0 <= i < last && (k, writable) in held[..last][i].keys;
      assert held[i] == held[..last][i];
    }
  }

  /** The transaction conflicts with nothing outstanding. */
  ghost predicate Peaceful(held: seq<Grant>, keys: LockKeys) {
    forall i :: 0 <= i < |held| ==> !Conflict(held[i].keys, keys)
  }

  /** The tables tell exactly whether a transaction conflicts with an outstanding one. */
  lemma AvailableIsPeaceful(writers: map<Pubkey, nat>, readers: map<Pubkey, nat>, held: seq<Grant>, keys: LockKeys)
    requires Counts(writers, held, true) && Counts(readers, held, false)
    ensures Available(writers, readers, keys) <==> Peaceful(held, keys)
  {
    if Available(writers, readers, keys) {
      forall i | 0 <= i < |held|
        ensures !Conflict(held[i].keys, keys)
      {
        AvailableIsSafe(writers, readers, held, keys, i);
      }
    } else {
      var j :| 0 <= j < |keys| && !(Locked(writers, keys[j].0) == 0 && (keys[j].1 ==> Locked(readers, keys[j].0) == 0));
      var (k, v) := keys[j];
      var w := Locked(writers, k) != 0;
      CountedIsHeld(held, k, w);
      var i :| 0 <= i < |held| && (k, w) in held[i].keys;
      assert (k, w) in held[i].keys && (k, v) in keys && (w || v);
      assert Conflict(held[i].keys, keys);
    }
  }

  class AccountLocks {
    var writeLocks: map<Pubkey, nat>
    var readonlyLocks: map<Pubkey, nat>
    /** The granted transactions that have not been unlocked. */
    ghost var held: seq<Grant>

    /** The tables count the outstanding grants, and grants of different batches never conflict. */
    ghost predicate Valid()
      reads this
    {
      Counts(writeLocks, held, true) && Counts(readonlyLocks, held, false) && NoConflicts(held)
    }

    constructor ()
      ensures Valid() && held == []
    {
      writeLocks, readonlyLocks, held := map[], map[], [];
    }

    method CanLockAccounts(keys: LockKeys) returns (ok: bool)
      requires NoZeros(writeLocks) && NoZeros(readonlyLocks)
      ensures ok <==> Available(writeLocks, readonlyLocks, keys)
    {
      for i := 0 to |keys|
        invariant Available(writeLocks, readonlyLocks, keys[..i])
      {
        var (key, writable) := keys[i];
        if writable {
          if key in readonlyLocks || key in writeLocks {
            return false;
          }
        } else if key in writeLocks {
          return false;
        }
      }
      assert keys[..|keys|] == keys;
      return true;
    }

    /** Takes the locks of a transaction. */
    method LockAccounts(keys: LockKeys, ghost batch: nat)
      requires Counts(writeLocks, held, true) && Counts(readonlyLocks, held, false)
      modifies this
      ensures held == old(held) + [Grant(batch, keys)]
      ensures Counts(writeLocks, held, true) && Counts(readonlyLocks, held, false)
    {
      ghost var before := held;
      held := before + [Grant(batch, [])];
      GrantNothing(before, batch);
      for i := 0 to |keys|
        invariant held == before + [Grant(batch, keys[..i])]
        invariant Counts(writeLocks, held, true) && Counts(readonlyLocks, held, false)
      {
        var (key, writable) := keys[i];
        GrantOneMore(before, batch, keys[..i], keys[i]);
        assert keys[..i + 1] == keys[..i] + [keys[i]];
        held := before + [Grant(batch, keys[..i + 1])];
        if writable {
          writeLocks := Raised(writeLocks, key);
        } else {
          readonlyLocks := Raised(readonlyLocks, key);
        }
      }
      assert keys[..|keys|] == keys;
    }

    /** Grants a transaction its locks, or changes nothing. */
    method TryLockAccounts(keys: LockKeys, ghost batch: nat) returns (result: Result<()>)
      requires Valid() && forall i :: 0 <= i < |held| ==> held[i].batch != batch
      modifies this
      ensures Valid()
      ensures result == if Peaceful(old(held), keys) then Ok(()) else Err(AccountInUse)
      ensures result.Ok? <==>
                forall i, k, w, v | 0 <= i < |old(held)| && (k, w) in old(held)[i].keys && (k, v) in keys ::
                                !w && !v
      ensures result.Ok? ==> held == old(held) + [Grant(batch, keys)]
      ensures result.Err? ==> held == old(held) && writeLocks == old(writeLocks) && readonlyLocks == old(readonlyLocks)
    {
      AvailableIsPeaceful(writeLocks, readonlyLocks, held, keys);
      var ok := CanLockAccounts(keys);
      if !ok {
        return Err(AccountInUse);
      }
      LockAccounts(keys, batch);
      return Ok(());
    }

    /** Checks each valid transaction of a batch against the locks held before the batch. */
    method CheckBatch(validated: seq<Result<LockKeys>>) returns (checked: seq<Result<LockKeys>>)
      requires Valid()
      ensures |checked| == |validated| && forall i :: 0 <= i < |validated| ==> checked[i] == Checked(held, validated[i])
    {
      checked := [];
      for i := 0 to |validated|
        invariant |checked| == i && forall j :: 0 <= j < i ==> checked[j] == Checked(held, validated[j])
      {
        var result := validated[i];
        if validated[i].Ok? {
          AvailableIsPeaceful(writeLocks, readonlyLocks, held, validated[i].value);
          var ok := CanLockAccounts(validated[i].value);
          if !ok {
            result := Err(AccountInUse);
          }
        }
        checked := checked + [result];
      }
    }

    /** Grants the transactions of a batch that conflict with nothing from before the batch. */
    method TryLockTransactionBatch(validated: seq<Result<LockKeys>>, ghost batch: nat)
      returns (results: seq<Result<()>>)
      requires Valid() && forall i :: 0 <= i < |held| ==> held[i].batch < batch
      modifies this
      ensures Valid() && |results| == |validated|
      ensures forall i :: 0 <= i < |results| ==> results[i] == Outcome(Checked(old(held), validated[i]))
      ensures held == old(held) + GrantedTogether(old(held), validated, batch)
      ensures forall i :: 0 <= i < |results| ==>
                (results[i].Ok? <==> validated[i].Ok? && Peaceful(old(held), validated[i].value))
      ensures old(held) <= held && InOrder(held[|old(held)|..], validated, results, batch, false)
    {
      ghost var before := held;
      var checked := CheckBatch(validated);
      results := [];
      for i := 0 to |checked|
        invariant |results| == i && forall j :: 0 <= j < i ==> results[j] == Outcome(checked[j])
        invariant held == before + GrantedTogether(before, validated[..i], batch)
        invariant Counts(writeLocks, held, true) && Counts(readonlyLocks, held, false)
      {
        assert validated[..i + 1][..i] == validated[..i];
        if checked[i].Ok? {
          LockAccounts(checked[i].value, batch);
          results := results + [Ok(())];
        } else {
          results := results + [Err(checked[i].error)];
        }
      }
      assert validated[..|validated|] == validated;
      TogetherIsPeaceful(before, validated, batch);
      TogetherInOrder(before, validated, batch, results);
      assert held[|before|..] == GrantedTogether(before, validated, batch);
    }

    /** Grants the transactions one at a time, each checked against all locks held so far. */
    method TryLockOneByOne(validated: seq<Result<LockKeys>>, ghost batch: nat) returns (results: seq<Result<()>>)
      requires Valid() && forall i :: 0 <= i < |held| ==> held[i].batch < batch
      modifies this
      ensures Valid() && |results| == |validated|
      ensures forall i :: 0 <= i < |results| ==> results[i] == OutcomeAt(old(held), validated, batch, i)
      ensures held == old(held) + GrantedOneByOne(old(held), validated, batch)
      ensures old(held) <= held && InOrder(held[|old(held)|..], validated, results, batch, true)
    {
      ghost var before := held;
      results := [];
      for i := 0 to |validated|
        invariant Valid() && |results| == i
        invariant held == before + GrantedOneByOne(before, validated[..i], batch)
        invariant forall j :: 0 <= j < i ==> results[j] == OutcomeAt(before, validated, batch, j)
      {
        OneByOneBatches(before, validated[..i], batch);
        assert validated[..i + 1][..i] == validated[..i];
        var result := Err(Other);
        if validated[i].Ok? {
          result := TryLockAccounts(validated[i].value, batch + i);
        } else {
          result := Err(validated[i].error);
        }
        assert result == OutcomeAt(before, validated, batch, i);
        results := results + [result];
      }
      assert validated[..|validated|] == validated;
      OneByOneInOrder(before, validated, batch, results);
      assert held[|before|..] == GrantedOneByOne(before, validated, batch);
    }

    /** Gives one lock back. The entry goes with the last one. */
    method UnlockWrite(k: Pubkey)
      requires k in writeLocks && writeLocks[k] > 0
      modifies this`writeLocks
      ensures writeLocks == Lowered(old(writeLocks), k)
    {
      if writeLocks[k] - 1 == 0 {
        writeLocks := writeLocks - {k};
      } else {
        writeLocks := writeLocks[k := writeLocks[k] - 1];
      }
    }

    method UnlockReadonly(k: Pubkey)
      requires k in readonlyLocks && readonlyLocks[k] > 0
      modifies this`readonlyLocks
      ensures readonlyLocks == Lowered(old(readonlyLocks), k)
    {
      if readonlyLocks[k] - 1 == 0 {
        readonlyLocks := readonlyLocks - {k};
      } else {
        readonlyLocks := readonlyLocks[k := readonlyLocks[k] - 1];
      }
    }

    /** Gives the locks of an outstanding transaction back. No lock it gives back is missing. */
    method UnlockAccounts(keys: LockKeys, ghost i: nat)
      requires Valid() && i < |held| && held[i].keys == keys
      modifies this
      ensures Valid() && held == Without(old(held), i) && (NeverConflict(old(held)) ==> NeverConflict(held))
    {
      ghost var rest, batch := Without(held, i), held[i].batch;
      MoveToEnd(held, i);
      held := rest + [Grant(batch, keys)];
      var n := 0;
      while n < |keys|
        invariant n <= |keys| && held == rest + [Grant(batch, keys[n..])]
        invariant Counts(writeLocks, held, true) && Counts(readonlyLocks, held, false)
      {
        var (key, writable) := keys[n];
        GrantOneLess(rest, batch, keys[n..]);
        held := rest + [Grant(batch, keys[n + 1..])];
        assert keys[n..][1..] == keys[n + 1..];
        if writable {
          UnlockWrite(key);
        } else {
          UnlockReadonly(key);
        }
        n := n + 1;
      }
      GrantNothing(rest, batch);
      held := rest;
      WithoutKeepsPeace(old(held), i);
    }

    /** Locks the valid transactions of a batch in the given mode. */
    method LockTransactions(validated: seq<Result<LockKeys>>, relax: bool, ghost batch: nat)
      returns (results: seq<Result<()>>)
      requires Valid() && forall i :: 0 <= i < |held| ==> held[i].batch < batch
      modifies this
      ensures Valid() && |results| == |validated|
      ensures held == old(held) + if relax then GrantedTogether(old(held), validated, batch)
                                  else GrantedOneByOne(old(held), validated, batch)
      ensures forall i :: 0 <= i < |results| ==>
                results[i] == if relax then Outcome(Checked(old(held), validated[i]))
                  else OutcomeAt(old(held), validated, batch, i)
      ensures old(held) <= held && InOrder(held[|old(held)|..], validated, results, batch, !relax)
      ensures !relax && NeverConflict(old(held)) ==> NeverConflict(held)
    {
      if relax {
        results := TryLockTransactionBatch(validated, batch);
      } else {
        ghost var apart := NeverConflict(held);
        if apart {
          OneByOneNeverConflicts(held, validated, batch);
        }
        results := TryLockOneByOne(validated, batch);
      }
    }

    /** Unlocks the transactions that were granted. */
    method UnlockTransactions(txs: seq<LockKeys>, granted: seq<bool>)
      requires Valid() && |granted| == |txs| && forall keys :: Given(txs, granted, keys, |txs|) <= HowMany(held, keys)
      modifies this
      ensures Valid() && forall keys ::
                HowMany(held, keys) == HowMany(old(held), keys) - Given(txs, granted, keys, |txs|)
      ensures NeverConflict(old(held)) ==> NeverConflict(held)
    {
      for n := 0 to |txs|
        invariant Valid() && (NeverConflict(old(held)) ==> NeverConflict(held))
        invariant forall keys :: HowMany(held, keys) == HowMany(old(held), keys) - Given(txs, granted, keys, n)
      {
        forall keys
          ensures Given(txs, granted, keys, n + 1)
                  == Given(txs, granted, keys, n) + if granted[n] && txs[n] == keys then 1 else 0
        {
          GivenMore(txs, granted, keys, n);
        }
        if granted[n] {
          GivenGrows(txs, granted, txs[n], n + 1);
          HeldSomewhere(held, txs[n]);
          ghost var i :| 0 <= i < |held| && held[i].keys == txs[n];
          forall keys
            ensures HowMany(Without(held, i), keys) == HowMany(held, keys) - if txs[n] == keys then 1 else 0
          {
            HowManyLess(held, i, keys);
          }
          UnlockAccounts(txs[n], i);
        }
      }
    }
  }

  /** How many outstanding grants have exactly these keys. */
  ghost function HowMany(held: seq<Grant>, keys: LockKeys): nat {
    if held == [] then 0 else HowMany(held[..|held| - 1], keys) + if held[|held| - 1].keys == keys then 1 else 0
  }

  /** How many of the first `n` transactions were granted and have exactly these keys. */
  ghost function Given(txs: seq<LockKeys>, granted: seq<bool>, keys: LockKeys, n: nat): nat
    requires |granted| == |txs| && n <= |txs|
  {
    |set i | 0 <= i < n && granted[i] && txs[i] == keys|
  }

  lemma GivenMore(txs: seq<LockKeys>, granted: seq<bool>, keys: LockKeys, n: nat)
    requires |granted| == |txs| && n < |txs|
    ensures Given(txs, granted, keys, n + 1)
            == Given(txs, granted, keys, n) + if granted[n] && txs[n] == keys then 1 else 0
  {
    var before := set i | 0 <= i < n && granted[i] && txs[i] == keys;
    var after := set i | 0 <= i < n + 1 && granted[i] && txs[i] == keys;
    assert after == before + if granted[n] && txs[n] == keys then {n} else {};
  }

  lemma {:induction false} GivenGrows(txs: seq<LockKeys>, granted: seq<bool>, keys: LockKeys, n: nat)
    requires |granted| == |txs| && n <= |txs|
    ensures Given(txs, granted, keys, n) <= Given(txs, granted, keys, |txs|)
    decreases |txs| - n
  {
    if n < |txs| {
      GivenMore(txs, granted, keys, n);
      GivenGrows(txs, granted, keys, n + 1);
    }
  }

  lemma {:induction false} HeldSomewhere(held: seq<Grant>, keys: LockKeys)
    requires HowMany(held, keys) > 0
    ensures exists i :: 0 <= i < |held| && held[i].keys == keys
  {
    var last := |held| - 1;
    if held[last].keys != keys {
      HeldSomewhere(held[..last], keys);
      var i :| 0 <= i < last && held[..last][i].keys == keys;
      assert held[i].keys == keys;
    }
  }

  lemma {:induction false} HowManyLess(held: seq<Grant>, i: nat, keys: LockKeys)
    requires i < |held|
    ensures HowMany(held, keys) == HowMany(Without(held, i), keys) + if held[i].keys == keys then 1 else 0
  {
    var last := |held| - 1;
    if i == last {
      assert Without(held, i) == held[..last];
    } else {
      HowManyLess(held[..last], i, keys);
      assert Without(held, i) == Without(held[..last], i) + [held[last]];
      assert Without(held, i)[..|held| - 2] == Without(held[..last], i);
    }
  }

  /** The tables follow from what is outstanding: giving locks back restores them exactly. */
  lemma TableIsDetermined(a: map<Pubkey, nat>, b: map<Pubkey, nat>, held: seq<Grant>, writable: bool)
    requires Counts(a, held, writable) && Counts(b, held, writable)
    ensures a == b
  {
    forall k: Pubkey
      ensures (k in a <==> k in b) && (k in a ==> a[k] == b[k])
    {
      assert Locked(a, k) == Locked(b, k);
    }
  }

  /** No two outstanding transactions conflict, whatever their batches. */
  ghost predicate NeverConflict(held: seq<Grant>) {
    forall i, j :: 0 <= i < j < |held| ==> !Conflict(held[i].keys, held[j].keys)
  }

  /** Granting transactions one by one keeps all outstanding ones apart. */
  lemma {:induction false} OneByOneNeverConflicts(held: seq<Grant>, validated: seq<Result<LockKeys>>, batch: nat)
    requires NeverConflict(held)
    ensures NeverConflict(held + GrantedOneByOne(held, validated, batch))
  {
    if validated == [] {
      assert held + [] == held;
    } else {
      var last := |validated| - 1;
      OneByOneNeverConflicts(held, validated[..last], batch);
      var all := held + GrantedOneByOne(held, validated[..last], batch);
      if Checked(all, validated[last]).Ok? {
        assert held + GrantedOneByOne(held, validated, batch) == all + [Grant(batch + last, validated[last].value)];
      } else {
        assert held + GrantedOneByOne(held, validated, batch) == all;
      }
    }
  }

  /** A valid transaction that conflicts with something outstanding is turned down. */
  ghost function Checked(held: seq<Grant>, keys: Result<LockKeys>): Result<LockKeys> {
    if keys.Ok? && !Peaceful(held, keys.value) then Err(AccountInUse) else keys
  }

  function Outcome(checked: Result<LockKeys>): Result<()> {
    if checked.Ok? then Ok(()) else Err(checked.error)
  }

  /** The grants of a batch whose transactions are all checked against what was held before. */
  ghost function GrantedTogether(held: seq<Grant>, validated: seq<Result<LockKeys>>, batch: nat): seq<Grant> {
    if validated == [] then []
    else
      var last := |validated| - 1;
      GrantedTogether(held, validated[..last], batch)
      + if Checked(held, validated[last]).Ok? then [Grant(batch, validated[last].value)] else []
  }

  /** The grants when each transaction is checked against all before it, as a batch of its own. */
  ghost function GrantedOneByOne(held: seq<Grant>, validated: seq<Result<LockKeys>>, batch: nat): seq<Grant> {
    if validated == [] then []
    else
      var last := |validated| - 1;
      var granted := GrantedOneByOne(held, validated[..last], batch);
      granted + if Checked(held + granted, validated[last]).Ok? then [Grant(batch + last, validated[last].value)]
        else []
  }

  /** What becomes of a transaction when each is checked against all before it. */
  ghost function OutcomeAt(held: seq<Grant>, validated: seq<Result<LockKeys>>, batch: nat, i: nat): Result<()>
    requires i < |validated|
  {
    Outcome(Checked(held + GrantedOneByOne(held, validated[..i], batch), validated[i]))
  }

  /** How many transactions were granted. */
  ghost function Oks(results: seq<Result<()>>): nat {
    if results == [] then 0 else Oks(results[..|results| - 1]) + if results[|results| - 1].Ok? then 1 else 0
  }

  /** The `n`-th transaction granted is the `n`-th one that came out well, with its own keys. */
  ghost predicate InOrder(granted: seq<Grant>, validated: seq<Result<LockKeys>>, results: seq<Result<()>>,
                          batch: nat, apart: bool)
    requires |results| == |validated|
  {
    && |granted| == Oks(results)
    && forall i :: 0 <= i < |results| && results[i].Ok? ==>
         && validated[i].Ok? && Oks(results[..i]) < |granted|
         && granted[Oks(results[..i])] == Grant(if apart then batch + i else batch, validated[i].value)
  }

  /** One transaction more, granted or turned down. */
  lemma OrderMore(granted: seq<Grant>, validated: seq<Result<LockKeys>>, results: seq<Result<()>>, batch: nat,
                  apart: bool, now: seq<Grant>)
    requires |results| == |validated| && results != []
    requires var last := |results| - 1;
             && InOrder(granted, validated[..last], results[..last], batch, apart)
             && (if results[last].Ok?
                 then && validated[last].Ok?
                      && now == granted + [Grant(if apart then batch + last else batch, validated[last].value)]
                 else now == granted)
    ensures InOrder(now, validated, results, batch, apart)
  {
    var last := |results| - 1;
    forall i | 0 <= i < last && results[i].Ok?
      ensures validated[i].Ok? && Oks(results[..i]) < |granted|
              && granted[Oks(results[..i])] == Grant(if apart then batch + i else batch, validated[i].value)
    {
      assert results[..last][i] == results[i] && results[..last][..i] == results[..i];
    }
  }

  lemma {:induction false} TogetherInOrder(held: seq<Grant>, validated: seq<Result<LockKeys>>, batch: nat,
                                           results: seq<Result<()>>)
    requires |results| == |validated|
             && forall i :: 0 <= i < |results| ==> results[i] == Outcome(Checked(held, validated[i]))
    ensures InOrder(GrantedTogether(held, validated, batch), validated, results, batch, false)
  {
    if validated != [] {
      var last := |validated| - 1;
      TogetherInOrder(held, validated[..last], batch, results[..last]);
      OrderMore(GrantedTogether(held, validated[..last], batch), validated, results, batch, false,
                GrantedTogether(held, validated, batch));
    }
  }

  /** What becomes of a transaction does not depend on the ones after it. */
  lemma SameOutcome(held: seq<Grant>, validated: seq<Result<LockKeys>>, batch: nat, n: nat, i: nat)
    requires i < n <= |validated|
    ensures OutcomeAt(held, validated[..n], batch, i) == OutcomeAt(held, validated, batch, i)
  {
    assert validated[..n][..i] == validated[..i];
  }

  lemma {:induction false} OneByOneInOrder(held: seq<Grant>, validated: seq<Result<LockKeys>>, batch: nat,
                                           results: seq<Result<()>>)
    requires |results| == |validated|
             && forall i :: 0 <= i < |results| ==> results[i] == OutcomeAt(held, validated, batch, i)
    ensures InOrder(GrantedOneByOne(held, validated, batch), validated, results, batch, true)
  {
    if validated != [] {
      var last := |validated| - 1;
      forall i | 0 <= i < last
        ensures results[..last][i] == OutcomeAt(held, validated[..last], batch, i)
      {
        SameOutcome(held, validated, batch, last, i);
      }
      OneByOneInOrder(held, validated[..last], batch, results[..last]);
      OrderMore(GrantedOneByOne(held, validated[..last], batch), validated, results, batch, true,
                GrantedOneByOne(held, validated, batch));
    }
  }

  lemma {:induction false} OneByOneBatches(held: seq<Grant>, validated: seq<Result<LockKeys>>, batch: nat)
    ensures forall i :: 0 <= i < |GrantedOneByOne(held, validated, batch)| ==>
              batch <= GrantedOneByOne(held, validated, batch)[i].batch < batch + |validated|
  {
    if validated != [] {
      OneByOneBatches(held, validated[..|validated| - 1], batch);
    }
  }

  lemma {:induction false} TogetherBatches(held: seq<Grant>, validated: seq<Result<LockKeys>>, batch: nat)
    ensures forall i :: 0 <= i < |GrantedTogether(held, validated, batch)| ==>
              var grant := GrantedTogether(held, validated, batch)[i];
              grant.batch == batch && Peaceful(held, grant.keys)
  {
    if validated != [] {
      TogetherBatches(held, validated[..|validated| - 1], batch);
    }
  }

  lemma TogetherIsPeaceful(held: seq<Grant>, validated: seq<Result<LockKeys>>, batch: nat)
    requires NoConflicts(held)
    ensures NoConflicts(held + GrantedTogether(held, validated, batch))
  {
    TogetherBatches(held, validated, batch);
    var granted := GrantedTogether(held, validated, batch);
    var all := held + granted;
    forall j | |held| <= j < |all|
      ensures all[j].batch == batch && Peaceful(held, all[j].keys)
    {
      assert all[j] == granted[j - |held|];
    }
  }

  lemma GrantNothing(held: seq<Grant>, batch: nat)
    ensures forall k: Pubkey, w: bool :: Count(held + [Grant(batch, [])], k, w) == Count(held, k, w)
  {
    forall k: Pubkey, w: bool
      ensures Count(held + [Grant(batch, [])], k, w) == Count(held, k, w)
    {
      CountMore(held, Grant(batch, []), k, w);
    }
  }

  lemma GrantOneMore(held: seq<Grant>, batch: nat, keys: LockKeys, key: (Pubkey, bool))
    ensures forall k: Pubkey, w: bool :: Count(held + [Grant(batch, keys + [key])], k, w)
              == Count(held + [Grant(batch, keys)], k, w) + if key == (k, w) then 1 else 0
  {
    forall k: Pubkey, w: bool
      ensures Count(held + [Grant(batch, keys + [key])], k, w)
              == Count(held + [Grant(batch, keys)], k, w) + if key == (k, w) then 1 else 0
    {
      CountMore(held, Grant(batch, keys + [key]), k, w);
      CountMore(held, Grant(batch, keys), k, w);
      TimesMore(keys, key, k, w);
    }
  }

  lemma {:induction false} TimesTail(keys: LockKeys, k: Pubkey, writable: bool)
    requires keys != []
    ensures Times(keys, k, writable) == Times(keys[1..], k, writable) + if keys[0] == (k, writable) then 1 else 0
  {
    if |keys| > 1 {
      var init := keys[..|keys| - 1];
      TimesTail(init, k, writable);
      assert keys[1..][..|keys| - 2] == init[1..];
    }
  }

  lemma GrantOneLess(held: seq<Grant>, batch: nat, keys: LockKeys)
    requires keys != []
    ensures forall k: Pubkey, w: bool :: Count(held + [Grant(batch, keys)], k, w)
              == Count(held + [Grant(batch, keys[1..])], k, w) + if keys[0] == (k, w) then 1 else 0
  {
    forall k: Pubkey, w: bool
      ensures Count(held + [Grant(batch, keys)], k, w)
              == Count(held + [Grant(batch, keys[1..])], k, w) + if keys[0] == (k, w) then 1 else 0
    {
      CountMore(held, Grant(batch, keys), k, w);
      CountMore(held, Grant(batch, keys[1..]), k, w);
      TimesTail(keys, k, w);
    }
  }

  lemma MoveToEnd(held: seq<Grant>, i: nat)
    requires i < |held|
    ensures forall k: Pubkey, w: bool :: Count(Without(held, i) + [held[i]], k, w) == Count(held, k, w)
  {
    forall k: Pubkey, w: bool
      ensures Count(Without(held, i) + [held[i]], k, w) == Count(held, k, w)
    {
      CountLess(held, i, k, w);
      CountMore(Without(held, i), held[i], k, w);
    }
  }

  lemma WithoutKeepsPeace(held: seq<Grant>, i: nat)
    requires i < |held| && NoConflicts(held)
    ensures NoConflicts(Without(held, i))
  {
    var rest := Without(held, i);
    forall a, b | 0 <= a < b < |rest| && rest[a].batch != rest[b].batch
      ensures !Conflict(rest[a].keys, rest[b].keys)
    {
      assert rest[a] == held[if a < i then a else a + 1] && rest[b] == held[if b < i then b else b + 1];
    }
  }

  // ---- Validation ----

  const USE_ACCOUNT_LOCK_SET_SIZE: nat := 32

  ghost predicate Repeats(keys: seq<Pubkey>) {
    exists i, j :: 0 <= i < j < |keys| && keys[i] == keys[j]
  }

  /** Checks the keys of transactions, with a set that is reused from one to the next. */
  class KeyChecker {
    var seen: set<Pubkey>

    constructor ()
      ensures seen == {}
    {
      seen := {};
    }

    /**
     * Many keys are checked with the set, few by comparing all pairs. The answer is the same, and the
     * set ends empty.
     */
    method HasDuplicates(keys: seq<Pubkey>) returns (found: bool)
      requires seen == {}
      modifies this
      ensures found <==> Repeats(keys)
      ensures seen == {}
    {
      if |keys| >= USE_ACCOUNT_LOCK_SET_SIZE {
        found := false;
        var i := 0;
        while i < |keys| && !found
          invariant i <= |keys|
          invariant !found ==> !Repeats(keys[..i]) && forall k :: k in seen <==> k in keys[..i]
          invariant found ==> Repeats(keys)
        {
          found := keys[i] in seen;
          if found {
            var j :| 0 <= j < i && keys[..i][j] == keys[i];
            assert keys[j] == keys[i];
          }
          seen := seen + {keys[i]};
          assert keys[..i + 1] == keys[..i] + [keys[i]];
          i := i + 1;
        }
        assert !found ==> keys[..i] == keys;
        seen := {};
      } else {
        for i := 0 to |keys|
          invariant forall a, b :: 0 <= a < i && a < b < |keys| ==> keys[a] != keys[b]
        {
          for j := i + 1 to |keys|
            invariant forall b :: i < b < j ==> keys[i] != keys[b]
          {
            if keys[i] == keys[j] {
              return true;
            }
          }
        }
        return false;
      }
    }

    method ValidateAccountLocks(keys: seq<Pubkey>, limit: nat) returns (result: Result<()>)
      requires seen == {}
      modifies this
      ensures seen == {}
      ensures result == if |keys| > limit then Err(TooManyAccountLocks)
                        else if Repeats(keys) then Err(AccountLoadedTwice) else Ok(())
    {
      if |keys| > limit {
        return Err(TooManyAccountLocks);
      }
      var found := HasDuplicates(keys);
      return if found then Err(AccountLoadedTwice) else Ok(());
    }
  }
}
