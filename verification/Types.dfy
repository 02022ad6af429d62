/** The values every part of the accounts database talks about. */
module Types {

  type Slot = nat
  type Pubkey = nat
  type StoreId = nat
  type Offset = nat

  datatype Option<+T> = None | Some(value: T)

  /** An account. Only the balance and the data matter to the database itself. */
  datatype Account = Account(lamports: nat, data: seq<bv8>)

  /** Where an index entry finds its account: the write cache, or a record of a storage file. */
  datatype Location = Cached | AppendVec(id: StoreId, offset: Offset)

  /** One item of a slot list, without its slot. */
  datatype AccountInfo = AccountInfo(location: Location, zeroLamport: bool)

  /** Bytes kept in front of every stored account's data. */
  const STORE_META_OVERHEAD: nat := 136

  /** Bytes one account occupies in a storage file: the header and the data, rounded up to eight. */
  function StoredSize(dataLen: nat): (r: nat)
    ensures r % 8 == 0
    ensures STORE_META_OVERHEAD + dataLen <= r < STORE_META_OVERHEAD + dataLen + 8
  {
    (STORE_META_OVERHEAD + dataLen + 7) / 8 * 8
  }

  lemma SubsetSameSize<T>(a: set<T>, b: set<T>)
    requires a <= b && |a| == |b|
    ensures a == b
  {
    assert |b - a| == |b| - |b * a| && b * a == a;
  }

  lemma SubsetSize<T>(a: set<T>, b: set<T>)
    requires a <= b
    ensures |a| <= |b|
  {
    assert |b - a| == |b| - |b * a| && b * a == a;
  }

  lemma MergeUpdate<K, V>(a: map<K, V>, b: map<K, V>, k: K, v: V)
    ensures a + b[k := v] == (a + b)[k := v]
  {
  }
}
