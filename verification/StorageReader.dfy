/** Reading a storage file without the accounts marked obsolete in it. */
module StorageReader {
  import opened Types

  type Byte = bv8

  /** An account marked obsolete: where it is, how long its data is, and as of which slot. */
  datatype ObsoleteAccount = ObsoleteAccount(offset: Offset, dataLen: nat, slot: Slot)

  /** A byte range of the file. */
  datatype Range = Range(start: nat, size: nat)

  predicate In(r: Range, p: nat) {
    r.start <= p < r.start + r.size
  }

  predicate Disjoint(a: Range, b: Range) {
    a.start + a.size <= b.start || b.start + b.size <= a.start
  }

  // ---- What is left of a file ----

  predicate Covered(ranges: seq<Range>, p: nat) {
    exists i :: 0 <= i < |ranges| && In(ranges[i], p)
  }

  /** The bytes from a position on that no range covers. */
  function Uncovered(data: seq<Byte>, ranges: seq<Range>, from: nat): (r: seq<Byte>)
    requires from <= |data|
    decreases |data| - from
  {
    if from == |data| then []
    else (if Covered(ranges, from) then [] else [data[from]]) + Uncovered(data, ranges, from + 1)
  }

  /** Bytes of a range that are inside the file. */
  function Clipped(r: Range, total: nat): nat
    requires r.start <= total
  {
    if r.size < total - r.start then r.size else total - r.start
  }

  /** The ranges lie ahead of the position, the nearest one last. */
  ghost predicate Ahead(ranges: seq<Range>, from: nat, total: nat) {
    && (forall i :: 0 <= i < |ranges| ==> from <= ranges[i].start <= total && ranges[i].size > 0)
    && (forall i, j :: 0 <= i < j < |ranges| ==> ranges[j].start + ranges[j].size <= ranges[i].start)
  }

  lemma {:induction false} UncoveredRun(data: seq<Byte>, ranges: seq<Range>, from: nat, n: nat)
    requires from + n <= |data| && forall p :: from <= p < from + n ==> !Covered(ranges, p)
    ensures Uncovered(data, ranges, from) == data[from..from + n] + Uncovered(data, ranges, from + n)
    decreases n
  {
    if n > 0 {
      UncoveredRun(data, ranges, from + 1, n - 1);
      assert !Covered(ranges, from);
      assert data[from..from + n] == [data[from]] + data[from + 1..from + n];
      assert [data[from]] + (data[from + 1..from + n] + Uncovered(data, ranges, from + n))
          == data[from..from + n] + Uncovered(data, ranges, from + n);
    }
  }

  lemma {:induction false} CoveredRun(data: seq<Byte>, ranges: seq<Range>, from: nat, n: nat)
    requires from + n <= |data| && forall p :: from <= p < from + n ==> Covered(ranges, p)
    ensures Uncovered(data, ranges, from) == Uncovered(data, ranges, from + n)
    decreases n
  {
    if n > 0 {
      CoveredRun(data, ranges, from + 1, n - 1);
    }
  }

  lemma {:induction false} SameCover(data: seq<Byte>, a: seq<Range>, b: seq<Range>, from: nat)
    requires from <= |data| && forall p :: from <= p < |data| ==> (Covered(a, p) <==> Covered(b, p))
    ensures Uncovered(data, a, from) == Uncovered(data, b, from)
    decreases |data| - from
  {
    if from < |data| {
      SameCover(data, a, b, from + 1);
    }
  }

  /** Up to the nearest range, or the end, nothing is covered. */
  lemma NothingCovered(ranges: seq<Range>, from: nat, total: nat, p: nat)
    requires Ahead(ranges, from, total) && from <= p
    requires ranges != [] ==> p < ranges[|ranges| - 1].start
    ensures !Covered(ranges, p)
  {
    forall i | 0 <= i < |ranges|
      ensures !In(ranges[i], p)
    {
      assert i < |ranges| - 1 ==> ranges[|ranges| - 1].start + ranges[|ranges| - 1].size <= ranges[i].start;
    }
  }

  /** Reading up to the nearest range, or the end, delivers the bytes of the file. */
  lemma ReadStep(data: seq<Byte>, ranges: seq<Range>, from: nat, n: nat)
    requires Ahead(ranges, from, |data|) && from + n <= |data|
    requires ranges != [] ==> from + n <= ranges[|ranges| - 1].start
    ensures Uncovered(data, ranges, from) == data[from..from + n] + Uncovered(data, ranges, from + n)
    ensures Ahead(ranges, from + n, |data|)
  {
    forall p | from <= p < from + n
      ensures !Covered(ranges, p)
    {
      NothingCovered(ranges, from, |data|, p);
    }
    UncoveredRun(data, ranges, from, n);
    if ranges != [] {
      forall i | 0 <= i < |ranges|
        ensures from + n <= ranges[i].start
      {
        assert i < |ranges| - 1 ==> ranges[|ranges| - 1].start + ranges[|ranges| - 1].size <= ranges[i].start;
      }
    }
  }

  /** Bytes up to the nearest range, or the end of the file. */
  function Available(ranges: seq<Range>, from: nat, total: nat): nat
    requires from <= total && (ranges != [] ==> from <= ranges[|ranges| - 1].start)
  {
    if ranges != [] then ranges[|ranges| - 1].start - from else total - from
  }

  lemma EndWhenNoneAvailable(data: seq<Byte>, ranges: seq<Range>, from: nat)
    requires from <= |data| && Ahead(ranges, from, |data|) && (ranges != [] ==> from != ranges[|ranges| - 1].start)
    ensures from + Available(ranges, from, |data|) <= |data|
    ensures Available(ranges, from, |data|) == 0 ==> Uncovered(data, ranges, from) == []
  {
  }

  lemma ReadStepSplits(data: seq<Byte>, ranges: seq<Range>, from: nat, n: nat)
    requires Ahead(ranges, from, |data|) && from + n <= |data|
    requires ranges != [] ==> from + n <= ranges[|ranges| - 1].start
    ensures n <= |Uncovered(data, ranges, from)| && Uncovered(data, ranges, from)[..n] == data[from..from + n]
    ensures Uncovered(data, ranges, from)[n..] == Uncovered(data, ranges, from + n)
    ensures Ahead(ranges, from + n, |data|)
  {
    ReadStep(data, ranges, from, n);
  }

  lemma CoverWithoutLast(ranges: seq<Range>, p: nat)
    requires ranges != [] && !In(ranges[|ranges| - 1], p)
    ensures Covered(ranges, p) <==> Covered(ranges[..|ranges| - 1], p)
  {
    var rest := ranges[..|ranges| - 1];
    if Covered(ranges, p) {
      var i :| 0 <= i < |ranges| && In(ranges[i], p);
      assert rest[i] == ranges[i];
    }
    if Covered(rest, p) {
      var i :| 0 <= i < |rest| && In(rest[i], p);
      assert ranges[i] == rest[i];
    }
  }

  lemma DropDrop(s: seq<Byte>, a: nat, b: nat)
    requires a + b <= |s|
    ensures s[a..][b..] == s[a + b..]
  {
  }

  /** Skipping the range at the position delivers nothing. */
  lemma SkipStep(data: seq<Byte>, ranges: seq<Range>, from: nat)
    requires Ahead(ranges, from, |data|) && ranges != [] && ranges[|ranges| - 1].start == from
    ensures var last := |ranges| - 1;
            var next := from + Clipped(ranges[last], |data|);
            Uncovered(data, ranges, from) == Uncovered(data, ranges[..last], next)
            && Ahead(ranges[..last], next, |data|)
  {
    var last := |ranges| - 1;
    var rest, next := ranges[..last], from + Clipped(ranges[last], |data|);
    assert forall p :: from <= p < next ==> In(ranges[last], p);
    CoveredRun(data, ranges, from, next - from);
    forall p | next <= p < |data|
      ensures Covered(ranges, p) <==> Covered(rest, p)
    {
      CoverWithoutLast(ranges, p);
    }
    SameCover(data, ranges, rest, next);
    forall i | 0 <= i < |rest|
      ensures next <= rest[i].start
    {
      assert ranges[last].start + ranges[last].size <= ranges[i].start;
    }
  }

  // ---- Choosing and sorting the ranges ----

  function ToRange(account: ObsoleteAccount): Range {
    Range(account.offset, StoredSize(account.dataLen))
  }

  ghost predicate ObsoleteBy(account: ObsoleteAccount, slot: Option<Slot>) {
    slot.None? || account.slot <= slot.value
  }

  /** The ranges of the accounts that were obsolete by the slot. */
  ghost function Filtered(accounts: seq<ObsoleteAccount>, slot: Option<Slot>): seq<Range> {
    if accounts == [] then []
    else
      var last := |accounts| - 1;
      Filtered(accounts[..last], slot) + if ObsoleteBy(accounts[last], slot) then [ToRange(accounts[last])] else []
  }

  /** An account is cut out exactly when it was obsolete in the slot or before, or when no slot is given. */
  lemma {:induction false} FilteredHas(accounts: seq<ObsoleteAccount>, slot: Option<Slot>)
    ensures forall r :: r in Filtered(accounts, slot) <==>
              exists i :: 0 <= i < |accounts| && (slot.Some? ==> accounts[i].slot <= slot.value)
                          && r == Range(accounts[i].offset, StoredSize(accounts[i].dataLen))
  {
    if accounts != [] {
      var last := |accounts| - 1;
      FilteredHas(accounts[..last], slot);
      forall r
        ensures r in Filtered(accounts, slot) <==>
                exists i :: 0 <= i < |accounts| && (slot.Some? ==> accounts[i].slot <= slot.value)
                            && r == Range(accounts[i].offset, StoredSize(accounts[i].dataLen))
      {
        if r in Filtered(accounts[..last], slot) {
          var i :| 0 <= i < last && (slot.Some? ==> accounts[..last][i].slot <= slot.value)
                   && r == Range(accounts[..last][i].offset, StoredSize(accounts[..last][i].dataLen));
          assert accounts[i] == accounts[..last][i];
        }
        if i :| 0 <= i < last && (slot.Some? ==> accounts[i].slot <= slot.value)
                && r == Range(accounts[i].offset, StoredSize(accounts[i].dataLen)) {
          assert accounts[i] == accounts[..last][i];
        }
      }
    }
  }

  function SumClipped(ranges: seq<Range>, total: nat): nat
    requires forall i :: 0 <= i < |ranges| ==> ranges[i].start <= total
  {
    if ranges == [] then 0 else SumClipped(ranges[..|ranges| - 1], total) + Clipped(ranges[|ranges| - 1], total)
  }

  /** Puts a range in its place, the nearest one last. */
  function Insert(ranges: seq<Range>, r: Range): seq<Range> {
    if ranges == [] || r.start < ranges[|ranges| - 1].start then ranges + [r]
    else Insert(ranges[..|ranges| - 1], r) + [ranges[|ranges| - 1]]
  }

  function Sorted(ranges: seq<Range>): seq<Range> {
    if ranges == [] then [] else Insert(Sorted(ranges[..|ranges| - 1]), ranges[|ranges| - 1])
  }

  ghost predicate InFile(ranges: seq<Range>, total: nat) {
    forall i :: 0 <= i < |ranges| ==> ranges[i].start <= total && ranges[i].size > 0
  }

  ghost predicate AllDisjoint(ranges: seq<Range>) {
    forall i, j :: 0 <= i < j < |ranges| ==> Disjoint(ranges[i], ranges[j])
  }

  lemma {:induction false} InsertHas(ranges: seq<Range>, r: Range)
    ensures forall x :: x in Insert(ranges, r) <==> x in ranges || x == r
  {
    if ranges != [] && r.start >= ranges[|ranges| - 1].start {
      InsertHas(ranges[..|ranges| - 1], r);
      assert ranges == ranges[..|ranges| - 1] + [ranges[|ranges| - 1]];
    }
  }

  lemma AppendKeepsOrder(ranges: seq<Range>, r: Range, total: nat)
    requires Ahead(ranges, 0, total) && r.start <= total && r.size > 0
    requires forall i :: 0 <= i < |ranges| ==> r.start + r.size <= ranges[i].start
    ensures Ahead(ranges + [r], 0, total)
  {
  }

  /** A range ahead of the nearest one and disjoint from all is nearer than all. */
  lemma NearestOfAll(ranges: seq<Range>, r: Range, total: nat, i: nat)
    requires Ahead(ranges, 0, total) && ranges != [] && r.start < ranges[|ranges| - 1].start && i < |ranges|
    requires Disjoint(ranges[i], r) && r.size > 0
    ensures r.start + r.size <= ranges[i].start
  {
    assert i < |ranges| - 1 ==> ranges[|ranges| - 1].start + ranges[|ranges| - 1].size <= ranges[i].start;
  }

  lemma {:induction false} InsertKeepsOrder(ranges: seq<Range>, r: Range, total: nat)
    requires Ahead(ranges, 0, total) && r.start <= total && r.size > 0
    requires forall i :: 0 <= i < |ranges| ==> Disjoint(ranges[i], r)
    ensures Ahead(Insert(ranges, r), 0, total)
  {
    if ranges == [] || r.start < ranges[|ranges| - 1].start {
      forall i | 0 <= i < |ranges|
        ensures r.start + r.size <= ranges[i].start
      {
        NearestOfAll(ranges, r, total, i);
      }
      AppendKeepsOrder(ranges, r, total);
    } else {
      var init, last := ranges[..|ranges| - 1], ranges[|ranges| - 1];
      assert Disjoint(last, r) && Ahead(init, 0, total);
      InsertKeepsOrder(init, r, total);
      InsertHas(init, r);
      var inserted := Insert(init, r);
      forall i | 0 <= i < |inserted|
        ensures last.start + last.size <= inserted[i].start
      {
        assert inserted[i] in inserted;
      }
      AppendKeepsOrder(inserted, last, total);
    }
  }

  lemma {:induction false} SortedHas(ranges: seq<Range>)
    ensures forall x :: x in Sorted(ranges) <==> x in ranges
  {
    if ranges != [] {
      var init, last := ranges[..|ranges| - 1], ranges[|ranges| - 1];
      SortedHas(init);
      InsertHas(Sorted(init), last);
      assert ranges == init + [last];
    }
  }

  /** Sorting puts the nearest range last. */
  lemma {:induction false} SortedIsAhead(ranges: seq<Range>, total: nat)
    requires InFile(ranges, total) && AllDisjoint(ranges)
    ensures Ahead(Sorted(ranges), 0, total)
  {
    if ranges != [] {
      var init, last := ranges[..|ranges| - 1], ranges[|ranges| - 1];
      SortedIsAhead(init, total);
      SortedHas(init);
      forall i | 0 <= i < |Sorted(init)|
        ensures Disjoint(Sorted(init)[i], last)
      {
        assert Sorted(init)[i] in init;
      }
      InsertKeepsOrder(Sorted(init), last, total);
    }
  }

  lemma SameRangesSameCover(a: seq<Range>, b: seq<Range>, p: nat)
    requires forall x :: x in a <==> x in b
    ensures Covered(a, p) <==> Covered(b, p)
  {
    if Covered(a, p) {
      var i :| 0 <= i < |a| && In(a[i], p);
      assert a[i] in b;
    }
    if Covered(b, p) {
      var i :| 0 <= i < |b| && In(b[i], p);
      assert b[i] in a;
    }
  }

  /** How many bytes of the range are in the file from a position on. */
  function Overlap(r: Range, from: nat, total: nat): nat {
    var end := if r.start + r.size < total then r.start + r.size else total;
    var start := if r.start < from then from else r.start;
    if start < end then end - start else 0
  }

  /** A range disjoint from the others cuts out all its bytes. */
  lemma {:induction false} CutOne(data: seq<Byte>, ranges: seq<Range>, r: Range, from: nat)
    requires from <= |data| && forall i :: 0 <= i < |ranges| ==> Disjoint(ranges[i], r)
    ensures |Uncovered(data, ranges + [r], from)| + Overlap(r, from, |data|) == |Uncovered(data, ranges, from)|
    decreases |data| - from
  {
    if from < |data| {
      CutOne(data, ranges, r, from + 1);
      assert (ranges + [r])[..|ranges|] == ranges;
      if In(r, from) {
        assert In((ranges + [r])[|ranges|], from);
        assert !Covered(ranges, from);
      } else {
        CoverWithoutLast(ranges + [r], from);
      }
    }
  }

  lemma {:induction false} NoRangesNoCut(data: seq<Byte>, from: nat)
    requires from <= |data|
    ensures Uncovered(data, [], from) == data[from..]
    decreases |data| - from
  {
    if from < |data| {
      NoRangesNoCut(data, from + 1);
    }
  }

  /** What is left of a file and what is cut out make up the file. */
  lemma {:induction false} CutLength(data: seq<Byte>, ranges: seq<Range>)
    requires InFile(ranges, |data|) && AllDisjoint(ranges)
    ensures |Uncovered(data, ranges, 0)| + SumClipped(ranges, |data|) == |data|
  {
    if ranges == [] {
      NoRangesNoCut(data, 0);
    } else {
      var init, last := ranges[..|ranges| - 1], ranges[|ranges| - 1];
      CutLength(data, init);
      CutOne(data, init, last, 0);
      assert init + [last] == ranges;
    }
  }

  // ---- The reader ----

  class AccountStorageReader {
    const data: seq<Byte>
    /** Obsolete ranges still ahead, the nearest one last. */
    var obsolete: seq<Range>
    var offset: nat
    /** How many bytes the reader delivers in all. */
    const aliveBytes: nat

    /** The obsolete ranges by the given slot, disjoint and starting in the file, are cut out. */
    constructor (data: seq<Byte>, accounts: seq<ObsoleteAccount>, slot: Option<Slot>)
      requires InFile(Filtered(accounts, slot), |data|) && AllDisjoint(Filtered(accounts, slot))
      ensures Valid() && this.data == data
      ensures Remaining() == Uncovered(data, Filtered(accounts, slot), 0)
      ensures aliveBytes == |Remaining()|
    {
      var ranges := FilterObsolete(accounts, slot);
      var bytes := ObsoleteBytes(ranges, |data|);
      SortedIsAhead(ranges, |data|);
      SortedHas(ranges);
      CutLength(data, ranges);
      forall p | 0 <= p < |data|
        ensures Covered(Sorted(ranges), p) <==> Covered(ranges, p)
      {
        SameRangesSameCover(Sorted(ranges), ranges, p);
      }
      SameCover(data, Sorted(ranges), ranges, 0);
      this.data := data;
      this.obsolete := Sorted(ranges);
      this.offset := 0;
      this.aliveBytes := |data| - bytes;
    }

    ghost predicate Valid()
      reads this
    {
      offset <= |data| && Ahead(obsolete, offset, |data|)
    }

    /** The bytes still to be delivered. */
    ghost function Remaining(): seq<Byte>
      requires Valid()
      reads this
    {
      Uncovered(data, obsolete, offset)
    }

    /** Skips the obsolete range at the current position. */
    method Skip()
      requires Valid() && obsolete != [] && offset == obsolete[|obsolete| - 1].start
      modifies this
      ensures Valid() && Remaining() == old(Remaining())
      ensures offset >= old(offset) && |obsolete| < old(|obsolete|)
    {
      SkipStep(data, obsolete, offset);
      offset := offset + Clipped(obsolete[|obsolete| - 1], |data|);
      obsolete := obsolete[..|obsolete| - 1];
    }

    /** Reads some bytes up to the next obsolete range or the end of the file. */
    method ReadSome(buf: array<Byte>, at: nat) returns (read: nat)
      requires Valid() && at < buf.Length && (obsolete != [] ==> offset != obsolete[|obsolete| - 1].start)
      modifies this, buf
      ensures Valid() && obsolete == old(obsolete) && offset == old(offset) + read
      ensures at + read <= buf.Length && read <= |old(Remaining())|
      ensures forall j :: 0 <= j < read ==> buf[at + j] == old(Remaining())[j]
      ensures forall j :: 0 <= j < buf.Length && !(at <= j < at + read) ==> buf[j] == old(buf[j])
      ensures Remaining() == old(Remaining())[read..]
      ensures read == 0 ==> Remaining() == []
    {
      var left := buf.Length - at;
      var available := Available(obsolete, offset, |data|);
      read := ShortRead(if left < available then left else available);
      EndWhenNoneAvailable(data, obsolete, offset);
      ReadStepSplits(data, obsolete, offset, read);
      CopyInto(buf, at, data[offset..offset + read]);
      offset := offset + read;
    }

    /** Fills the buffer with the next bytes that are not obsolete, however short the single reads are. */
    method Read(buf: array<Byte>) returns (total: nat)
      requires Valid()
      modifies this, buf
      ensures Valid()
      ensures total == if buf.Length < |old(Remaining())| then buf.Length else |old(Remaining())|
      ensures buf[..total] == old(Remaining())[..total] && Remaining() == old(Remaining())[total..]
      ensures buf[total..] == old(buf[total..])
    {
      ghost var all := Remaining();
      total := 0;
      while total < buf.Length
        invariant total <= buf.Length && total <= |all| && Valid() && Remaining() == all[total..]
        invariant forall j :: 0 <= j < total ==> buf[j] == all[j]
        invariant forall j :: total <= j < buf.Length ==> buf[j] == old(buf[j])
        decreases |data| - offset, |obsolete|
      {
        if obsolete != [] && offset == obsolete[|obsolete| - 1].start {
          Skip();
        } else {
          var read := ReadSome(buf, total);
          if read == 0 {
            break;
          }
          ReadIsNext(all, total, read, buf[..]);
          total := total + read;
        }
      }
    }
  }

  /** What was read continues what had been read. */
  lemma ReadIsNext(all: seq<Byte>, total: nat, read: nat, buf: seq<Byte>)
    requires total + read <= |all| && total + read <= |buf|
    requires forall j :: 0 <= j < read ==> buf[total + j] == all[total..][j]
    ensures all[total..][read..] == all[total + read..]
    ensures forall j :: total <= j < total + read ==> buf[j] == all[j]
  {
    DropDrop(all, total, read);
    forall j | total <= j < total + read
      ensures buf[j] == all[j]
    {
      assert buf[total + (j - total)] == all[total..][j - total];
    }
  }

  /** A file read may return fewer bytes than wanted, but none only at the end. */
  method ShortRead(wanted: nat) returns (read: nat)
    ensures if wanted == 0 then read == 0 else 1 <= read <= wanted
  {
    var n: int := *;
    read := if 1 <= n <= wanted then n else wanted;
  }

  /** Copies bytes into the buffer. */
  method CopyInto(buf: array<Byte>, at: nat, bytes: seq<Byte>)
    requires at + |bytes| <= buf.Length
    modifies buf
    ensures forall j :: 0 <= j < |bytes| ==> buf[at + j] == bytes[j]
    ensures forall j :: 0 <= j < buf.Length && !(at <= j < at + |bytes|) ==> buf[j] == old(buf[j])
  {
    for i := 0 to |bytes|
      invariant forall j :: 0 <= j < i ==> buf[at + j] == bytes[j]
      invariant forall j :: 0 <= j < buf.Length && !(at <= j < at + i) ==> buf[j] == old(buf[j])
    {
      buf[at + i] := bytes[i];
    }
  }

  method FilterObsolete(accounts: seq<ObsoleteAccount>, slot: Option<Slot>) returns (ranges: seq<Range>)
    ensures ranges == Filtered(accounts, slot)
    ensures forall r :: r in ranges <==>
              exists i :: 0 <= i < |accounts| && (slot.Some? ==> accounts[i].slot <= slot.value)
                          && r == Range(accounts[i].offset, StoredSize(accounts[i].dataLen))
  {
    FilteredHas(accounts, slot);
    ranges := [];
    for i := 0 to |accounts|
      invariant ranges == Filtered(accounts[..i], slot)
    {
      assert accounts[..i + 1][..i] == accounts[..i];
      if slot.None? || accounts[i].slot <= slot.value {
        ranges := ranges + [ToRange(accounts[i])];
      }
    }
    assert accounts[..|accounts|] == accounts;
  }

  method ObsoleteBytes(ranges: seq<Range>, total: nat) returns (bytes: nat)
    requires InFile(ranges, total)
    ensures bytes == SumClipped(ranges, total)
  {
    bytes := 0;
    for i := 0 to |ranges|
      invariant bytes == SumClipped(ranges[..i], total)
    {
      assert ranges[..i + 1][..i] == ranges[..i];
      bytes := bytes + Clipped(ranges[i], total);
    }
    assert ranges[..|ranges|] == ranges;
  }

  /**
   * Reads with any sequence of buffer sizes. What is delivered and what is left make up the file
   * without its obsolete ranges, and a non-empty buffer stays empty only once nothing is left.
   */
  method ReadAll(reader: AccountStorageReader, sizes: seq<nat>) returns (out: seq<Byte>, ended: bool)
    requires reader.Valid()
    modifies reader
    ensures reader.Valid() && out + reader.Remaining() == old(reader.Remaining())
    ensures ended ==> reader.Remaining() == []
  {
    out, ended := [], false;
    for i := 0 to |sizes|
      invariant reader.Valid() && out + reader.Remaining() == old(reader.Remaining())
      invariant ended ==> reader.Remaining() == []
    {
      var buf := new Byte[sizes[i]];
      ghost var before := reader.Remaining();
      var n := reader.Read(buf);
      assert out + (before[..n] + before[n..]) == (out + buf[..n]) + reader.Remaining();
      assert before[..n] + before[n..] == before;
      out := out + buf[..n];
      ended := ended || (n == 0 && sizes[i] > 0);
    }
  }
}
