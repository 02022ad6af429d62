/** Totals over a commutative group, and the groups the startup computation uses. */
module Groups {
  datatype Group<!G> = Group(zero: G, add: (G, G) -> G, sub: (G, G) -> G)

  ghost predicate Commutes<G>(g: Group<G>, x: G, y: G) {
    g.add(x, y) == g.add(y, x)
  }

  ghost predicate Associates<G>(g: Group<G>, x: G, y: G, z: G) {
    g.add(g.add(x, y), z) == g.add(x, g.add(y, z))
  }

  ghost predicate Cancels<G>(g: Group<G>, x: G, y: G) {
    g.add(x, g.zero) == x && g.sub(g.add(x, y), y) == x
  }

  ghost predicate Abelian<G(!new)>(g: Group<G>) {
    && (forall x, y :: Commutes(g, x, y))
    && (forall x, y, z :: Associates(g, x, y, z))
    && (forall x, y :: Cancels(g, x, y))
  }

  /** The values of the items, added up in some order. */
  ghost function Total<G, V(!new)>(g: Group<G>, items: set<V>, value: V -> G): G {
    if items == {} then g.zero
    else
      var v :| v in items;
      g.add(Total(g, items - {v}, value), value(v))
  }

  lemma Swap<G(!new)>(g: Group<G>, a: G, b: G, c: G)
    requires Abelian(g)
    ensures g.add(g.add(a, b), c) == g.add(g.add(a, c), b)
  {
    assert Associates(g, a, b, c) && Associates(g, a, c, b) && Commutes(g, b, c);
  }

  /** The order does not matter: any item can be the last. */
  lemma {:induction false} TotalAdd<G(!new), V(!new)>(g: Group<G>, items: set<V>, v: V, value: V -> G)
    requires Abelian(g) && v !in items
    ensures Total(g, items + {v}, value) == g.add(Total(g, items, value), value(v))
    decreases items
  {
    var all := items + {v};
    var u :| u in all && Total(g, all, value) == g.add(Total(g, all - {u}, value), value(u));
    if u == v {
      assert all - {v} == items;
    } else {
      var rest := items - {u};
      assert all - {u} == rest + {v} && items == rest + {u};
      TotalAdd(g, rest, v, value);
      TotalAdd(g, rest, u, value);
      Swap(g, Total(g, rest, value), value(v), value(u));
    }
  }

  lemma {:induction false} TotalUnion<G(!new), V(!new)>(g: Group<G>, a: set<V>, b: set<V>, value: V -> G)
    requires Abelian(g) && a !! b
    ensures Total(g, a + b, value) == g.add(Total(g, a, value), Total(g, b, value))
    decreases b
  {
    if b == {} {
      assert a + b == a && Cancels(g, Total(g, a, value), g.zero);
    } else {
      var v :| v in b;
      var rest := b - {v};
      assert a + b == (a + rest) + {v} && b == rest + {v};
      TotalUnion(g, a, rest, value);
      TotalAdd(g, a + rest, v, value);
      TotalAdd(g, rest, v, value);
      assert Associates(g, Total(g, a, value), Total(g, rest, value), value(v));
    }
  }

  /** Taking out part of what was added leaves the total of the rest. */
  lemma TotalDifference<G(!new), V(!new)>(g: Group<G>, all: set<V>, out: set<V>, value: V -> G)
    requires Abelian(g) && out <= all
    ensures g.sub(Total(g, all, value), Total(g, out, value)) == Total(g, all - out, value)
  {
    assert (all - out) + out == all;
    TotalUnion(g, all - out, out, value);
    assert Cancels(g, Total(g, all - out, value), Total(g, out, value));
  }

  /** Only the values of the items matter. */
  lemma {:induction false} TotalSame<G(!new), V(!new)>(g: Group<G>, items: set<V>, f: V -> G, h: V -> G)
    requires Abelian(g) && forall v :: v in items ==> f(v) == h(v)
    ensures Total(g, items, f) == Total(g, items, h)
    decreases items
  {
    if items != {} {
      var v :| v in items;
      assert items == (items - {v}) + {v};
      TotalSame(g, items - {v}, f, h);
      TotalAdd(g, items - {v}, v, f);
      TotalAdd(g, items - {v}, v, h);
    }
  }

  // ---- Data lengths ----

  const INTEGERS: Group<int> := Group(0, (x: int, y: int) => x + y, (x: int, y: int) => x - y)

  lemma IntegersAreAbelian()
    ensures Abelian(INTEGERS)
  {
  }

  lemma {:induction false} TotalIsNat<V(!new)>(items: set<V>, value: V -> int)
    requires forall v :: v in items ==> value(v) >= 0
    ensures Total(INTEGERS, items, value) >= 0
    decreases items
  {
    if items != {} {
      IntegersAreAbelian();
      var v :| v in items;
      assert items == (items - {v}) + {v};
      TotalIsNat(items - {v}, value);
      TotalAdd(INTEGERS, items - {v}, v, value);
    }
  }

  // ---- The lattice hash ----

  const NUM_ELEMENTS: nat := 1024
  const WORDS: nat := 0x1_0000

  type Word = x: int | 0 <= x < WORDS
  type LtHash = s: seq<Word> | |s| == NUM_ELEMENTS witness seq(NUM_ELEMENTS, _ => 0)

  function WrappingAdd(x: Word, y: Word): Word {
    if x + y < WORDS then x + y else x + y - WORDS
  }

  function WrappingSub(x: Word, y: Word): Word {
    if x < y then x - y + WORDS else x - y
  }

  function Sums(x: LtHash, y: LtHash): (r: LtHash)
    ensures forall i :: 0 <= i < NUM_ELEMENTS ==> r[i] == WrappingAdd(x[i], y[i])
  {
    seq(NUM_ELEMENTS, i requires 0 <= i < NUM_ELEMENTS => WrappingAdd(x[i], y[i]))
  }

  function Differences(x: LtHash, y: LtHash): (r: LtHash)
    ensures forall i :: 0 <= i < NUM_ELEMENTS ==> r[i] == WrappingSub(x[i], y[i])
  {
    seq(NUM_ELEMENTS, i requires 0 <= i < NUM_ELEMENTS => WrappingSub(x[i], y[i]))
  }

  const LT_HASHES: Group<LtHash> := Group(seq(NUM_ELEMENTS, _ => 0), (x, y) => Sums(x, y), (x, y) => Differences(x, y))

  lemma SumsLaws(x: LtHash, y: LtHash, z: LtHash)
    ensures Sums(Sums(x, y), z) == Sums(x, Sums(y, z))
    ensures Sums(x, y) == Sums(y, x)
    ensures Differences(Sums(x, y), y) == x
  {
  }

  /** Elementwise wrapping addition of sixteen-bit words makes a commutative group. */
  lemma LtHashesAreAbelian()
    ensures Abelian(LT_HASHES)
  {
    forall x: LtHash, y: LtHash, z: LtHash
      ensures Associates(LT_HASHES, x, y, z)
    {
      SumsLaws(x, y, z);
    }
    forall x: LtHash, y: LtHash
      ensures Commutes(LT_HASHES, x, y) && Cancels(LT_HASHES, x, y)
    {
      SumsLaws(x, y, x);
      assert Sums(x, LT_HASHES.zero) == x;
    }
  }

  /** Mixes a hash in, element by element. */
  method MixIn(a: array<Word>, other: LtHash)
    requires a.Length == NUM_ELEMENTS
    modifies a
    ensures a[..] == Sums(old(a[..]), other)
    ensures forall i :: 0 <= i < a.Length ==> a[i] == (old(a[i]) as int + other[i] as int) % 0x1_0000
  {
    for i := 0 to a.Length
      invariant forall j :: 0 <= j < i ==> a[j] == WrappingAdd(old(a[j]), other[j])
      invariant forall j :: i <= j < a.Length ==> a[j] == old(a[j])
    {
      a[i] := WrappingAdd(a[i], other[i]);
    }
  }

  /** Mixes a hash out, element by element. */
  method MixOut(a: array<Word>, other: LtHash)
    requires a.Length == NUM_ELEMENTS
    modifies a
    ensures a[..] == Differences(old(a[..]), other)
    ensures forall i :: 0 <= i < a.Length ==> a[i] == (old(a[i]) as int - other[i] as int) % 0x1_0000
  {
    for i := 0 to a.Length
      invariant forall j :: 0 <= j < i ==> a[j] == WrappingSub(old(a[j]), other[j])
      invariant forall j :: i <= j < a.Length ==> a[j] == old(a[j])
    {
      a[i] := WrappingSub(a[i], other[i]);
    }
  }
}
