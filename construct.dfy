/**
 * The hash table of ann/construct.go: for one LSH table, a map from a hash
 * value to the rows of the dataset that hash there. Merge folds a worker's
 * partial map into the shared one; convertAndCap keeps one row per bucket
 * to build the keyword-PIR database. Go's map iteration order and
 * rand.Intn are inputs: `order` lists the keys in the order the range loop
 * visits them, and `intn(c, n)` is what the c-th call rand.Intn(n) returns.
 */
module Construct {
  import opened Sets

  /** The rows stored under k; a missing key reads as the empty list, as in Go. */
  function Lookup(m: map<nat, seq<nat>>, k: nat): seq<nat>
  {
    if k in m then m[k] else []
  }

  /** The table after merging `other` into `h`: each bucket extended by other's rows for it. */
  function Merged(h: map<nat, seq<nat>>, other: map<nat, seq<nat>>): map<nat, seq<nat>>
  {
    map k | k in h.Keys + other.Keys :: Lookup(h, k) + Lookup(other, k)
  }

  /** The part of `other` whose keys are in s. */
  function Restrict(other: map<nat, seq<nat>>, s: set<nat>): (r: map<nat, seq<nat>>)
    ensures r.Keys == other.Keys * s
  {
    map k | k in other.Keys && k in s :: other[k]
  }

  /**
   * What Merge promises: keys absent from `other` keep their rows; a key of
   * `other` ends with the old rows followed by other's, so no row from either
   * side is lost and the old rows keep their places.
   */
  lemma MergedBuckets(h: map<nat, seq<nat>>, other: map<nat, seq<nat>>)
    ensures Merged(h, other).Keys == h.Keys + other.Keys
    ensures forall k :: k in h && k !in other ==> Merged(h, other)[k] == h[k]
    ensures forall k :: k in other ==> Merged(h, other)[k] == Lookup(h, k) + other[k]
    ensures forall k, x :: k in other && x in other[k] ==> x in Merged(h, other)[k]
    ensures forall k :: k in h ==> Merged(h, other)[k][..|h[k]|] == h[k]
  {
    forall k | k in h && k !in other
      ensures Merged(h, other)[k] == h[k]
    {
      assert Lookup(other, k) == [];
    }
  }

  /** Merging an empty map changes nothing. */
  lemma MergeEmpty(h: map<nat, seq<nat>>)
    ensures Merged(h, map[]) == h
  {
    forall k | k in h
      ensures Merged(h, map[])[k] == h[k]
    {
      assert Lookup(map[], k) == [];
    }
  }

  /** One more key of `other` handled, in the loop of Merge. */
  lemma MergedStep(h0: map<nat, seq<nat>>, other: map<nat, seq<nat>>, done: set<nat>, k: nat)
    requires k in other && k !in done
    ensures Merged(h0, Restrict(other, done + {k}))
      == Merged(h0, Restrict(other, done))[k := Lookup(Merged(h0, Restrict(other, done)), k) + other[k]]
  {
    var before := Merged(h0, Restrict(other, done));
    var after := Merged(h0, Restrict(other, done + {k}));
    var expected := before[k := Lookup(before, k) + other[k]];
    assert Lookup(before, k) == Lookup(h0, k);
    assert after.Keys == expected.Keys;
    forall x | x in after
      ensures after[x] == expected[x]
    {
      if x != k {
        assert Lookup(Restrict(other, done + {k}), x) == Lookup(Restrict(other, done), x);
      }
    }
  }

  class HashTable {
    var table: int
    var hashes: map<nat, seq<nat>>

    /** NewHashTable: an empty table numbered `table`. */
    constructor (table: int)
      ensures this.table == table && hashes == map[]
    {
      this.table := table;
      hashes := map[];
    }

    /**
     * Merge: for every key of `other`, in the map's own order, the rows are
     * appended to a non-empty bucket or replace an empty one.
     */
    method Merge(other: map<nat, seq<nat>>)
      modifies this
      ensures table == old(table)
      ensures hashes == Merged(old(hashes), other)
    {
      ghost var h0 := hashes;
      var rest := other.Keys;
      assert Restrict(other, {}) == map[];
      MergeEmpty(h0);
      while rest != {}
        invariant table == old(table) && rest <= other.Keys
        invariant hashes == Merged(h0, Restrict(other, other.Keys - rest))
        decreases |rest|
      {
        var k :| k in rest;
        ghost var done := other.Keys - rest;
        ghost var before := hashes;
        var cur := Lookup(hashes, k);
        if |cur| > 0 {
          hashes := hashes[k := hashes[k] + other[k]];
        } else {
          assert cur + other[k] == other[k];
          hashes := hashes[k := other[k]];
        }
        assert hashes == before[k := Lookup(before, k) + other[k]];
        MergedStep(h0, other, done, k);
        assert other.Keys - (rest - {k}) == done + {k};
        rest := rest - {k};
      }
      assert Restrict(other, other.Keys - rest) == other;
    }

    /** Len: the number of distinct hash values. */
    function Len(): (n: nat)
      reads this
      ensures n == |hashes.Keys|
    {
      |hashes|
    }

    /** Get: the rows under h, empty when no row hashed there. */
    function Get(h: nat): (rows: seq<nat>)
      reads this
      ensures h in hashes ==> rows == hashes[h]
      ensures h !in hashes ==> rows == []
    {
      Lookup(hashes, h)
    }
  }

  /**
   * The row convertAndCap keeps from bucket v, given the value r in [0, |v|)
   * a draw would return; a bucket of one row is kept without drawing.
   */
  function Pick(v: seq<nat>, r: nat): (x: nat)
    requires r < |v|
    ensures x in v
    ensures |v| == 1 ==> x == v[0]
    ensures |v| > 1 ==> x == v[r]
  {
    if |v| > 1 then v[r] else v[0]
  }

  /** The number of draws convertAndCap has consumed before visiting order[i]: the buckets with more than one row among the first i. */
  function DrawsBefore(hashTable: map<nat, seq<nat>>, order: seq<nat>, i: nat): nat
    requires i <= |order|
  {
    if i == 0 then 0
    else DrawsBefore(hashTable, order, i - 1) + (if |Lookup(hashTable, order[i - 1])| > 1 then 1 else 0)
  }

  /**
   * A visiting order with one distinct entry per key of the table, each a key,
   * reaches every key: the range over a map visits all of it.
   */
  lemma OrderVisitsAll(hashTable: map<nat, seq<nat>>, order: seq<nat>, k: nat)
    requires forall i :: 0 <= i < |order| ==> order[i] in hashTable
    requires |order| == |hashTable|
    requires forall i, j :: 0 <= i < j < |order| ==> order[i] != order[j]
    requires k in hashTable
    ensures k in order
  {
    ElementsOf(order);
    if k !in order {
      SubsetSize(Elements(order), hashTable.Keys - {k});
      assert false;
    }
  }

  /** The row convertAndCap keeps for the i-th key it visits: its bucket's pick after the draws made before it. */
  function Chosen(hashTable: map<nat, seq<nat>>, order: seq<nat>, intn: (nat, nat) -> nat, i: nat): nat
    requires i < |order| && order[i] in hashTable && |hashTable[order[i]]| > 0
    requires forall c: nat, n: nat :: 0 < n ==> intn(c, n) < n
  {
    Pick(hashTable[order[i]], intn(DrawsBefore(hashTable, order, i), |hashTable[order[i]]|))
  }

  /**
   * convertAndCap: one (key, row) pair per bucket, in the order the map is
   * visited; the row is a random member of its bucket, the only member when
   * there is one. Every bucket must be non-empty (v[0] otherwise panics), and
   * `order` must list every key exactly once, as a range over a map does.
   */
  method ConvertAndCap(hashTable: map<nat, seq<nat>>, order: seq<nat>, intn: (nat, nat) -> nat)
    returns (keys: seq<nat>, values: seq<nat>)
    requires forall i :: 0 <= i < |order| ==> order[i] in hashTable && |hashTable[order[i]]| > 0
    requires |order| == |hashTable|
    requires forall c: nat, n: nat :: 0 < n ==> intn(c, n) < n
    requires forall i, j :: 0 <= i < j < |order| ==> order[i] != order[j]
    ensures keys == order && |values| == |keys|
    ensures forall i :: 0 <= i < |keys| ==>
      values[i] == Pick(hashTable[keys[i]], intn(DrawsBefore(hashTable, keys, i), |hashTable[keys[i]]|))
    ensures forall i :: 0 <= i < |keys| ==> values[i] in hashTable[keys[i]]
    ensures forall i :: 0 <= i < |keys| && |hashTable[keys[i]]| == 1 ==> values[i] == hashTable[keys[i]][0]
  {
    keys := [];
    values := [];
    var calls := 0;
    for i := 0 to |order|
      invariant keys == order[..i] && |values| == i
      invariant calls == DrawsBefore(hashTable, order, i)
      invariant forall l :: 0 <= l < i ==> values[l] == Chosen(hashTable, order, intn, l)
    {
      var k := order[i];
      var v := hashTable[k];
      var r := 0;
      if |v| > 1 {
        r := intn(calls, |v|);
        calls := calls + 1;
      }
      assert v[r] == Chosen(hashTable, order, intn, i);
      keys := keys + [k];
      values := values + [v[r]];
    }
    assert keys == order;
    forall i | 0 <= i < |keys|
      ensures values[i] == Pick(hashTable[keys[i]], intn(DrawsBefore(hashTable, keys, i), |hashTable[keys[i]]|))
    {
      assert values[i] == Chosen(hashTable, order, intn, i);
    }
  }
}
