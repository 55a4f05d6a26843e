/**
 * The sort helper Candidates of hash/hash_common.go: two parallel slices,
 * lattice point indexes and their distances, that sort.Interface reorders
 * together. Len and Less read them; Swap exchanges two positions in both.
 */
module HashCommon {
  /** Position i and j of s exchanged, every other position kept. */
  function Swapped<T>(s: seq<T>, i: nat, j: nat): (r: seq<T>)
    requires i < |s| && j < |s|
    ensures |r| == |s|
  {
    s[i := s[j]][j := s[i]]
  }

  /** Swapping twice gives back the original sequence. */
  lemma SwapTwice<T>(s: seq<T>, i: nat, j: nat)
    requires i < |s| && j < |s|
    ensures Swapped(Swapped(s, i, j), i, j) == s
  {
    var t := Swapped(s, i, j);
    assert forall k :: 0 <= k < |s| ==> Swapped(t, i, j)[k] == s[k];
  }

  /** A swap only rearranges: the multiset of elements is the same. */
  lemma SwapPermutes<T>(s: seq<T>, i: nat, j: nat)
    requires i < |s| && j < |s|
    ensures multiset(Swapped(s, i, j)) == multiset(s)
  {
    if i != j {
      var t := s[i := s[j]];
      assert multiset(t) == multiset(s) - multiset{s[i]} + multiset{s[j]};
      assert multiset(t[j := s[i]]) == multiset(t) - multiset{t[j]} + multiset{s[i]};
    }
  }

  /** Swapped does what its name says: i and j exchanged, the rest unchanged. */
  lemma SwappedAt<T>(s: seq<T>, i: nat, j: nat)
    requires i < |s| && j < |s|
    ensures Swapped(s, i, j)[i] == s[j] && Swapped(s, i, j)[j] == s[i]
    ensures forall k :: 0 <= k < |s| && k != i && k != j ==> Swapped(s, i, j)[k] == s[k]
  {
  }

  /** The two slices zipped: the (index, distance) pairs the sort moves around. */
  function Zip(xs: seq<nat>, ds: seq<real>): (r: seq<(nat, real)>)
    requires |xs| == |ds|
    ensures |r| == |xs|
  {
    seq(|xs|, k requires 0 <= k < |xs| => (xs[k], ds[k]))
  }

  /** Swapping both slices at i and j swaps their pairs. */
  lemma ZipSwapped(xs: seq<nat>, ds: seq<real>, i: nat, j: nat)
    requires |xs| == |ds| && i < |xs| && j < |xs|
    ensures Zip(Swapped(xs, i, j), Swapped(ds, i, j)) == Swapped(Zip(xs, ds), i, j)
  {
  }

  class Candidates {
    var indexes: array<nat>
    var distances: array<real>

    constructor (indexes: array<nat>, distances: array<real>)
      ensures this.indexes == indexes && this.distances == distances
    {
      this.indexes := indexes;
      this.distances := distances;
    }

    /** Len: the number of candidates, read off Indexes. */
    function Len(): (n: nat)
      reads this
      ensures n == indexes.Length
    {
      indexes.Length
    }

    /** Less: candidate i is strictly closer than candidate j. */
    predicate Less(i: nat, j: nat)
      requires i < distances.Length && j < distances.Length
      reads this, distances
    {
      distances[i] < distances[j]
    }

    /** The (index, distance) pairs. */
    function Pairs(): seq<(nat, real)>
      requires indexes.Length == distances.Length
      reads this, indexes, distances
    {
      Zip(indexes[..], distances[..])
    }

    /**
     * Swap: positions i and j exchanged in both slices, through a temporary
     * each; nothing else changes.
     */
    method Swap(i: nat, j: nat)
      requires i < indexes.Length && j < indexes.Length
      requires i < distances.Length && j < distances.Length
      modifies indexes, distances
      ensures indexes[..] == Swapped(old(indexes[..]), i, j)
      ensures distances[..] == Swapped(old(distances[..]), i, j)
      ensures indexes.Length == distances.Length ==>
        Pairs() == Swapped(old(Pairs()), i, j) && multiset(Pairs()) == multiset(old(Pairs()))
    {
      ghost var (xs, ds) := (indexes[..], distances[..]);
      if indexes.Length == distances.Length {
        ZipSwapped(xs, ds, i, j);
        SwapPermutes(Zip(xs, ds), i, j);
      }
      var t := indexes[i];
      indexes[i] := indexes[j];
      indexes[j] := t;
      var d := distances[i];
      distances[i] := distances[j];
      distances[j] := d;
    }
  }
}
