/**
 * Partition-batched retrieval (ann/pbr.go): the hash space [0, max) is cut
 * into contiguous buckets, a hash is mapped back to its bucket, sorted
 * database keys are divided into per-bucket runs, and a client keeps the
 * first probe that lands in each bucket.
 */
module Partition {
  import opened Wrappers
  import opened Field
  import opened EvenSplit
  import opened UniversalHash
  import DpfBlock

  /** PBRBuckets: the [start, end) ranges, the common width, the bound and the count. */
  datatype PBRBuckets = PBRBuckets(buckets: seq<(nat, nat)>, size: nat, max: nat, numBuckets: nat)

  /** The buckets NewPBRBuckets builds for a bound and a count. */
  function EvenBuckets(max: nat, numBuckets: nat): PBRBuckets
    requires numBuckets > 0
  {
    PBRBuckets(EvenRanges(max, numBuckets), max / numBuckets, max, numBuckets)
  }

  predicate Valid(p: PBRBuckets)
  {
    p.numBuckets > 0 && p == EvenBuckets(p.max, p.numBuckets)
  }

  /**
   * NewPBRBuckets: numBuckets contiguous ranges from 0 to max, the first
   * max % numBuckets of them one wider than Size = max / numBuckets.
   */
  method NewPBRBuckets(max: Uint64, numBuckets: Uint64) returns (p: PBRBuckets)
    requires numBuckets > 0
    ensures p == EvenBuckets(max, numBuckets) && Valid(p)
    ensures |p.buckets| == numBuckets && p.size == max / numBuckets
    ensures p.buckets[0].0 == 0 && p.buckets[numBuckets - 1].1 == max
    ensures forall i :: 0 <= i < numBuckets - 1 ==> p.buckets[i].1 == p.buckets[i + 1].0
    ensures forall i :: 0 <= i < numBuckets ==>
      p.buckets[i].1 == p.buckets[i].0 + max / numBuckets + (if i < max % numBuckets then 1 else 0)
  {
    var buckets := Split(max, numBuckets);
    EvenRangesShape(max, numBuckets);
    p := PBRBuckets(buckets, max / numBuckets, max, numBuckets);
  }

  /**
   * FindBucket: guess hash / Size, then step one bucket down when the guess
   * is past the end or starts above the hash, or one up when it ends at or
   * below the hash.
   * The requires `p.size > 0` stands for the source's integer division by
   * zero, a panic when there are more buckets than hash values.
   */
  function FindBucket(p: PBRBuckets, hash: Uint64): (g: int)
    requires Valid(p) && p.size > 0
    ensures 0 <= g <= hash / p.size + 1
  {
    var guess := hash / p.size;
    if guess >= |p.buckets| || p.buckets[guess].0 > hash then guess - 1
    else if p.buckets[guess].1 <= hash then guess + 1
    else guess
  }

  predicate InBucket(p: PBRBuckets, b: int, hash: nat)
  {
    0 <= b < |p.buckets| && p.buckets[b].0 <= hash < p.buckets[b].1
  }

  /**
   * FindBucket returns the bucket holding the hash whenever the hash is
   * below max, the buckets are at least one wide and no more buckets are
   * long than a bucket is wide (max % numBuckets <= max / numBuckets); a
   * guess is then at most one bucket too high.
   */
  lemma FindBucketCorrect(p: PBRBuckets, hash: Uint64)
    requires Valid(p) && p.size > 0
    requires hash < p.max && p.max % p.numBuckets <= p.size
    ensures InBucket(p, FindBucket(p, hash), hash)
  {
    var n, s, m := p.numBuckets, p.size, p.max;
    var g := hash / s;
    assert p.buckets == EvenRanges(m, n);
    if g < n && RangeStart(m, n, g) <= hash {
      GuessFits(m, n, hash);
    } else if g >= n {
      GuessPastEnd(m, n, hash);
    } else {
      GuessAbove(m, n, hash);
    }
  }

  /** A guess inside the buckets whose start is at or below the hash is right. */
  lemma GuessFits(m: nat, n: nat, hash: nat)
    requires n > 0 && 0 < m / n && m % n <= m / n
    requires hash / (m / n) < n && RangeStart(m, n, hash / (m / n)) <= hash
    ensures hash < RangeStart(m, n, hash / (m / n) + 1)
  {
    GuessBounds(hash, m / n);
    StartBounds(m, n, hash / (m / n) + 1);
  }

  /** A guess past the buckets is exactly n, and bucket n - 1 holds the hash. */
  lemma GuessPastEnd(m: nat, n: nat, hash: nat)
    requires n > 0 && 0 < m / n && m % n <= m / n && hash < m
    requires hash / (m / n) >= n
    ensures hash / (m / n) == n && RangeStart(m, n, n - 1) <= hash < RangeStart(m, n, n)
  {
    var s, g := m / n, hash / (m / n);
    GuessBounds(hash, s);
    assert m == n * s + m % n;
    assert (n + 1) * s == n * s + s;
    ProductBelow(g, n + 1, s);
    LastRangeEnd(m, n);
    StartBounds(m, n, n - 1);
  }

  /** A guess whose bucket starts above the hash is one too high, and never 0. */
  lemma GuessAbove(m: nat, n: nat, hash: nat)
    requires n > 0 && 0 < m / n && m % n <= m / n
    requires hash / (m / n) < n && RangeStart(m, n, hash / (m / n)) > hash
    ensures 0 < hash / (m / n) && RangeStart(m, n, hash / (m / n) - 1) <= hash
  {
    var s, g := m / n, hash / (m / n);
    GuessBounds(hash, s);
    assert RangeStart(m, n, 0) == 0;
    assert 0 < g;
    assert (g - 1) * s + s == g * s;
    StartBounds(m, n, g - 1);
  }

  /** Products with the same positive factor compare as the other factors do. */
  lemma ProductBelow(a: nat, b: nat, s: nat)
    requires a * s < b * s
    ensures a < b
  {
  }

  /** The guess hash / s brackets the hash: g * s <= hash < g * s + s. */
  lemma GuessBounds(hash: nat, s: nat)
    requires s > 0
    ensures (hash / s) * s <= hash < (hash / s) * s + s
    ensures (hash / s + 1) * s == (hash / s) * s + s
  {
  }

  /** With max % n <= max / n, range i starts between i * s and i * s + s, for s = max / n. */
  lemma StartBounds(max: nat, n: nat, i: nat)
    requires n > 0 && max % n <= max / n
    ensures i * (max / n) <= RangeStart(max, n, i) <= i * (max / n) + max / n
    ensures i > 0 ==> (i - 1) * (max / n) + max / n == i * (max / n)
  {
    if i > 0 {
      assert (i - 1) * (max / n) + max / n == i * (max / n);
    }
  }

  /**
   * Without the remainder condition the one-step correction can miss: five
   * hashes in three buckets [0,2), [2,4), [4,5) have Size 1, and hash 3 is
   * guessed at 3, stepped down to 2, and reported in [4,5).
   */
  lemma FindBucketNeedsSmallRemainder()
    ensures Valid(EvenBuckets(5, 3))
    ensures EvenBuckets(5, 3).buckets == [(0, 2), (2, 4), (4, 5)]
    ensures FindBucket(EvenBuckets(5, 3), 3) == 2 && !InBucket(EvenBuckets(5, 3), 2, 3)
  {
    assert EvenBuckets(5, 3).buckets == [(0, 2), (2, 4), (4, 5)];
  }

  /** Position-wise pairs of keys and values. */
  function Pairs(keys: seq<Uint64>, values: seq<FP>): (r: seq<(Uint64, FP)>)
    requires |keys| == |values|
    ensures |r| == |keys|
  {
    seq(|keys|, i requires 0 <= i < |keys| => (keys[i], values[i]))
  }

  predicate SortedKeys(keys: seq<Uint64>)
  {
    forall i, j :: 0 <= i < j < |keys| ==> keys[i] <= keys[j]
  }

  /** Exchanging two positions of a sequence keeps its multiset. */
  lemma SwapKeepsMultiset<T>(s: seq<T>, i: nat, j: nat)
    requires i < |s| && j < |s|
    ensures multiset(s[i := s[j]][j := s[i]]) == multiset(s)
  {
    if i != j {
      var t := s[i := s[j]];
      assert multiset(t) == multiset(s) - multiset{s[i]} + multiset{s[j]};
      assert multiset(t[j := s[i]]) == multiset(t) - multiset{t[j]} + multiset{s[i]};
    }
  }

  /**
   * The sorter of ComputeBucketDivisions: two slices ordered by the keys,
   * with every exchange applied to both.
   */
  class Sorter {
    var keys: array<Uint64>
    var values: array<FP>

    constructor (keys: array<Uint64>, values: array<FP>)
      ensures this.keys == keys && this.values == values
    {
      this.keys := keys;
      this.values := values;
    }

    function Len(): (n: nat)
      reads this
      ensures n == keys.Length
    {
      keys.Length
    }

    predicate Less(i: nat, j: nat)
      reads this, keys
      requires i < keys.Length && j < keys.Length
    {
      keys[i] < keys[j]
    }

    /** Swap: exchanges positions i and j of the keys and of the values. */
    method Swap(i: nat, j: nat)
      requires i < keys.Length && j < keys.Length && keys.Length == values.Length
      modifies keys, values
      ensures keys[..] == old(keys[..])[i := old(keys[j])][j := old(keys[i])]
      ensures values[..] == old(values[..])[i := old(values[j])][j := old(values[i])]
      ensures multiset(Pairs(keys[..], values[..])) == multiset(Pairs(old(keys[..]), old(values[..])))
    {
      ghost var before := Pairs(keys[..], values[..]);
      keys[i], keys[j] := keys[j], keys[i];
      values[i], values[j] := values[j], values[i];
      assert Pairs(keys[..], values[..]) == before[i := before[j]][j := before[i]];
      SwapKeepsMultiset(before, i, j);
    }

    /**
     * sort.Sort on the sorter, as a selection sort that touches the data
     * only through Len, Less and Swap: the keys end ascending and the
     * (key, value) pairs are a permutation of the original ones.
     */
    method Sort()
      requires keys.Length == values.Length
      modifies keys, values
      ensures SortedKeys(keys[..])
      ensures multiset(Pairs(keys[..], values[..])) == multiset(Pairs(old(keys[..]), old(values[..])))
    {
      var n := Len();
      var i := 0;
      while i < n
        invariant 0 <= i <= n == keys.Length == values.Length
        invariant forall a, b :: 0 <= a < b < i ==> keys[a] <= keys[b]
        invariant forall a, b :: 0 <= a < i <= b < n ==> keys[a] <= keys[b]
        invariant multiset(Pairs(keys[..], values[..])) == multiset(Pairs(old(keys[..]), old(values[..])))
      {
        var m := MinFrom(i);
        Swap(i, m);
        i := i + 1;
      }
    }

    /** The position of a least key in keys[i..], found by a scan. */
    method MinFrom(i: nat) returns (m: nat)
      requires i < keys.Length
      ensures i <= m < keys.Length
      ensures forall b :: i <= b < keys.Length ==> keys[m] <= keys[b]
    {
      m := i;
      var j := i + 1;
      while j < Len()
        invariant i <= m < keys.Length && i + 1 <= j <= keys.Length
        invariant forall b :: i <= b < j ==> keys[m] <= keys[b]
      {
        if Less(j, m) {
          m := j;
        }
        j := j + 1;
      }
    }
  }

  /** The index scan of ComputeBucketDivisions as written: the current bucket and the two slices. */
  datatype Scan = Scan(bucket: nat, starts: seq<int>, stops: seq<int>)

  predicate BelowLast(keys: seq<Uint64>, ranges: seq<(nat, nat)>)
  {
    |ranges| > 0 && forall k :: 0 <= k < |keys| ==> keys[k] < ranges[|ranges| - 1].1
  }

  /**
   * The scan as written: a key at or past the current bucket's end closes
   * that bucket and opens the next one, once, whatever the key.
   */
  function ScanAsWritten(keys: seq<Uint64>, ranges: seq<(nat, nat)>): (s: Scan)
    requires BelowLast(keys, ranges)
    ensures s.bucket < |ranges| && |s.starts| == |ranges| && |s.stops| == |ranges|
  {
    if |keys| == 0 then Scan(0, seq(|ranges|, _ => 0), seq(|ranges|, _ => 0))
    else
      var i := |keys| - 1;
      var s := ScanAsWritten(keys[..i], ranges);
      if keys[i] >= ranges[s.bucket].1 then Scan(s.bucket + 1, s.starts[s.bucket + 1 := i], s.stops[s.bucket := i])
      else s
  }

  /** The divisions as written: the scan, then the last bucket stopped at the end. */
  function DivisionsAsWritten(keys: seq<Uint64>, ranges: seq<(nat, nat)>): (r: (seq<int>, seq<int>))
    requires BelowLast(keys, ranges)
  {
    var s := ScanAsWritten(keys, ranges);
    (s.starts, s.stops[|ranges| - 1 := |keys|])
  }

  /** The natural division: the first position whose key reaches x. */
  predicate IsCut(keys: seq<Uint64>, x: nat, c: int)
  {
    0 <= c <= |keys| && (forall k :: 0 <= k < c ==> keys[k] < x) && (forall k :: c <= k < |keys| ==> keys[k] >= x)
  }

  /**
   * What a division promises: bucket b's run of sorted keys starts at the
   * cut of its start and stops at the cut of its end.
   */
  predicate IsDivision(keys: seq<Uint64>, ranges: seq<(nat, nat)>, starts: seq<int>, stops: seq<int>)
  {
    |starts| == |ranges| && |stops| == |ranges|
    && forall b :: 0 <= b < |ranges| ==> IsCut(keys, ranges[b].0, starts[b]) && IsCut(keys, ranges[b].1, stops[b])
  }

  /** Sorting for ComputeBucketDivisions, shared by both versions. */
  method SortPairs(keys: array<Uint64>, values: array<FP>, ghost bound: nat)
    requires keys.Length == values.Length
    requires forall k :: 0 <= k < keys.Length ==> keys[k] < bound
    modifies keys, values
    ensures SortedKeys(keys[..])
    ensures multiset(Pairs(keys[..], values[..])) == multiset(Pairs(old(keys[..]), old(values[..])))
    ensures forall k :: 0 <= k < keys.Length ==> keys[k] < bound
  {
    var s := new Sorter(keys, values);
    s.Sort();
    forall k | 0 <= k < keys.Length
      ensures keys[k] < bound
    {
      PermutedKeyBound(keys[..], values[..], old(keys[..]), old(values[..]), bound, k);
    }
  }

  /** A permutation of pairs draws every key from the original keys. */
  lemma PermutedKeyBound(ks: seq<Uint64>, vs: seq<FP>, ks0: seq<Uint64>, vs0: seq<FP>, bound: nat, k: nat)
    requires |ks| == |vs| && |ks0| == |vs0| && k < |ks|
    requires multiset(Pairs(ks, vs)) == multiset(Pairs(ks0, vs0))
    requires forall j :: 0 <= j < |ks0| ==> ks0[j] < bound
    ensures ks[k] < bound
  {
    var pair := Pairs(ks, vs)[k];
    assert pair in multiset(Pairs(ks, vs));
    assert pair in Pairs(ks0, vs0);
    var j :| 0 <= j < |ks0| && Pairs(ks0, vs0)[j] == pair;
  }

  /**
   * ComputeBucketDivisions exactly as written: keys and values are sorted in
   * place, then one `if` per key advances the bucket.
   */
  method ComputeBucketDivisionsAsWritten(numBuckets: nat, keys: array<Uint64>, values: array<FP>, hashKeyBits: nat)
    returns (starts: seq<int>, stops: seq<int>)
    requires 0 < numBuckets && hashKeyBits < 64 && keys.Length == values.Length
    requires forall k :: 0 <= k < keys.Length ==> keys[k] < DpfBlock.Pow2(hashKeyBits)
    modifies keys, values
    ensures SortedKeys(keys[..])
    ensures multiset(Pairs(keys[..], values[..])) == multiset(Pairs(old(keys[..]), old(values[..])))
    ensures BelowLast(keys[..], EvenRanges(DpfBlock.Pow2(hashKeyBits), numBuckets))
    ensures (starts, stops) == DivisionsAsWritten(keys[..], EvenRanges(DpfBlock.Pow2(hashKeyBits), numBuckets))
  {
    SortPairs(keys, values, DpfBlock.Pow2(hashKeyBits));
    var mod := DpfBlock.Pow2(hashKeyBits);
    var ranges := Split(mod, numBuckets);
    LastRangeEnd(mod, numBuckets);
    assert ranges[numBuckets - 1].1 == mod;
    starts := seq(numBuckets, _ => 0);
    stops := seq(numBuckets, _ => 0);
    var bucket: nat := 0;
    var i := 0;
    while i < keys.Length
      invariant 0 <= i <= keys.Length
      invariant BelowLast(keys[..i], ranges)
      invariant Scan(bucket, starts, stops) == ScanAsWritten(keys[..i], ranges)
    {
      assert keys[..i + 1][..i] == keys[..i];
      if keys[i] >= ranges[bucket].1 {
        stops := stops[bucket := i];
        starts := starts[bucket + 1 := i];
        bucket := bucket + 1;
      }
      i := i + 1;
    }
    assert keys[..i] == keys[..];
    stops := stops[numBuckets - 1 := keys.Length];
  }

  /**
   * One key [0] and two buckets [0,2), [2,4) (hashKeyBits = 2): as written,
   * bucket 0 gets the empty run [0,0) and bucket 1 the run [0,1) holding
   * key 0, which belongs to bucket 0; the buckets after the last key's
   * bucket are never closed.
   */
  lemma DivisionsAsWrittenLoseTrailingBuckets()
    ensures DivisionsAsWritten([0], EvenRanges(4, 2)) == ([0, 0], [0, 1])
    ensures !IsDivision([0], EvenRanges(4, 2), [0, 0], [0, 1])
    ensures IsDivision([0], EvenRanges(4, 2), [0, 1], [1, 1])
  {
    var r := EvenRanges(4, 2);
    TwoRanges();
    ScanOneKey(r);
    assert [0, 0][1 := 1] == [0, 1];
    var keys: seq<Uint64> := [0];
    assert !IsCut(keys, r[0].1, 0);
  }

  lemma TwoRanges()
    ensures EvenRanges(4, 2) == [(0, 2), (2, 4)]
  {
  }

  lemma ScanOneKey(r: seq<(nat, nat)>)
    requires r == [(0, 2), (2, 4)]
    ensures ScanAsWritten([0], r) == Scan(0, [0, 0], [0, 0])
  {
    var keys: seq<Uint64> := [0];
    assert keys[..0] == [];
    assert seq(2, _ => 0) == [0, 0];
  }

  /**
   * Keys [0, 3] with three buckets [0,2), [2,3), [3,4) come out as starts
   * [0,1,0] and stops [1,0,2]: key 3 jumps over the empty bucket 1 but moves
   * the index by one bucket only, so bucket 2's run is [0,2).
   */
  lemma DivisionsAsWrittenSkipOneBucketOnly()
    ensures DivisionsAsWritten([0, 3], EvenRanges(4, 3)) == ([0, 1, 0], [1, 0, 2])
    ensures !IsDivision([0, 3], EvenRanges(4, 3), [0, 1, 0], [1, 0, 2])
    ensures IsDivision([0, 3], EvenRanges(4, 3), [0, 1, 1], [1, 1, 2])
  {
    var r := EvenRanges(4, 3);
    ThreeRanges();
    ScanTwoKeys(r);
    assert [1, 0, 0][2 := 2] == [1, 0, 2];
    var keys: seq<Uint64> := [0, 3];
    assert !IsCut(keys, r[2].0, 0);
  }

  lemma ThreeRanges()
    ensures EvenRanges(4, 3) == [(0, 2), (2, 3), (3, 4)]
  {
  }

  lemma ScanTwoKeys(r: seq<(nat, nat)>)
    requires r == [(0, 2), (2, 3), (3, 4)]
    ensures ScanAsWritten([0, 3], r) == Scan(1, [0, 1, 0], [1, 0, 0])
  {
    var keys: seq<Uint64> := [0, 3];
    assert keys[..1] == [0] && keys[..1][..0] == [];
    assert seq(3, _ => 0) == [0, 0, 0];
    assert ScanAsWritten(keys[..1][..0], r) == Scan(0, [0, 0, 0], [0, 0, 0]);
    assert ScanAsWritten(keys[..1], r) == Scan(0, [0, 0, 0], [0, 0, 0]);
  }

  /**
   * ComputeBucketDivisions corrected: a key advances the bucket as many
   * times as it needs (`for` in place of `if`), and the buckets after the
   * last key are closed at the end. Every run is then the cut of the sorted
   * keys at its bucket's bounds.
   */
  method ComputeBucketDivisions(numBuckets: nat, keys: array<Uint64>, values: array<FP>, hashKeyBits: nat)
    returns (starts: seq<int>, stops: seq<int>)
    requires 0 < numBuckets && hashKeyBits < 64 && keys.Length == values.Length
    requires forall k :: 0 <= k < keys.Length ==> keys[k] < DpfBlock.Pow2(hashKeyBits)
    modifies keys, values
    ensures SortedKeys(keys[..])
    ensures multiset(Pairs(keys[..], values[..])) == multiset(Pairs(old(keys[..]), old(values[..])))
    ensures IsDivision(keys[..], EvenRanges(DpfBlock.Pow2(hashKeyBits), numBuckets), starts, stops)
  {
    SortPairs(keys, values, DpfBlock.Pow2(hashKeyBits));
    var mod := DpfBlock.Pow2(hashKeyBits);
    var ranges := Split(mod, numBuckets);
    starts, stops := DivideSorted(keys[..], ranges, mod);
  }

  /** The corrected scan over the sorted keys, then the closing of the remaining buckets. */
  method DivideSorted(keys: seq<Uint64>, ranges: seq<(nat, nat)>, mod: nat) returns (starts: seq<int>, stops: seq<int>)
    requires |ranges| > 0 && ranges == EvenRanges(mod, |ranges|)
    requires SortedKeys(keys) && forall k :: 0 <= k < |keys| ==> keys[k] < mod
    ensures IsDivision(keys, ranges, starts, stops)
  {
    var numBuckets := |ranges|;
    EvenRangesShape(mod, numBuckets);
    EndsMonotone(ranges);
    starts := seq(numBuckets, _ => 0);
    stops := seq(numBuckets, _ => 0);
    var bucket: nat := 0;
    var i := 0;
    while i < |keys|
      invariant 0 <= i <= |keys|
      invariant ScanState(keys, ranges, starts, stops, bucket, i)
    {
      starts, stops, bucket := AdvancePast(keys, ranges, i, bucket, starts, stops);
      i := i + 1;
    }
    while bucket < numBuckets - 1
      invariant ScanState(keys, ranges, starts, stops, bucket, |keys|)
    {
      CloseAt(keys, ranges, starts, stops, bucket, |keys|);
      stops := stops[bucket := |keys|];
      starts := starts[bucket + 1 := |keys|];
      bucket := bucket + 1;
    }
    ScanStateIsDivision(keys, ranges, starts, stops);
    stops := stops[numBuckets - 1 := |keys|];
  }

  /**
   * The corrected scan after i keys: buckets before `bucket` are closed,
   * each at the cut of its end, and the first i keys lie below the current
   * bucket's end.
   */
  ghost predicate ScanState(keys: seq<Uint64>, ranges: seq<(nat, nat)>, starts: seq<int>, stops: seq<int>, bucket: nat, i: nat)
  {
    bucket < |ranges| && |starts| == |ranges| && |stops| == |ranges| && starts[0] == 0 && i <= |keys|
    && (forall k :: 0 <= k < i ==> keys[k] < ranges[bucket].1)
    && (forall b :: 0 <= b < bucket ==> starts[b + 1] == stops[b] && 0 <= stops[b] <= i)
    && (forall b, k :: 0 <= b < bucket && 0 <= k < stops[b] ==> keys[k] < ranges[b].1)
    && (forall b, k :: 0 <= b < bucket && stops[b] <= k < |keys| ==> keys[k] >= ranges[b].1)
  }

  predicate EndsAscending(ranges: seq<(nat, nat)>)
  {
    forall a, b :: 0 <= a <= b < |ranges| ==> ranges[a].1 <= ranges[b].1
  }

  lemma EndsMonotone(ranges: seq<(nat, nat)>)
    requires |ranges| > 0 && exists total: nat, n: nat :: n > 0 && ranges == EvenRanges(total, n)
    ensures EndsAscending(ranges)
  {
    var total: nat, n: nat :| n > 0 && ranges == EvenRanges(total, n);
    forall a, b | 0 <= a <= b < |ranges|
      ensures ranges[a].1 <= ranges[b].1
    {
      RangeStartMonotone(total, n, a + 1, b + 1);
    }
  }

  /**
   * The inner loop of the corrected division at key i: close every bucket
   * whose end the key reaches, opening the next one at position i.
   */
  method AdvancePast(keys: seq<Uint64>, ranges: seq<(nat, nat)>, i: nat, bucket0: nat, starts0: seq<int>, stops0: seq<int>)
    returns (starts: seq<int>, stops: seq<int>, bucket: nat)
    requires i < |keys| && SortedKeys(keys) && EndsAscending(ranges)
    requires ScanState(keys, ranges, starts0, stops0, bucket0, i) && keys[i] < ranges[|ranges| - 1].1
    ensures ScanState(keys, ranges, starts, stops, bucket, i + 1)
  {
    starts, stops, bucket := starts0, stops0, bucket0;
    while keys[i] >= ranges[bucket].1
      invariant ScanState(keys, ranges, starts, stops, bucket, i)
      decreases |ranges| - bucket
    {
      CloseAt(keys, ranges, starts, stops, bucket, i);
      stops := stops[bucket := i];
      starts := starts[bucket + 1 := i];
      bucket := bucket + 1;
    }
    ScanStep(keys, ranges, starts, stops, bucket, i);
  }

  /**
   * Closing the current bucket at position i: it stops at i, the next one
   * starts there, and the keys so far stay below the next bucket's end.
   */
  lemma CloseAt(keys: seq<Uint64>, ranges: seq<(nat, nat)>, starts: seq<int>, stops: seq<int>, bucket: nat, i: nat)
    requires ScanState(keys, ranges, starts, stops, bucket, i) && bucket + 1 < |ranges| && EndsAscending(ranges)
    requires i == |keys| || (i < |keys| && SortedKeys(keys) && keys[i] >= ranges[bucket].1)
    ensures ScanState(keys, ranges, starts[bucket + 1 := i], stops[bucket := i], bucket + 1, i)
  {
    assert ranges[bucket].1 <= ranges[bucket + 1].1;
  }

  /**
   * A finished scan whose last bucket is stopped at the number of keys is a
   * division: every bound is the cut of the keys at its range end.
   */
  lemma ScanStateIsDivision(keys: seq<Uint64>, ranges: seq<(nat, nat)>, starts: seq<int>, stops: seq<int>)
    requires |ranges| > 0 && ScanState(keys, ranges, starts, stops, |ranges| - 1, |keys|)
    requires ranges[0].0 == 0 && forall b :: 0 <= b < |ranges| - 1 ==> ranges[b].1 == ranges[b + 1].0
    ensures IsDivision(keys, ranges, starts, stops[|ranges| - 1 := |keys|])
  {
    var n := |ranges|;
    var stops' := stops[n - 1 := |keys|];
    forall b | 0 <= b < n
      ensures IsCut(keys, ranges[b].0, starts[b]) && IsCut(keys, ranges[b].1, stops'[b])
    {
      if b > 0 {
        assert starts[b] == stops'[b - 1];
      }
    }
  }

  /** Key i, below the current bucket's end, extends the scan by one position. */
  lemma ScanStep(keys: seq<Uint64>, ranges: seq<(nat, nat)>, starts: seq<int>, stops: seq<int>, bucket: nat, i: nat)
    requires i < |keys| && SortedKeys(keys)
    requires ScanState(keys, ranges, starts, stops, bucket, i)
    requires keys[i] < ranges[bucket].1
    ensures ScanState(keys, ranges, starts, stops, bucket, i + 1)
  {
  }

  /**
   * What the divisions promise about sorted keys below the last bound: the
   * first run starts at 0, the last stops at the number of keys, each run
   * starts where the previous stopped, and every key of run b lies in
   * bucket b's range.
   */
  lemma DivisionsPartition(keys: seq<Uint64>, ranges: seq<(nat, nat)>, starts: seq<int>, stops: seq<int>)
    requires |ranges| > 0 && ranges[0].0 == 0 && BelowLast(keys, ranges)
    requires forall b :: 0 <= b < |ranges| - 1 ==> ranges[b].1 == ranges[b + 1].0
    requires IsDivision(keys, ranges, starts, stops)
    ensures starts[0] == 0 && stops[|ranges| - 1] == |keys|
    ensures forall b :: 0 <= b < |ranges| - 1 ==> stops[b] == starts[b + 1]
    ensures forall b, k :: 0 <= b < |ranges| && starts[b] <= k < stops[b] ==> ranges[b].0 <= keys[k] < ranges[b].1
  {
    forall b | 0 <= b < |ranges| - 1
      ensures stops[b] == starts[b + 1]
    {
      CutUnique(keys, ranges[b].1, stops[b], starts[b + 1]);
    }
    if |keys| > 0 {
      CutUnique(keys, 0, starts[0], 0);
    }
    CutUnique(keys, ranges[|ranges| - 1].1, stops[|ranges| - 1], |keys|);
  }

  /** A cut is unique: the keys below it are below x and the rest are not. */
  lemma CutUnique(keys: seq<Uint64>, x: nat, c: int, d: int)
    requires IsCut(keys, x, c) && IsCut(keys, x, d)
    ensures c == d
  {
    if c < |keys| {
      CutAt(keys, x, c, d);
    }
    if d < |keys| {
      CutAt(keys, x, d, c);
    }
  }

  lemma CutAt(keys: seq<Uint64>, x: nat, c: int, d: int)
    requires IsCut(keys, x, c) && IsCut(keys, x, d) && c < |keys|
    ensures keys[c] >= x && (c < d ==> keys[c] < x)
  {
  }

  /** The buckets ComputeProbes uses: the space of universal-hash values. */
  function ProbeBuckets(numPartitions: nat): PBRBuckets
    requires numPartitions > 0
  {
    EvenBuckets(Prime, numPartitions)
  }

  /** The first hash, in probe order, whose bucket is b. */
  function FirstProbe(hashes: seq<Uint64>, p: PBRBuckets, b: int): Option<Uint64>
    requires Valid(p) && p.size > 0
  {
    if |hashes| == 0 then None
    else
      var last := hashes[|hashes| - 1];
      match FirstProbe(hashes[..|hashes| - 1], p, b)
      case Some(h) => Some(h)
      case None => if FindBucket(p, last) == b then Some(last) else None
  }

  /**
   * FirstProbe is first-come-first-served: it is the hash at the first
   * position whose bucket is b, and no earlier position maps to b; when it
   * is None, no hash maps to b.
   */
  lemma {:induction false} FirstProbeIsFirst(hashes: seq<Uint64>, p: PBRBuckets, b: int)
    requires Valid(p) && p.size > 0
    ensures FirstProbe(hashes, p, b).None? ==> forall k :: 0 <= k < |hashes| ==> FindBucket(p, hashes[k]) != b
    ensures FirstProbe(hashes, p, b).Some? ==>
      exists k :: 0 <= k < |hashes| && hashes[k] == FirstProbe(hashes, p, b).value && FindBucket(p, hashes[k]) == b &&
        forall j :: 0 <= j < k ==> FindBucket(p, hashes[j]) != b
  {
    if |hashes| > 0 {
      var init := hashes[..|hashes| - 1];
      FirstProbeIsFirst(init, p, b);
      if FirstProbe(init, p, b).Some? {
        var k :| 0 <= k < |init| && init[k] == FirstProbe(init, p, b).value && FindBucket(p, init[k]) == b &&
          forall j :: 0 <= j < k ==> FindBucket(p, init[j]) != b;
        assert hashes[k] == init[k];
        assert forall j :: 0 <= j < k ==> hashes[j] == init[j];
      } else {
        assert forall k :: 0 <= k < |init| ==> hashes[k] == init[k];
        if FindBucket(p, hashes[|hashes| - 1]) == b {
          assert forall j :: 0 <= j < |hashes| - 1 ==> FindBucket(p, hashes[j]) != b;
        }
      }
    }
  }

  /** A later hash in an already used bucket never changes that bucket's slot. */
  lemma FirstProbeStable(hashes: seq<Uint64>, more: seq<Uint64>, p: PBRBuckets, b: int)
    requires Valid(p) && p.size > 0 && FirstProbe(hashes, p, b).Some?
    ensures FirstProbe(hashes + more, p, b) == FirstProbe(hashes, p, b)
    decreases |more|
  {
    if |more| > 0 {
      var m := more[..|more| - 1];
      FirstProbeStable(hashes, m, p, b);
      assert (hashes + more)[..|hashes + more| - 1] == hashes + m;
    } else {
      assert hashes + more == hashes;
    }
  }

  /**
   * ComputeProbes: each hash goes to its bucket's slot unless that bucket is
   * already used. The multi-hash of the query is the input `hashes`; every
   * one of them must land on a bucket index below numPartitions.
   */
  method ComputeProbes(hashes: seq<Uint64>, numPartitions: nat) returns (output: seq<Uint64>)
    requires 0 < numPartitions <= Prime
    requires forall k :: 0 <= k < |hashes| ==> 0 <= FindBucket(ProbeBuckets(numPartitions), hashes[k]) < numPartitions
    ensures |output| == numPartitions
    ensures forall b :: 0 <= b < numPartitions ==>
      output[b] == match FirstProbe(hashes, ProbeBuckets(numPartitions), b) case Some(h) => h case None => 0
  {
    output := seq(numPartitions, _ => 0);
    var buckets := NewPBRBuckets(Prime, numPartitions);
    var used := seq(numPartitions, _ => false);
    var i := 0;
    while i < |hashes|
      invariant 0 <= i <= |hashes| && |output| == numPartitions && |used| == numPartitions
      invariant forall b :: 0 <= b < numPartitions ==> used[b] == FirstProbe(hashes[..i], buckets, b).Some?
      invariant forall b :: 0 <= b < numPartitions ==>
        output[b] == match FirstProbe(hashes[..i], buckets, b) case Some(h) => h case None => 0
    {
      var h := hashes[i];
      var bucket := FindBucket(buckets, h);
      assert hashes[..i + 1][..i] == hashes[..i];
      if !used[bucket] {
        used := used[bucket := true];
        output := output[bucket := h];
      }
      i := i + 1;
    }
    assert hashes[..i] == hashes;
  }

  /**
   * For the partition counts clients use (below 2^32), every hash below
   * Prime maps to the bucket whose range holds it, so the precondition of
   * ComputeProbes holds and slot b holds the first probe inside bucket b.
   */
  lemma ProbeBucketsExact(numPartitions: nat, hash: Uint64)
    requires 0 < numPartitions < 0x1_0000_0000 && hash < Prime
    ensures ProbeBuckets(numPartitions).size > 0
    ensures InBucket(ProbeBuckets(numPartitions), FindBucket(ProbeBuckets(numPartitions), hash), hash)
  {
    var n := numPartitions;
    var w: nat := 0xFFFF_FFFF;
    assert n * w <= w * w by { MulMono(n, w, w); }
    assert w * w < Prime;
    assert Prime / n >= w;
    FindBucketCorrect(ProbeBuckets(n), hash);
  }
}
