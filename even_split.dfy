/**
 * Cutting [0, total) into n contiguous ranges as evenly as possible, the
 * first total % n of them one longer than the others. The same loop builds
 * the partition buckets of ann/pbr.go (NewPBRBuckets) and the coordinate
 * spans of hash/multilattice_hash.go (Spans).
 */
module EvenSplit {
  /** Where range i starts: i ranges of width total / n, plus one for each earlier long range. */
  function RangeStart(total: nat, n: nat, i: nat): nat
    requires n > 0
  {
    i * (total / n) + (if i < total % n then i else total % n)
  }

  /** The n ranges, range i being [RangeStart(i), RangeStart(i + 1)). */
  function EvenRanges(total: nat, n: nat): (r: seq<(nat, nat)>)
    requires n > 0
    ensures |r| == n
  {
    seq(n, i requires 0 <= i < n => (RangeStart(total, n, i), RangeStart(total, n, i + 1)))
  }

  /** The end of the last range is total: n * (total / n) + total % n. */
  lemma LastRangeEnd(total: nat, n: nat)
    requires n > 0
    ensures RangeStart(total, n, n) == total
  {
    assert total == n * (total / n) + total % n;
  }

  /** Range i is one longer than total / n exactly when i < total % n. */
  lemma RangeWidth(total: nat, n: nat, i: nat)
    requires n > 0
    ensures RangeStart(total, n, i + 1) == RangeStart(total, n, i) + total / n + (if i < total % n then 1 else 0)
  {
    assert (i + 1) * (total / n) == i * (total / n) + total / n;
  }

  /** Range starts never decrease, so the ranges are disjoint and ordered. */
  lemma {:induction false} RangeStartMonotone(total: nat, n: nat, i: nat, j: nat)
    requires n > 0 && i <= j
    ensures RangeStart(total, n, i) <= RangeStart(total, n, j)
    decreases j - i
  {
    if i < j {
      RangeWidth(total, n, i);
      RangeStartMonotone(total, n, i + 1, j);
    }
  }

  /**
   * What the split promises: n ranges, the first starting at 0, the last
   * ending at total, each starting where the previous ended, and range i of
   * width total / n plus one when i < total % n.
   */
  lemma EvenRangesShape(total: nat, n: nat)
    requires n > 0
    ensures EvenRanges(total, n)[0].0 == 0
    ensures EvenRanges(total, n)[n - 1].1 == total
    ensures forall i :: 0 <= i < n - 1 ==> EvenRanges(total, n)[i].1 == EvenRanges(total, n)[i + 1].0
    ensures forall i :: 0 <= i < n ==>
      EvenRanges(total, n)[i].1 == EvenRanges(total, n)[i].0 + total / n + (if i < total % n then 1 else 0)
  {
    LastRangeEnd(total, n);
    forall i | 0 <= i < n
      ensures EvenRanges(total, n)[i].1 == EvenRanges(total, n)[i].0 + total / n + (if i < total % n then 1 else 0)
    {
      RangeWidth(total, n, i);
    }
  }

  /**
   * The shared loop: `start` runs along the ranges and `extra` counts the
   * long ranges still to hand out.
   */
  method Split(total: nat, n: nat) returns (r: seq<(nat, nat)>)
    requires n > 0
    ensures r == EvenRanges(total, n)
  {
    r := [];
    var start := 0;
    var skip := total / n;
    var extra := total % n;
    var i := 0;
    while i < n
      invariant 0 <= i <= n && |r| == i
      invariant start == RangeStart(total, n, i)
      invariant extra == if i < total % n then total % n - i else 0
      invariant forall j :: 0 <= j < i ==> r[j] == EvenRanges(total, n)[j]
    {
      var end := start + skip;
      if extra > 0 {
        end := end + 1;
        extra := extra - 1;
      }
      RangeWidth(total, n, i);
      r := r + [(start, end)];
      start := end;
      i := i + 1;
    }
  }
}
