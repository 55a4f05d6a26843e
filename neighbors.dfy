/**
 * Nearest and farthest neighbour bookkeeping of
 * ann/cmd/parameters/mean_and_std.go: for every point, the closest and the
 * farthest other point offered so far and their distances. CheckAndUpdate
 * is modelled sequentially; the lock striping around it is left out.
 * Distances are reals.
 */
module Neighbors {
  /** math.MaxFloat64, exactly: (2 - 2^-52) * 2^1023. */
  const MaxFloat64: real := 179769313486231570814527423731704356798070567525844996598917476803157260780028538760589558632766878171540458953514382464234321326889464182768467546703537516986049910576551282076245490090389328944075868508455133942304583236903222948165808559332123348274797826204144723168738177180919299881250404026184124858368.0

  /** The four slices as values. */
  datatype Table = Table(closest: seq<int>, farthest: seq<int>, closestDistance: seq<real>, farthestDistance: seq<real>)

  predicate WellSized(t: Table)
  {
    |t.farthest| == |t.closest| && |t.closestDistance| == |t.closest| && |t.farthestDistance| == |t.closest|
  }

  /** What NewNeighborStruct builds: no neighbour yet, closest at MaxFloat64, farthest at 0. */
  function Initial(size: nat): (t: Table)
    ensures WellSized(t) && |t.closest| == size
  {
    Table(seq(size, _ => -1), seq(size, _ => -1), seq(size, _ => MaxFloat64), seq(size, _ => 0.0))
  }

  /** One offer: point j at distance d from point i. */
  datatype Offer = Offer(i: nat, j: int, d: real)

  /** CheckAndUpdate on values: i's closest pair replaced on a strictly smaller d, its farthest on a strictly larger d. */
  function Step(t: Table, o: Offer): (r: Table)
    requires WellSized(t) && o.i < |t.closest|
    ensures WellSized(r) && |r.closest| == |t.closest|
  {
    var i := o.i;
    var t := if o.d < t.closestDistance[i]
      then t.(closestDistance := t.closestDistance[i := o.d], closest := t.closest[i := o.j]) else t;
    if o.d > t.farthestDistance[i]
      then t.(farthestDistance := t.farthestDistance[i := o.d], farthest := t.farthest[i := o.j]) else t
  }

  /**
   * A step touches only entry o.i; there the closest distance is the
   * smaller of the old one and d, the farthest the larger, and the
   * neighbour moves with its distance and only on a strict improvement.
   */
  lemma StepEntry(t: Table, o: Offer, k: nat)
    requires WellSized(t) && o.i < |t.closest| && k < |t.closest|
    ensures var r := Step(t, o);
      (k != o.i ==> r.closest[k] == t.closest[k] && r.farthest[k] == t.farthest[k] &&
                    r.closestDistance[k] == t.closestDistance[k] && r.farthestDistance[k] == t.farthestDistance[k]) &&
      (k == o.i ==>
        (if o.d < t.closestDistance[k] then r.closestDistance[k] == o.d && r.closest[k] == o.j
         else r.closestDistance[k] == t.closestDistance[k] && r.closest[k] == t.closest[k]) &&
        (if o.d > t.farthestDistance[k] then r.farthestDistance[k] == o.d && r.farthest[k] == o.j
         else r.farthestDistance[k] == t.farthestDistance[k] && r.farthest[k] == t.farthest[k]))
  {
  }

  /** Every offer names a point of the table. */
  predicate Fits(offers: seq<Offer>, size: nat)
  {
    forall n :: 0 <= n < |offers| ==> offers[n].i < size
  }

  /** The table after the offers, in order. */
  function Run(t: Table, offers: seq<Offer>): (r: Table)
    requires WellSized(t) && Fits(offers, |t.closest|)
    ensures WellSized(r) && |r.closest| == |t.closest|
  {
    if |offers| == 0 then t
    else Step(Run(t, offers[..|offers| - 1]), offers[|offers| - 1])
  }

  /**
   * After any sequence of offers, point k's closest distance is at most its
   * start and every distance offered for k, and it is either the start,
   * with the neighbour untouched, or one of those offers, with that offer's
   * neighbour. The farthest distance is the same with the order reversed.
   */
  lemma {:induction false} RunExtremes(t: Table, offers: seq<Offer>, k: nat)
    requires WellSized(t) && Fits(offers, |t.closest|) && k < |t.closest|
    ensures var r := Run(t, offers);
      r.closestDistance[k] <= t.closestDistance[k] &&
      (forall n :: 0 <= n < |offers| && offers[n].i == k ==> r.closestDistance[k] <= offers[n].d) &&
      ((r.closestDistance[k] == t.closestDistance[k] && r.closest[k] == t.closest[k]) ||
       exists n :: 0 <= n < |offers| && offers[n].i == k && offers[n].d == r.closestDistance[k] && offers[n].j == r.closest[k])
    ensures var r := Run(t, offers);
      r.farthestDistance[k] >= t.farthestDistance[k] &&
      (forall n :: 0 <= n < |offers| && offers[n].i == k ==> r.farthestDistance[k] >= offers[n].d) &&
      ((r.farthestDistance[k] == t.farthestDistance[k] && r.farthest[k] == t.farthest[k]) ||
       exists n :: 0 <= n < |offers| && offers[n].i == k && offers[n].d == r.farthestDistance[k] && offers[n].j == r.farthest[k])
  {
    if |offers| > 0 {
      var init := offers[..|offers| - 1];
      var o := offers[|offers| - 1];
      assert Fits(init, |t.closest|) by {
        forall n | 0 <= n < |init| ensures init[n].i < |t.closest| {
          assert init[n] == offers[n];
        }
      }
      RunExtremes(t, init, k);
      var before := Run(t, init);
      StepEntry(before, o, k);
      assert forall n :: 0 <= n < |init| ==> offers[n] == init[n];
      assert offers[|init|] == o;
    }
  }

  /** Neighbors: the four slices, updated in place. */
  class Neighbors {
    var closest: array<int>
    var farthest: array<int>
    var closestDistance: array<real>
    var farthestDistance: array<real>

    ghost predicate Valid()
      reads this
    {
      closest != farthest && closestDistance != farthestDistance &&
      farthest.Length == closest.Length && closestDistance.Length == closest.Length &&
      farthestDistance.Length == closest.Length
    }

    function State(): (t: Table)
      reads this, closest, farthest, closestDistance, farthestDistance
    {
      Table(closest[..], farthest[..], closestDistance[..], farthestDistance[..])
    }

    /** NewNeighborStruct. */
    constructor (size: nat)
      ensures Valid() && State() == Initial(size)
      ensures fresh(closest) && fresh(farthest) && fresh(closestDistance) && fresh(farthestDistance)
    {
      var c := new int[size];
      var f := new int[size];
      var cd := new real[size];
      var fd := new real[size](_ => 0.0);
      for i := 0 to size
        invariant forall k :: 0 <= k < i ==> c[k] == -1 && f[k] == -1 && cd[k] == MaxFloat64
        invariant forall k :: 0 <= k < size ==> fd[k] == 0.0
      {
        c[i] := -1;
        f[i] := -1;
        cd[i] := MaxFloat64;
      }
      closest, farthest, closestDistance, farthestDistance := c, f, cd, fd;
    }

    /** CheckAndUpdate(index1, index2, dist). */
    method CheckAndUpdate(index1: nat, index2: int, dist: real)
      requires Valid() && index1 < closest.Length
      modifies closest, farthest, closestDistance, farthestDistance
      ensures Valid() && State() == Step(old(State()), Offer(index1, index2, dist))
    {
      if dist < closestDistance[index1] {
        closestDistance[index1] := dist;
        closest[index1] := index2;
      }
      if dist > farthestDistance[index1] {
        farthestDistance[index1] := dist;
        farthest[index1] := index2;
      }
    }

    /** The offers made one after another, as main's loops over pairs of points make them. */
    method CheckAll(offers: seq<Offer>)
      requires Valid() && Fits(offers, closest.Length)
      modifies closest, farthest, closestDistance, farthestDistance
      ensures Valid() && State() == Run(old(State()), offers)
    {
      ghost var start := State();
      for n := 0 to |offers|
        invariant Valid() && State() == Run(start, offers[..n])
      {
        assert offers[..n + 1][..n] == offers[..n] && offers[..n + 1][n] == offers[n];
        CheckAndUpdate(offers[n].i, offers[n].j, offers[n].d);
      }
      assert offers[..|offers|] == offers;
    }
  }
}
