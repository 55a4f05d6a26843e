/**
 * The best-k search of hash/distance_search_queue.go. Each source is a list
 * of candidates for one lattice copy, source i's j-th candidate carrying the
 * coordinates [j]; a combination picks one candidate per source and its
 * distance is the sum of the picked distances. Search expands combinations
 * from the all-zeros one in order of distance, one coordinate step at a
 * time, and stops after `length` pops or when nothing is left to pop.
 *
 * The heap of container/heap is a sequence here: Push appends, and Pop takes
 * out some element of least distance. Which of several equally distant
 * elements the heap layout picks is not modelled.
 */
module SearchQueue {
  import opened Wrappers
  import DpfBlock

  /** A combination of candidate coordinates with its total distance. */
  datatype Element = Element(coords: seq<int>, distance: real)

  /** Element.id: the coordinates read as digits in base domainSize, most significant first. */
  function Id(coords: seq<int>, domainSize: int): int
  {
    if |coords| == 0 then 0
    else Id(coords[..|coords| - 1], domainSize) * domainSize + coords[|coords| - 1]
  }

  /** The loop of Element.id. */
  method ElementId(e: Element, domainSize: int) returns (id: int)
    ensures id == Id(e.coords, domainSize)
  {
    id := 0;
    for k := 0 to |e.coords|
      invariant id == Id(e.coords[..k], domainSize)
    {
      assert e.coords[..k + 1][..k] == e.coords[..k];
      id := id * domainSize + e.coords[k];
    }
    assert e.coords[..|e.coords|] == e.coords;
  }

  predicate Digits(coords: seq<int>, base: int)
  {
    forall i :: 0 <= i < |coords| ==> 0 <= coords[i] < base
  }

  lemma {:induction false} IdNonNegative(coords: seq<int>, base: int)
    requires base > 0 && Digits(coords, base)
    ensures Id(coords, base) >= 0
  {
    if |coords| > 0 {
      IdNonNegative(coords[..|coords| - 1], base);
    }
  }

  /** Two coordinate lists of the same length with digits below the base have different ids. */
  lemma {:induction false} IdInjective(a: seq<int>, b: seq<int>, base: int)
    requires |a| == |b| && Digits(a, base) && Digits(b, base)
    requires Id(a, base) == Id(b, base)
    ensures a == b
  {
    if |a| > 0 {
      var n := |a|;
      IdNonNegative(a[..n - 1], base);
      IdNonNegative(b[..n - 1], base);
      DpfBlock.DivMulUnique(Id(a, base), base, Id(a[..n - 1], base), a[n - 1]);
      DpfBlock.DivMulUnique(Id(b, base), base, Id(b[..n - 1], base), b[n - 1]);
      IdInjective(a[..n - 1], b[..n - 1], base);
      assert a == a[..n - 1] + [a[n - 1]];
      assert b == b[..n - 1] + [b[n - 1]];
    }
  }

  /** The coordinates index into the first |coords| sources. */
  predicate InRange(sources: seq<seq<Element>>, coords: seq<int>)
  {
    |coords| <= |sources| && forall i :: 0 <= i < |coords| ==> 0 <= coords[i] < |sources[i]|
  }

  /** One candidate from every source. */
  predicate IsCombination(sources: seq<seq<Element>>, coords: seq<int>)
  {
    |coords| == |sources| && InRange(sources, coords)
  }

  /** The sum of the picked candidates' distances, added in source order. */
  function DistanceOf(sources: seq<seq<Element>>, coords: seq<int>): real
    requires InRange(sources, coords)
  {
    if |coords| == 0 then 0.0
    else DistanceOf(sources, coords[..|coords| - 1]) + sources[|coords| - 1][coords[|coords| - 1]].distance
  }

  predicate WellFormed(sources: seq<seq<Element>>, e: Element)
  {
    IsCombination(sources, e.coords) && e.distance == DistanceOf(sources, e.coords)
  }

  /** Every source lists its candidates by non-decreasing distance. */
  predicate SourcesSorted(sources: seq<seq<Element>>)
  {
    forall i, j, k :: 0 <= i < |sources| && 0 <= j <= k < |sources[i]| ==>
      sources[i][j].distance <= sources[i][k].distance
  }

  /** Each source is non-empty and its first candidate has the coordinates [0]. */
  predicate Indexed(sources: seq<seq<Element>>)
  {
    forall i :: 0 <= i < |sources| ==> |sources[i]| > 0 && sources[i][0].coords == [0]
  }

  /** Pointwise at most. */
  predicate Below(a: seq<int>, b: seq<int>)
  {
    |a| == |b| && forall i :: 0 <= i < |a| ==> a[i] <= b[i]
  }

  /** With sorted sources, a combination pointwise below another is no farther. */
  lemma {:induction false} DistanceMonotone(sources: seq<seq<Element>>, a: seq<int>, b: seq<int>)
    requires SourcesSorted(sources) && InRange(sources, a) && InRange(sources, b) && Below(a, b)
    ensures DistanceOf(sources, a) <= DistanceOf(sources, b)
  {
    if |a| > 0 {
      var n := |a|;
      DistanceMonotone(sources, a[..n - 1], b[..n - 1]);
      assert sources[n - 1][a[n - 1]].distance <= sources[n - 1][b[n - 1]].distance;
    }
  }

  function CombineWith(e: Element, e2: Element): Element
  {
    Element(e.coords + e2.coords, e.distance + e2.distance)
  }

  function Zeros(n: nat): seq<int>
  {
    seq(n, _ => 0)
  }

  /**
   * The base element of Search: the empty element combined with the first
   * candidate of every source in turn, which is the all-zeros combination.
   */
  method BaseElement(sources: seq<seq<Element>>) returns (base: Element)
    requires Indexed(sources)
    ensures base.coords == Zeros(|sources|)
    ensures WellFormed(sources, base)
  {
    base := Element([], 0.0);
    for i := 0 to |sources|
      invariant base.coords == Zeros(i)
      invariant InRange(sources, base.coords) && base.distance == DistanceOf(sources, base.coords)
    {
      base := CombineWith(base, sources[i][0]);
      assert base.coords[..i] == Zeros(i);
    }
  }

  /** The coordinates with coordinate pos one higher. */
  function Step(coords: seq<int>, pos: nat): seq<int>
    requires pos < |coords|
  {
    coords[pos := coords[pos] + 1]
  }

  /**
   * IncrementCopy: None when coordinate pos would run off its source;
   * otherwise the copy with that coordinate one higher and its distance
   * summed afresh over the sources.
   */
  method IncrementCopy(e: Element, pos: nat, sources: seq<seq<Element>>) returns (r: Option<Element>)
    requires InRange(sources, e.coords)
    ensures r.None? <==> pos < |e.coords| && e.coords[pos] + 1 >= |sources[pos]|
    ensures r.Some? ==> r.value.coords == (if pos < |e.coords| then Step(e.coords, pos) else e.coords)
    ensures r.Some? ==> InRange(sources, r.value.coords) && r.value.distance == DistanceOf(sources, r.value.coords)
  {
    ghost var target := if pos < |e.coords| then Step(e.coords, pos) else e.coords;
    var coords := [];
    var distance := 0.0;
    for i := 0 to |e.coords|
      invariant |coords| == i && forall k :: 0 <= k < i ==> coords[k] == target[k]
      invariant pos < i ==> e.coords[pos] + 1 < |sources[pos]|
      invariant InRange(sources, coords) && distance == DistanceOf(sources, coords)
    {
      var c := if i == pos then e.coords[i] + 1 else e.coords[i];
      if i == pos && c >= |sources[i]| {
        return None;
      }
      DistanceSnoc(sources, coords, c);
      coords := coords + [c];
      distance := distance + sources[i][c].distance;
    }
    assert coords == target;
    return Some(Element(coords, distance));
  }

  lemma DistanceSnoc(sources: seq<seq<Element>>, coords: seq<int>, c: int)
    requires InRange(sources, coords) && |coords| < |sources| && 0 <= c < |sources[|coords|]|
    ensures InRange(sources, coords + [c])
    ensures DistanceOf(sources, coords + [c]) == DistanceOf(sources, coords) + sources[|coords|][c].distance
  {
    assert (coords + [c])[..|coords|] == coords;
  }

  /** With sorted sources a step never gets closer. */
  lemma StepNotCloser(sources: seq<seq<Element>>, coords: seq<int>, pos: nat)
    requires SourcesSorted(sources) && InRange(sources, coords)
    requires pos < |coords| && coords[pos] + 1 < |sources[pos]|
    ensures InRange(sources, Step(coords, pos))
    ensures DistanceOf(sources, coords) <= DistanceOf(sources, Step(coords, pos))
  {
    DistanceMonotone(sources, coords, Step(coords, pos));
  }

  /** The ids of a list of elements. */
  function Ids(es: seq<Element>, length: int): set<int>
  {
    set k | 0 <= k < |es| :: Id(es[k].coords, length)
  }

  predicate DistinctIds(es: seq<Element>, length: int)
  {
    forall j, k :: 0 <= j < k < |es| ==> Id(es[j].coords, length) != Id(es[k].coords, length)
  }

  predicate Ascending(es: seq<Element>)
  {
    forall j, k :: 0 <= j <= k < |es| ==> es[j].distance <= es[k].distance
  }

  /** The element at k is of least distance in q: the one heap.Pop returns. */
  predicate IsLeast(q: seq<Element>, k: int)
  {
    0 <= k < |q| && forall j :: 0 <= j < |q| ==> q[k].distance <= q[j].distance
  }

  function Remove(q: seq<Element>, k: nat): seq<Element>
    requires k < |q|
  {
    q[..k] + q[k + 1..]
  }

  /** A non-empty queue has an element of least distance. */
  lemma {:induction false} LeastExists(q: seq<Element>)
    requires |q| > 0
    ensures exists k :: IsLeast(q, k)
  {
    if |q| > 1 {
      var init := q[..|q| - 1];
      LeastExists(init);
      var k :| IsLeast(init, k);
      if q[k].distance <= q[|q| - 1].distance {
        assert IsLeast(q, k);
      } else {
        assert IsLeast(q, |q| - 1);
      }
    } else {
      assert IsLeast(q, 0);
    }
  }

  predicate AllWellFormed(sources: seq<seq<Element>>, es: seq<Element>)
  {
    forall k :: 0 <= k < |es| ==> WellFormed(sources, es[k])
  }

  /** The inserted ids are exactly the ids of the queued and popped elements, no id twice. */
  predicate IdsTracked(length: nat, inserted: set<int>, queue: seq<Element>, final: seq<Element>)
  {
    inserted == Ids(queue, length) + Ids(final, length)
    && DistinctIds(queue, length) && DistinctIds(final, length)
    && (forall j, k :: 0 <= j < |final| && 0 <= k < |queue| ==> Id(final[j].coords, length) != Id(queue[k].coords, length))
  }

  /** The pops ascend and nothing queued is closer than the last pop. */
  predicate PopOrder(queue: seq<Element>, final: seq<Element>)
  {
    Ascending(final) && (|final| > 0 ==> forall k :: 0 <= k < |queue| ==> final[|final| - 1].distance <= queue[k].distance)
  }

  /**
   * What holds of the search state between steps: every queued or popped
   * element is a well-formed combination; the inserted ids are exactly their
   * ids, all distinct; the base has been inserted; and, with sorted sources,
   * the popped elements ascend and nothing queued is closer than the last pop.
   */
  ghost predicate SearchInv(sources: seq<seq<Element>>, length: nat, inserted: set<int>, queue: seq<Element>, final: seq<Element>)
  {
    AllWellFormed(sources, queue) && AllWellFormed(sources, final)
    && IdsTracked(length, inserted, queue, final)
    && Id(Zeros(|sources|), length) in inserted
    && |final| <= length
    && (SourcesSorted(sources) ==> PopOrder(queue, final))
  }

  /** Every existing one-step successor of e at a position below upto has been inserted. */
  ghost predicate Expanded(sources: seq<seq<Element>>, length: nat, inserted: set<int>, e: Element, upto: int)
  {
    forall i :: 0 <= i < upto && i < |e.coords| && i < |sources| && e.coords[i] + 1 < |sources[i]| ==>
      Id(Step(e.coords, i), length) in inserted
  }

  ghost predicate AllExpanded(sources: seq<seq<Element>>, length: nat, inserted: set<int>, final: seq<Element>, count: int)
  {
    forall k :: 0 <= k < count && k < |final| ==> Expanded(sources, length, inserted, final[k], |sources|)
  }

  lemma IdsSnoc(es: seq<Element>, e: Element, length: int)
    ensures Ids(es + [e], length) == Ids(es, length) + {Id(e.coords, length)}
  {
    var s := es + [e];
    assert forall k :: 0 <= k < |es| ==> s[k] == es[k];
    assert s[|es|] == e;
  }

  lemma IdsRemove(q: seq<Element>, k: nat, length: int)
    requires k < |q|
    ensures Ids(q, length) == Ids(Remove(q, k), length) + {Id(q[k].coords, length)}
  {
    var r := Remove(q, k);
    assert forall j :: 0 <= j < k ==> r[j] == q[j];
    assert forall j :: k < j < |q| ==> r[j - 1] == q[j];
  }

  lemma InsertKeepsIds(length: nat, inserted: set<int>, queue: seq<Element>, final: seq<Element>, e: Element)
    requires IdsTracked(length, inserted, queue, final) && Id(e.coords, length) !in inserted
    ensures IdsTracked(length, inserted + {Id(e.coords, length)}, queue + [e], final)
  {
    IdsSnoc(queue, e, length);
    var q := queue + [e];
    assert forall k :: 0 <= k < |queue| ==> q[k] == queue[k];
    assert forall k :: 0 <= k < |queue| ==> Id(queue[k].coords, length) in Ids(queue, length);
    assert forall k :: 0 <= k < |final| ==> Id(final[k].coords, length) in Ids(final, length);
  }

  lemma InsertKeepsOrder(queue: seq<Element>, final: seq<Element>, e: Element)
    requires PopOrder(queue, final) && |final| > 0 && final[|final| - 1].distance <= e.distance
    ensures PopOrder(queue + [e], final)
  {
  }

  /** Pushing a new well-formed element, no closer than the last pop, keeps the invariant. */
  lemma InsertKeeps(sources: seq<seq<Element>>, length: nat, inserted: set<int>, queue: seq<Element>, final: seq<Element>, e: Element)
    requires SearchInv(sources, length, inserted, queue, final)
    requires WellFormed(sources, e) && Id(e.coords, length) !in inserted
    requires SourcesSorted(sources) ==> |final| > 0 && final[|final| - 1].distance <= e.distance
    ensures SearchInv(sources, length, inserted + {Id(e.coords, length)}, queue + [e], final)
  {
    InsertKeepsIds(length, inserted, queue, final, e);
    if SourcesSorted(sources) {
      InsertKeepsOrder(queue, final, e);
    }
    assert AllWellFormed(sources, queue + [e]) by {
      var q := queue + [e];
      assert forall k :: 0 <= k < |queue| ==> q[k] == queue[k];
    }
  }

  lemma PopKeepsIds(length: nat, inserted: set<int>, queue: seq<Element>, final: seq<Element>, k: nat)
    requires IdsTracked(length, inserted, queue, final) && k < |queue|
    ensures IdsTracked(length, inserted, Remove(queue, k), final + [queue[k]])
  {
    var q, f := Remove(queue, k), final + [queue[k]];
    IdsRemove(queue, k, length);
    IdsSnoc(final, queue[k], length);
    assert forall j :: 0 <= j < k ==> q[j] == queue[j];
    assert forall j :: k <= j < |q| ==> q[j] == queue[j + 1];
    assert forall j :: 0 <= j < |final| ==> f[j] == final[j];
  }

  lemma PopKeepsOrder(queue: seq<Element>, final: seq<Element>, k: nat)
    requires PopOrder(queue, final) && IsLeast(queue, k)
    ensures PopOrder(Remove(queue, k), final + [queue[k]])
  {
    var q, f := Remove(queue, k), final + [queue[k]];
    assert forall j :: 0 <= j < k ==> q[j] == queue[j];
    assert forall j :: k <= j < |q| ==> q[j] == queue[j + 1];
    assert forall j :: 0 <= j < |final| ==> f[j] == final[j];
  }

  /** Popping a least element when fewer than length were popped keeps the invariant. */
  lemma PopKeeps(sources: seq<seq<Element>>, length: nat, inserted: set<int>, queue: seq<Element>, final: seq<Element>, k: nat)
    requires SearchInv(sources, length, inserted, queue, final)
    requires IsLeast(queue, k) && |final| < length
    ensures SearchInv(sources, length, inserted, Remove(queue, k), final + [queue[k]])
  {
    PopKeepsIds(length, inserted, queue, final, k);
    if SourcesSorted(sources) {
      PopKeepsOrder(queue, final, k);
    }
    PopKeepsWellFormed(sources, queue, final, k);
  }

  lemma PopKeepsWellFormed(sources: seq<seq<Element>>, queue: seq<Element>, final: seq<Element>, k: nat)
    requires AllWellFormed(sources, queue) && AllWellFormed(sources, final) && k < |queue|
    ensures AllWellFormed(sources, Remove(queue, k)) && AllWellFormed(sources, final + [queue[k]])
  {
    var q, f := Remove(queue, k), final + [queue[k]];
    assert forall j :: 0 <= j < k ==> q[j] == queue[j];
    assert forall j :: k <= j < |q| ==> q[j] == queue[j + 1];
    assert forall j :: 0 <= j < |final| ==> f[j] == final[j];
  }

  /** An inserted id of a combination, when every digit is below length, is a queued or popped element. */
  lemma InsertedIsPresent(sources: seq<seq<Element>>, length: nat, inserted: set<int>, queue: seq<Element>, final: seq<Element>, x: seq<int>)
    requires SearchInv(sources, length, inserted, queue, final)
    requires forall i :: 0 <= i < |sources| ==> |sources[i]| <= length
    requires IsCombination(sources, x) && Id(x, length) in inserted
    ensures (exists k :: 0 <= k < |queue| && queue[k].coords == x) || (exists k :: 0 <= k < |final| && final[k].coords == x)
  {
    if Id(x, length) in Ids(queue, length) {
      var k :| 0 <= k < |queue| && Id(queue[k].coords, length) == Id(x, length);
      IdInjective(queue[k].coords, x, length);
    } else {
      var k :| 0 <= k < |final| && Id(final[k].coords, length) == Id(x, length);
      IdInjective(final[k].coords, x, length);
    }
  }

  function Sum(x: seq<int>): int
  {
    if |x| == 0 then 0 else Sum(x[..|x| - 1]) + x[|x| - 1]
  }

  /** Lowering one coordinate of a combination lowers its sum by one. */
  lemma {:induction false} SumStepDown(x: seq<int>, i: nat)
    requires i < |x|
    ensures Sum(x[i := x[i] - 1]) == Sum(x) - 1
  {
    var n := |x|;
    var w := x[i := x[i] - 1];
    assert w[..n - 1] == if i < n - 1 then x[..n - 1][i := x[i] - 1] else x[..n - 1];
    if i < n - 1 {
      SumStepDown(x[..n - 1], i);
    }
  }

  lemma {:induction false} SumNonNegative(x: seq<int>)
    requires forall i :: 0 <= i < |x| ==> x[i] >= 0
    ensures Sum(x) >= 0
  {
    if |x| > 0 {
      SumNonNegative(x[..|x| - 1]);
    }
  }

  /**
   * The frontier: a combination that was never popped lies pointwise above
   * some queued element. Every combination is reached from the base by
   * single steps, and every popped element had all its steps inserted.
   */
  lemma {:induction false} Frontier(sources: seq<seq<Element>>, length: nat, inserted: set<int>, queue: seq<Element>, final: seq<Element>, x: seq<int>)
    requires SearchInv(sources, length, inserted, queue, final)
    requires AllExpanded(sources, length, inserted, final, |final|)
    requires forall i :: 0 <= i < |sources| ==> |sources[i]| <= length
    requires IsCombination(sources, x) && forall k :: 0 <= k < |final| ==> final[k].coords != x
    ensures exists k :: 0 <= k < |queue| && Below(queue[k].coords, x)
    decreases Sum(x)
  {
    if i :| 0 <= i < |x| && x[i] != 0 {
      var w := x[i := x[i] - 1];
      StepDown(sources, x, i);
      if k :| 0 <= k < |final| && final[k].coords == w {
        PredecessorPopped(sources, length, inserted, queue, final, x, i, k);
      } else {
        Frontier(sources, length, inserted, queue, final, w);
        var j :| 0 <= j < |queue| && Below(queue[j].coords, w);
        assert Below(queue[j].coords, x);
      }
    } else {
      assert x == Zeros(|sources|);
      PresentInQueue(sources, length, inserted, queue, final, x);
    }
  }

  /** Lowering a non-zero coordinate of a combination gives a combination one step below it. */
  lemma StepDown(sources: seq<seq<Element>>, x: seq<int>, i: nat)
    requires IsCombination(sources, x) && i < |x| && x[i] != 0
    ensures IsCombination(sources, x[i := x[i] - 1])
    ensures Step(x[i := x[i] - 1], i) == x
    ensures 0 <= Sum(x[i := x[i] - 1]) < Sum(x)
  {
    assert Step(x[i := x[i] - 1], i) == x;
    SumStepDown(x, i);
    SumNonNegative(x[i := x[i] - 1]);
  }

  /** A combination one step above a popped element is queued, since that element was expanded. */
  lemma PredecessorPopped(sources: seq<seq<Element>>, length: nat, inserted: set<int>, queue: seq<Element>, final: seq<Element>, x: seq<int>, i: nat, k: nat)
    requires SearchInv(sources, length, inserted, queue, final)
    requires AllExpanded(sources, length, inserted, final, |final|)
    requires forall i :: 0 <= i < |sources| ==> |sources[i]| <= length
    requires IsCombination(sources, x) && forall k :: 0 <= k < |final| ==> final[k].coords != x
    requires i < |x| && x[i] != 0 && k < |final| && final[k].coords == x[i := x[i] - 1]
    ensures exists j :: 0 <= j < |queue| && Below(queue[j].coords, x)
  {
    StepDown(sources, x, i);
    assert Expanded(sources, length, inserted, final[k], |sources|);
    PresentInQueue(sources, length, inserted, queue, final, x);
  }

  /** An inserted combination never popped is queued, and lies below itself. */
  lemma PresentInQueue(sources: seq<seq<Element>>, length: nat, inserted: set<int>, queue: seq<Element>, final: seq<Element>, x: seq<int>)
    requires SearchInv(sources, length, inserted, queue, final)
    requires forall i :: 0 <= i < |sources| ==> |sources[i]| <= length
    requires IsCombination(sources, x) && Id(x, length) in inserted
    requires forall k :: 0 <= k < |final| ==> final[k].coords != x
    ensures exists k :: 0 <= k < |queue| && Below(queue[k].coords, x)
  {
    InsertedIsPresent(sources, length, inserted, queue, final, x);
    var k :| 0 <= k < |queue| && queue[k].coords == x;
    assert Below(queue[k].coords, x);
  }

  class DistanceSearchQueue {
    var inserted: set<int>
    var sources: seq<seq<Element>>
    var final: seq<Element>
    var queue: seq<Element>
    var length: nat

    constructor (length: nat, sources: seq<seq<Element>>)
      ensures this.length == length && this.sources == sources
      ensures inserted == {} && queue == [] && final == []
    {
      this.inserted := {};
      this.queue := [];
      this.final := [];
      this.sources := sources;
      this.length := length;
    }

    /**
     * Insert: nothing for None or an id already seen; otherwise the id is
     * recorded and the element pushed.
     */
    method Insert(e: Option<Element>) returns (added: bool)
      modifies this
      ensures sources == old(sources) && length == old(length) && final == old(final)
      ensures added <==> e.Some? && Id(e.value.coords, length) !in old(inserted)
      ensures added ==> inserted == old(inserted) + {Id(e.value.coords, length)} && queue == old(queue) + [e.value]
      ensures !added ==> inserted == old(inserted) && queue == old(queue)
    {
      if e.None? {
        return false;
      }
      var id := ElementId(e.value, length);
      if id in inserted {
        return false;
      }
      inserted := inserted + {id};
      queue := queue + [e.value];
      return true;
    }

    /** Pop: the element heap.Pop moved to the end leaves the queue and is appended to final. */
    method Pop(k: nat)
      requires k < |queue|
      modifies this
      ensures sources == old(sources) && length == old(length) && inserted == old(inserted)
      ensures queue == Remove(old(queue), k) && final == old(final) + [old(queue)[k]]
    {
      var e := queue[k];
      queue := Remove(queue, k);
      final := final + [e];
    }

    /**
     * GetNextCandidateToExpand: None once length elements were popped or the
     * queue is empty; otherwise a least element, popped.
     */
    method GetNextCandidateToExpand() returns (c: Option<Element>, ghost k: nat)
      modifies this
      ensures sources == old(sources) && length == old(length) && inserted == old(inserted)
      ensures c.None? <==> |old(final)| == length || |old(queue)| == 0
      ensures c.None? ==> queue == old(queue) && final == old(final)
      ensures c.Some? ==> IsLeast(old(queue), k) && c.value == old(queue)[k]
      ensures c.Some? ==> queue == Remove(old(queue), k) && final == old(final) + [c.value]
    {
      if |final| == length || |queue| == 0 {
        return None, 0;
      }
      LeastExists(queue);
      var least :| IsLeast(queue, least);
      var e := queue[least];
      Pop(least);
      return Some(e), least;
    }

    /**
     * Search: the popped elements, in pop order. They are distinct
     * combinations, at most length of them; with sorted sources they ascend
     * in distance and no combination left out is closer than any of them;
     * and when fewer than length were found, every combination was found.
     * The last two need every source no longer than length, so that ids
     * cannot collide.
     */
    method Search() returns (r: seq<Element>)
      requires queue == [] && final == [] && inserted == {}
      requires Indexed(sources)
      modifies this
      ensures sources == old(sources) && length == old(length)
      ensures r == final && |r| <= length
      ensures forall k :: 0 <= k < |r| ==> WellFormed(sources, r[k])
      ensures forall j, k :: 0 <= j < k < |r| ==> r[j].coords != r[k].coords
      ensures SourcesSorted(sources) ==> Ascending(r)
      ensures (forall i :: 0 <= i < |sources| ==> |sources[i]| <= length) && |r| < length ==>
        forall x :: IsCombination(sources, x) ==> exists k :: 0 <= k < |r| && r[k].coords == x
      ensures (forall i :: 0 <= i < |sources| ==> |sources[i]| <= length) && SourcesSorted(sources) ==>
        forall x, k :: IsCombination(sources, x) && (forall j :: 0 <= j < |r| ==> r[j].coords != x) && 0 <= k < |r| ==>
          r[k].distance <= DistanceOf(sources, x)
    {
      InsertBase();
      while true
        invariant sources == old(sources) && length == old(length)
        invariant Searching(sources, length, inserted, queue, final)
        decreases length - |final|
      {
        ghost var (queue0, final0) := (queue, final);
        var c, k := GetNextCandidateToExpand();
        if c.None? {
          r := final;
          SearchResult(sources, length, inserted, queue, final);
          return;
        }
        PopStartsExpansion(sources, length, inserted, queue0, final0, k);
        Expand(c.value);
      }
    }

    /** The first step of Search: the all-zeros base element is inserted. */
    method InsertBase()
      requires queue == [] && final == [] && inserted == {}
      requires Indexed(sources)
      modifies this
      ensures sources == old(sources) && length == old(length)
      ensures Searching(sources, length, inserted, queue, final)
    {
      var base := BaseElement(sources);
      var _ := Insert(Some(base));
      assert queue == [base] && inserted == {Id(base.coords, length)};
      SearchStart(sources, length, base);
    }

    /** Inserts every existing one-step successor of the element just popped. */
    method Expand(c: Element)
      requires ExpandState(sources, length, inserted, queue, final, c, 0)
      modifies this
      ensures sources == old(sources) && length == old(length) && final == old(final)
      ensures Searching(sources, length, inserted, queue, final)
    {
      for s := 0 to |sources|
        invariant sources == old(sources) && length == old(length) && final == old(final)
        invariant ExpandState(sources, length, inserted, queue, final, c, s)
      {
        ExpandAt(c, s);
      }
      AllExpandedLast(sources, length, inserted, final);
    }

    /** One turn of the expansion loop: the successor at s, if any, is inserted unless seen. */
    method ExpandAt(c: Element, s: nat)
      requires s < |sources| && ExpandState(sources, length, inserted, queue, final, c, s)
      modifies this
      ensures sources == old(sources) && length == old(length) && final == old(final)
      ensures ExpandState(sources, length, inserted, queue, final, c, s + 1)
    {
      ghost var (inserted0, queue0) := (inserted, queue);
      var next := IncrementCopy(c, s, sources);
      if next.Some? && SourcesSorted(sources) {
        StepNotCloser(sources, c.coords, s);
      }
      var added := Insert(next);
      if added {
        InsertKeeps(sources, length, inserted0, queue0, final, next.value);
      }
      ExpandedGrow(sources, length, inserted0, inserted, c, s);
      AllExpandedGrow(sources, length, inserted0, inserted, final, |final| - 1);
    }
  }

  /** The state between two pops: the invariant, and every pop expanded. */
  ghost predicate Searching(sources: seq<seq<Element>>, length: nat, inserted: set<int>, queue: seq<Element>, final: seq<Element>)
  {
    SearchInv(sources, length, inserted, queue, final)
    && AllExpanded(sources, length, inserted, final, |final|)
  }

  /** The search starts with the base alone inserted and queued. */
  lemma SearchStart(sources: seq<seq<Element>>, length: nat, base: Element)
    requires base.coords == Zeros(|sources|) && WellFormed(sources, base)
    ensures Searching(sources, length, {Id(base.coords, length)}, [base], [])
  {
    IdsSnoc([], base, length);
    assert [] + [base] == [base];
  }

  /** A pop starts the expansion of the popped element. */
  lemma PopStartsExpansion(sources: seq<seq<Element>>, length: nat, inserted: set<int>, queue: seq<Element>, final: seq<Element>, k: nat)
    requires Searching(sources, length, inserted, queue, final)
    requires IsLeast(queue, k) && |final| < length
    ensures ExpandState(sources, length, inserted, Remove(queue, k), final + [queue[k]], queue[k], 0)
  {
    PopKeeps(sources, length, inserted, queue, final, k);
    AllExpandedSnoc(sources, length, inserted, final, queue[k]);
  }

  /** The state while the successors of c, the last pop, below position s are being inserted. */
  ghost predicate ExpandState(sources: seq<seq<Element>>, length: nat, inserted: set<int>, queue: seq<Element>, final: seq<Element>, c: Element, s: int)
  {
    |final| > 0 && c == final[|final| - 1]
    && SearchInv(sources, length, inserted, queue, final)
    && AllExpanded(sources, length, inserted, final, |final| - 1)
    && Expanded(sources, length, inserted, c, s)
  }

  lemma ExpandedGrow(sources: seq<seq<Element>>, length: nat, ins0: set<int>, ins1: set<int>, e: Element, upto: int)
    requires ins0 <= ins1 && Expanded(sources, length, ins0, e, upto)
    requires 0 <= upto < |e.coords| && upto < |sources| && e.coords[upto] + 1 < |sources[upto]| ==>
      Id(Step(e.coords, upto), length) in ins1
    ensures Expanded(sources, length, ins1, e, upto + 1)
  {
  }

  lemma AllExpandedGrow(sources: seq<seq<Element>>, length: nat, ins0: set<int>, ins1: set<int>, final: seq<Element>, count: int)
    requires ins0 <= ins1 && AllExpanded(sources, length, ins0, final, count)
    ensures AllExpanded(sources, length, ins1, final, count)
  {
    forall k | 0 <= k < count && k < |final|
      ensures Expanded(sources, length, ins1, final[k], |sources|)
    {
      assert Expanded(sources, length, ins0, final[k], |sources|);
    }
  }

  lemma AllExpandedLast(sources: seq<seq<Element>>, length: nat, inserted: set<int>, final: seq<Element>)
    requires |final| > 0 && AllExpanded(sources, length, inserted, final, |final| - 1)
    requires Expanded(sources, length, inserted, final[|final| - 1], |sources|)
    ensures AllExpanded(sources, length, inserted, final, |final|)
  {
  }

  lemma AllExpandedSnoc(sources: seq<seq<Element>>, length: nat, inserted: set<int>, final: seq<Element>, e: Element)
    requires AllExpanded(sources, length, inserted, final, |final|)
    ensures AllExpanded(sources, length, inserted, final + [e], |final|)
  {
    var f := final + [e];
    assert forall k :: 0 <= k < |final| ==> f[k] == final[k];
  }

  /** What the invariant gives once the search stops. */
  lemma SearchResult(sources: seq<seq<Element>>, length: nat, inserted: set<int>, queue: seq<Element>, final: seq<Element>)
    requires Searching(sources, length, inserted, queue, final)
    requires |final| == length || |queue| == 0
    ensures |final| <= length
    ensures forall k :: 0 <= k < |final| ==> WellFormed(sources, final[k])
    ensures forall j, k :: 0 <= j < k < |final| ==> final[j].coords != final[k].coords
    ensures SourcesSorted(sources) ==> Ascending(final)
    ensures (forall i :: 0 <= i < |sources| ==> |sources[i]| <= length) && |final| < length ==>
      forall x :: IsCombination(sources, x) ==> exists k :: 0 <= k < |final| && final[k].coords == x
    ensures (forall i :: 0 <= i < |sources| ==> |sources[i]| <= length) && SourcesSorted(sources) ==>
      forall x, k :: IsCombination(sources, x) && (forall j :: 0 <= j < |final| ==> final[j].coords != x) && 0 <= k < |final| ==>
        final[k].distance <= DistanceOf(sources, x)
  {
    if forall i :: 0 <= i < |sources| ==> |sources[i]| <= length {
      forall x | IsCombination(sources, x) && (forall j :: 0 <= j < |final| ==> final[j].coords != x)
        ensures |final| == length
        ensures SourcesSorted(sources) ==> forall k :: 0 <= k < |final| ==> final[k].distance <= DistanceOf(sources, x)
      {
        Frontier(sources, length, inserted, queue, final, x);
        var q :| 0 <= q < |queue| && Below(queue[q].coords, x);
        if SourcesSorted(sources) {
          DistanceMonotone(sources, queue[q].coords, x);
        }
      }
    }
  }
}
