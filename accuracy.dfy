/**
 * The accuracy simulator of ann/cmd/accuracy/accuracy.go. SimulateQuery
 * walks the LSH tables in order; in each it probes the first `probes`
 * multi-hashes of the query, looks up at most one hash per PBR partition,
 * keeps one row from each non-empty bucket (never the query itself), and
 * stops at the first table that yields anything. The worker then files the
 * query as neither, hit or miss.
 *
 * The multi-hash of table i is the input `multiHash(i)`; rand.Intn is the
 * input `intn(c, n)`, what the c-th call rand.Intn(n) returns; distances
 * and their ratios are inputs, as reals.
 */
module Accuracy {
  import opened Wrappers
  import opened UniversalHash
  import Partition
  import Construct

  /** uint32(queryId): Go keeps the low 32 bits, so -1 becomes 2^32 - 1. */
  function QueryKey(queryId: int): (q: nat)
    ensures q < 0x1_0000_0000
    ensures 0 <= queryId < 0x1_0000_0000 ==> q == queryId
    ensures queryId == -1 ==> q == 0xFFFF_FFFF
  {
    queryId % 0x1_0000_0000
  }

  /** rand.Intn(n) returns a value in [0, n). */
  ghost predicate Bounded(intn: (nat, nat) -> nat)
  {
    forall c: nat, n: nat :: 0 < n ==> intn(c, n) < n
  }

  /** The buckets SimulateQuery can use: well formed, at least one wide. */
  predicate Usable(buckets: Partition.PBRBuckets)
  {
    Partition.Valid(buckets) && buckets.size > 0
  }

  /** Every one of the first `probes` hashes maps to a partition index FindBucket can flag. */
  predicate Routable(buckets: Partition.PBRBuckets, hs: seq<Uint64>, probes: nat)
    requires Usable(buckets)
  {
    probes <= |hs| &&
    forall k :: 0 <= k < probes ==> 0 <= Partition.FindBucket(buckets, hs[k]) < buckets.numBuckets
  }

  /**
   * The row kept from a bucket of several rows after drawing r: collisions[r],
   * or the next one round the bucket when that is the query itself.
   */
  function Kept(collisions: seq<nat>, r: nat, queryKey: nat): (x: nat)
    requires r < |collisions|
    ensures x in collisions
  {
    var r' := if collisions[r] == queryKey then (r + 1) % |collisions| else r;
    collisions[r']
  }

  /** Two or more distinct rows always leave a row that is not the query. */
  lemma KeptAvoidsQuery(collisions: seq<nat>, r: nat, queryKey: nat)
    requires 1 < |collisions| && r < |collisions|
    requires forall i, j :: 0 <= i < j < |collisions| ==> collisions[i] != collisions[j]
    ensures Kept(collisions, r, queryKey) != queryKey
  {
    if collisions[r] == queryKey {
      var r' := (r + 1) % |collisions|;
      assert r' == if r + 1 == |collisions| then 0 else r + 1;
      assert r' != r;
    }
  }

  /** The state of one table's probing: partitions used, rows kept, draws made, hashes looked up. */
  datatype Probing = Probing(used: set<int>, res: seq<nat>, draws: nat, lookups: seq<Uint64>)

  /** One probe h: skipped when its partition is used, otherwise a lookup that may keep one row. */
  function Visit(st: Probing, table: map<nat, seq<nat>>, buckets: Partition.PBRBuckets,
                 h: Uint64, queryKey: nat, intn: (nat, nat) -> nat): Probing
    requires Usable(buckets) && Bounded(intn)
  {
    var b := Partition.FindBucket(buckets, h);
    if b in st.used then st
    else
      var collisions := Construct.Lookup(table, h);
      var looked := st.(used := st.used + {b}, lookups := st.lookups + [h]);
      if |collisions| > 1 then
        looked.(res := st.res + [Kept(collisions, intn(st.draws, |collisions|), queryKey)], draws := st.draws + 1)
      else if |collisions| == 1 && collisions[0] != queryKey then
        looked.(res := st.res + [collisions[0]])
      else looked
  }

  /** The state after the first n probes of hs, from st. */
  function Scan(st: Probing, table: map<nat, seq<nat>>, buckets: Partition.PBRBuckets,
                hs: seq<Uint64>, n: nat, queryKey: nat, intn: (nat, nat) -> nat): Probing
    requires Usable(buckets) && Bounded(intn) && n <= |hs|
  {
    if n == 0 then st
    else Visit(Scan(st, table, buckets, hs, n - 1, queryKey, intn), table, buckets, hs[n - 1], queryKey, intn)
  }

  /** A fresh table's probing, after `draws` earlier draws. */
  function Start(draws: nat): Probing
  {
    Probing({}, [], draws, [])
  }

  /**
   * The bookkeeping of one table's probing: the partitions looked up are
   * pairwise distinct and are exactly the used flags; no more rows are kept
   * than lookups made, and draws are made only for lookups.
   */
  ghost predicate OnePerPartition(buckets: Partition.PBRBuckets, st: Probing, draws: nat)
    requires Usable(buckets)
  {
    (forall i, j :: 0 <= i < j < |st.lookups| ==>
      Partition.FindBucket(buckets, st.lookups[i]) != Partition.FindBucket(buckets, st.lookups[j])) &&
    (forall b :: b in st.used <==> exists i :: 0 <= i < |st.lookups| && Partition.FindBucket(buckets, st.lookups[i]) == b) &&
    |st.res| <= |st.lookups| && draws <= st.draws <= draws + |st.lookups|
  }

  /** One probe keeps the bookkeeping. */
  lemma VisitOnePerPartition(st: Probing, table: map<nat, seq<nat>>, buckets: Partition.PBRBuckets,
      h: Uint64, queryKey: nat, intn: (nat, nat) -> nat, draws: nat)
    requires Usable(buckets) && Bounded(intn) && OnePerPartition(buckets, st, draws)
    ensures OnePerPartition(buckets, Visit(st, table, buckets, h, queryKey, intn), draws)
  {
    var b := Partition.FindBucket(buckets, h);
    if b !in st.used {
      var st' := Visit(st, table, buckets, h, queryKey, intn);
      assert st'.lookups == st.lookups + [h];
      forall b' | b' in st'.used
        ensures exists i :: 0 <= i < |st'.lookups| && Partition.FindBucket(buckets, st'.lookups[i]) == b'
      {
        if b' == b {
          assert Partition.FindBucket(buckets, st'.lookups[|st.lookups|]) == b';
        } else {
          var i :| 0 <= i < |st.lookups| && Partition.FindBucket(buckets, st.lookups[i]) == b';
          assert st'.lookups[i] == st.lookups[i];
        }
      }
    }
  }

  /** Every table's probing keeps the bookkeeping of OnePerPartition. */
  lemma {:induction false} ScanOnePerPartition(table: map<nat, seq<nat>>, buckets: Partition.PBRBuckets,
      hs: seq<Uint64>, n: nat, queryKey: nat, intn: (nat, nat) -> nat, draws: nat)
    requires Usable(buckets) && Bounded(intn) && n <= |hs|
    ensures OnePerPartition(buckets, Scan(Start(draws), table, buckets, hs, n, queryKey, intn), draws)
  {
    if n > 0 {
      ScanOnePerPartition(table, buckets, hs, n - 1, queryKey, intn, draws);
      VisitOnePerPartition(Scan(Start(draws), table, buckets, hs, n - 1, queryKey, intn), table, buckets, hs[n - 1], queryKey, intn, draws);
    }
  }

  /**
   * A table yields nothing exactly when every bucket it looked up was empty
   * or held only the query; it then draws nothing.
   */
  lemma {:induction false} ScanEmpty(table: map<nat, seq<nat>>, buckets: Partition.PBRBuckets,
      hs: seq<Uint64>, n: nat, queryKey: nat, intn: (nat, nat) -> nat, draws: nat)
    requires Usable(buckets) && Bounded(intn) && n <= |hs|
    ensures var st := Scan(Start(draws), table, buckets, hs, n, queryKey, intn);
      |st.res| == 0 <==>
        forall i :: 0 <= i < |st.lookups| ==>
          Construct.Lookup(table, st.lookups[i]) == [] || Construct.Lookup(table, st.lookups[i]) == [queryKey]
    ensures var st := Scan(Start(draws), table, buckets, hs, n, queryKey, intn);
      |st.res| == 0 ==> st.draws == draws
  {
    if n > 0 {
      ScanEmpty(table, buckets, hs, n - 1, queryKey, intn, draws);
      var st := Scan(Start(draws), table, buckets, hs, n - 1, queryKey, intn);
      var st' := Scan(Start(draws), table, buckets, hs, n, queryKey, intn);
      var b := Partition.FindBucket(buckets, hs[n - 1]);
      if b !in st.used {
        var c := Construct.Lookup(table, hs[n - 1]);
        assert st'.lookups == st.lookups + [hs[n - 1]];
        assert st'.lookups[|st.lookups|] == hs[n - 1];
        assert forall i :: 0 <= i < |st.lookups| ==> st'.lookups[i] == st.lookups[i];
        assert c == [queryKey] <==> |c| == 1 && c[0] == queryKey;
        if c == [] || c == [queryKey] {
          assert st'.res == st.res && st'.draws == st.draws;
        } else {
          assert |st'.res| == |st.res| + 1;
        }
      }
    }
  }

  /** The hashes table i is probed with: the cached ones, or its multi-hash when the cache is nil. */
  function Effective(cache: seq<Option<seq<Uint64>>>, multiHash: nat -> seq<Uint64>, i: nat): seq<Uint64>
    requires i < |cache|
  {
    match cache[i]
    case Some(hs) => hs
    case None => multiHash(i)
  }

  /** What SimulateQuery returns: the rows, the table that gave them, and the draws consumed so far. */
  datatype Outcome = Outcome(res: seq<nat>, table: nat, draws: nat)

  /** SimulateQuery from table i on, after `draws` draws. */
  function Simulate(tables: seq<map<nat, seq<nat>>>, cache: seq<Option<seq<Uint64>>>, multiHash: nat -> seq<Uint64>,
                    queryKey: nat, probes: nat, buckets: Partition.PBRBuckets, intn: (nat, nat) -> nat,
                    i: nat, draws: nat): Outcome
    requires Usable(buckets) && Bounded(intn) && |cache| == |tables| && i <= |tables|
    requires forall j :: 0 <= j < |tables| ==> probes <= |Effective(cache, multiHash, j)|
    decreases |tables| - i
  {
    if i == |tables| then Outcome([], |tables|, draws)
    else
      var st := Scan(Start(draws), tables[i], buckets, Effective(cache, multiHash, i), probes, queryKey, intn);
      if |st.res| > 0 then Outcome(st.res, i, st.draws)
      else Simulate(tables, cache, multiHash, queryKey, probes, buckets, intn, i + 1, st.draws)
  }

  /**
   * The table SimulateQuery reports is the first whose probes give a
   * non-empty result, and the result is that table's; when no table gives
   * anything the result is empty and the table is len(tables).
   */
  lemma {:induction false} SimulateFirstHit(tables: seq<map<nat, seq<nat>>>, cache: seq<Option<seq<Uint64>>>,
      multiHash: nat -> seq<Uint64>, queryKey: nat, probes: nat, buckets: Partition.PBRBuckets,
      intn: (nat, nat) -> nat, i: nat, draws: nat)
    requires Usable(buckets) && Bounded(intn) && |cache| == |tables| && i <= |tables|
    requires forall j :: 0 <= j < |tables| ==> probes <= |Effective(cache, multiHash, j)|
    ensures var o := Simulate(tables, cache, multiHash, queryKey, probes, buckets, intn, i, draws);
      i <= o.table <= |tables| && (o.table == |tables| <==> |o.res| == 0)
    ensures var o := Simulate(tables, cache, multiHash, queryKey, probes, buckets, intn, i, draws);
      forall j :: i <= j < o.table ==>
        |Scan(Start(draws), tables[j], buckets, Effective(cache, multiHash, j), probes, queryKey, intn).res| == 0
    ensures var o := Simulate(tables, cache, multiHash, queryKey, probes, buckets, intn, i, draws);
      o.table < |tables| ==>
        var st := Scan(Start(draws), tables[o.table], buckets, Effective(cache, multiHash, o.table), probes, queryKey, intn);
        o.res == st.res && o.draws == st.draws
    decreases |tables| - i
  {
    if i < |tables| {
      var st := Scan(Start(draws), tables[i], buckets, Effective(cache, multiHash, i), probes, queryKey, intn);
      if |st.res| == 0 {
        ScanEmpty(tables[i], buckets, Effective(cache, multiHash, i), probes, queryKey, intn, draws);
        SimulateFirstHit(tables, cache, multiHash, queryKey, probes, buckets, intn, i + 1, st.draws);
      }
    }
  }

  /**
   * SimulateQuery: for each table in order, fill its cache slot with the
   * multi-hash when nil, probe its first `probes` hashes once per partition,
   * and return as soon as a table has kept a row.
   */
  method SimulateQuery(tables: seq<map<nat, seq<nat>>>, multiHash: nat -> seq<Uint64>, cache: array<Option<seq<Uint64>>>,
                       queryId: int, probes: nat, buckets: Partition.PBRBuckets, intn: (nat, nat) -> nat, draws0: nat)
    returns (res: seq<nat>, table: nat, draws: nat)
    requires Usable(buckets) && Bounded(intn) && cache.Length == |tables|
    requires forall j :: 0 <= j < |tables| ==>
      probes <= |Effective(cache[..], multiHash, j)| && Routable(buckets, Effective(cache[..], multiHash, j), probes)
    modifies cache
    ensures Outcome(res, table, draws)
      == Simulate(tables, old(cache[..]), multiHash, QueryKey(queryId), probes, buckets, intn, 0, draws0)
    ensures forall j :: 0 <= j < |tables| ==>
      cache[j] == if j <= table then Some(Effective(old(cache[..]), multiHash, j)) else old(cache[j])
  {
    ghost var cache0 := cache[..];
    var queryKey := QueryKey(queryId);
    res := [];
    draws := draws0;
    var i := 0;
    while i < |tables|
      invariant i <= |tables| && res == []
      invariant Simulate(tables, cache0, multiHash, queryKey, probes, buckets, intn, 0, draws0)
        == Simulate(tables, cache0, multiHash, queryKey, probes, buckets, intn, i, draws)
      invariant forall j :: 0 <= j < |tables| ==>
        cache[j] == if j < i then Some(Effective(cache0, multiHash, j)) else cache0[j]
    {
      var hs := FillSlot(cache, multiHash, i, cache0);
      var st := ProbeTable(tables[i], buckets, hs, probes, queryKey, intn, draws);
      res := st.res;
      draws := st.draws;
      if |res| > 0 {
        table := i;
        return;
      }
      i := i + 1;
    }
    table := |tables|;
  }

  /** SimulateQuery's cache step for table i: a nil slot gets the multi-hash, then the slot's hashes are used. */
  method FillSlot(cache: array<Option<seq<Uint64>>>, multiHash: nat -> seq<Uint64>, i: nat, ghost cache0: seq<Option<seq<Uint64>>>)
    returns (hs: seq<Uint64>)
    requires i < cache.Length == |cache0|
    requires forall j :: 0 <= j < cache.Length ==>
      cache[j] == if j < i then Some(Effective(cache0, multiHash, j)) else cache0[j]
    modifies cache
    ensures hs == Effective(cache0, multiHash, i)
    ensures forall j :: 0 <= j < cache.Length ==>
      cache[j] == if j <= i then Some(Effective(cache0, multiHash, j)) else cache0[j]
  {
    if cache[i].None? {
      cache[i] := Some(multiHash(i));
    }
    hs := cache[i].value;
  }

  /**
   * The inner loop of SimulateQuery over one table: a flag per partition,
   * a lookup for each probe whose partition is not yet flagged.
   */
  method ProbeTable(table: map<nat, seq<nat>>, buckets: Partition.PBRBuckets, hs: seq<Uint64>, probes: nat,
                    queryKey: nat, intn: (nat, nat) -> nat, draws: nat) returns (st: Probing)
    requires Usable(buckets) && Bounded(intn) && Routable(buckets, hs, probes)
    ensures st == Scan(Start(draws), table, buckets, hs, probes, queryKey, intn)
  {
    var bucketsUsed := seq(buckets.numBuckets, _ => false);
    var res: seq<nat> := [];
    var calls := draws;
    var lookups: seq<Uint64> := [];
    var used: set<int> := {};
    var k := 0;
    while k < probes
      invariant k <= probes && |bucketsUsed| == buckets.numBuckets
      invariant Probing(used, res, calls, lookups) == Scan(Start(draws), table, buckets, hs, k, queryKey, intn)
      invariant forall b :: 0 <= b < buckets.numBuckets ==> (bucketsUsed[b] <==> b in used)
      invariant forall b :: b in used ==> 0 <= b < buckets.numBuckets
    {
      var h := hs[k];
      var bucket := Partition.FindBucket(buckets, h);
      if !bucketsUsed[bucket] {
        bucketsUsed := bucketsUsed[bucket := true];
        used := used + {bucket};
        lookups := lookups + [h];
        var collisions := Construct.Lookup(table, h);
        if |collisions| > 1 {
          var r := intn(calls, |collisions|);
          calls := calls + 1;
          if collisions[r] == queryKey {
            r := (r + 1) % |collisions|;
          }
          res := res + [collisions[r]];
        } else if |collisions| == 1 {
          if collisions[0] != queryKey {
            res := res + [collisions[0]];
          }
        }
      }
      k := k + 1;
    }
    st := Probing(used, res, calls, lookups);
  }
}

/**
 * The worker's bookkeeping in ann/cmd/accuracy/accuracy.go: every query is
 * filed as neither (no collision), hit (ratio within c) or miss, and gets one
 * entry in every per-query list. The three Euclidean distances are inputs;
 * the ratios are their float quotients, so a zero best distance gives NaN
 * (0/0) or +Inf (x/0), and both compare false against 5 and c.
 */
module Tally {
  import opened Floats

  datatype Verdict = Neither | Hit | Miss

  /** How a query with n collisions and approximation ratio `ratio` is filed. */
  function Classify(n: nat, ratio: Float, c: real): (v: Verdict)
    ensures v == Neither <==> n == 0
    ensures v == Hit <==> n > 0 && AtMost(ratio, c)
    ensures v == Miss <==> n > 0 && !AtMost(ratio, c)
  {
    if n == 0 then Neither else if AtMost(ratio, c) then Hit else Miss
  }

  /**
   * The approximateRatios entry: NaN without collisions; otherwise the
   * ratio when it is below 5, and 5 for a larger ratio, +Inf or NaN.
   */
  function RatioEntry(n: nat, ratio: Float): (e: Float)
    ensures e.NaN? <==> n == 0
    ensures n > 0 && Below(ratio, 5.0) ==> e == ratio
    ensures n > 0 && !Below(ratio, 5.0) ==> e == Finite(5.0)
    ensures n > 0 && (ratio.NaN? || ratio.PosInf?) ==> e == Finite(5.0)
  {
    if n == 0 then NaN else if Below(ratio, 5.0) then ratio else Finite(5.0)
  }

  /**
   * A query answered while its best distance is 0 (a training query whose
   * point is in the data) has a NaN or infinite ratio: its entry is 5 and it
   * is a miss whatever c is. With a positive best distance the ratio is the
   * real quotient.
   */
  lemma RatioOfDistances(n: nat, bestDist: real, resultDist: real, c: real)
    requires n > 0 && resultDist >= 0.0 && bestDist >= 0.0
    ensures bestDist == 0.0 ==>
      RatioEntry(n, Divide(resultDist, bestDist)) == Finite(5.0) && Classify(n, Divide(resultDist, bestDist), c) == Miss
    ensures bestDist > 0.0 ==>
      Divide(resultDist, bestDist) == Finite(resultDist / bestDist) &&
      (Classify(n, Divide(resultDist, bestDist), c) == Hit <==> resultDist / bestDist <= c)
  {
  }

  /** The number of NaN entries: none exactly when no entry is NaN. */
  function NaNs(rs: seq<Float>): (k: nat)
    ensures k <= |rs|
    ensures k == 0 <==> forall i :: 0 <= i < |rs| ==> !rs[i].NaN?
  {
    if |rs| == 0 then 0 else NaNs(rs[..|rs| - 1]) + (if rs[|rs| - 1].NaN? then 1 else 0)
  }

  lemma NaNsSnoc(rs: seq<Float>, e: Float)
    ensures NaNs(rs + [e]) == NaNs(rs) + (if e.NaN? then 1 else 0)
  {
    assert (rs + [e])[..|rs|] == rs;
  }

  /** The contents of a ThreadRes, as a value. */
  datatype Counts = Counts(hits: nat, misses: nat, neither: nat, ideal: nat,
                           approximateRatios: seq<Float>, bestApproximateRatios: seq<Float>,
                           hitRadii: seq<real>, missRadii: seq<real>,
                           collisionId: seq<int>, tableId: seq<nat>, rawCollisions: seq<seq<nat>>)

  /**
   * Every query filed exactly once: the three counters add up to the
   * number of queries, the NaN ratios are the `neither` ones, and the
   * radius lists follow the hits and misses.
   */
  predicate Consistent(t: Counts)
  {
    var n := |t.tableId|;
    |t.rawCollisions| == n && |t.collisionId| == n && |t.approximateRatios| == n &&
    t.neither + t.hits + t.misses == n && NaNs(t.approximateRatios) == t.neither &&
    |t.bestApproximateRatios| == t.hits + t.misses && t.ideal <= t.hits + t.misses &&
    |t.hitRadii| == t.hits && |t.missRadii| == t.misses
  }

  /**
   * The worker body after SimulateQuery returned (collisions, table): with
   * no collision the query is `neither`; otherwise collisions[r] is the
   * answer, its ratio to the best distance is recorded capped at 5, the
   * ideal answer's ratio is recorded as it is, and the query is a hit when
   * the ratio is within c. The ideal answer, collisions[0], counts separately.
   */
  function Next(t: Counts, collisions: seq<nat>, table: nat, r: nat, ratio: Float, idealRatio: Float,
                c: real, radii: seq<real>): Counts
    requires |collisions| > 0 ==> r < |collisions| && table < |radii|
  {
    var tableId := t.tableId + [table];
    var rawCollisions := t.rawCollisions + [collisions];
    if |collisions| == 0 then
      t.(neither := t.neither + 1, approximateRatios := t.approximateRatios + [NaN],
         collisionId := t.collisionId + [-1], tableId := tableId, rawCollisions := rawCollisions)
    else
      var entry := if Below(ratio, 5.0) then ratio else Finite(5.0);
      var hit := AtMost(ratio, c);
      var ideal := t.ideal + if AtMost(idealRatio, c) then 1 else 0;
      Counts(t.hits + (if hit then 1 else 0), t.misses + (if hit then 0 else 1),
             t.neither, ideal, t.approximateRatios + [entry], t.bestApproximateRatios + [idealRatio],
             if hit then t.hitRadii + [radii[table]] else t.hitRadii,
             if hit then t.missRadii else t.missRadii + [radii[table]],
             t.collisionId + [collisions[r]], tableId, rawCollisions)
  }

  /**
   * Recording a query bumps exactly the counter of its verdict, appends its
   * ratio entry, its ideal ratio (NaN and infinities included), its table and
   * its answer, counts the ideal answer exactly when its ratio is within c,
   * and keeps the bookkeeping consistent.
   */
  lemma NextFiles(t: Counts, collisions: seq<nat>, table: nat, r: nat, ratio: Float, idealRatio: Float,
                  c: real, radii: seq<real>)
    requires |collisions| > 0 ==> r < |collisions| && table < |radii|
    requires Consistent(t)
    ensures var t' := Next(t, collisions, table, r, ratio, idealRatio, c, radii);
      var v := Classify(|collisions|, ratio, c);
      Consistent(t') && |t'.tableId| == |t.tableId| + 1 &&
      t'.neither == t.neither + (if v == Neither then 1 else 0) &&
      t'.hits == t.hits + (if v == Hit then 1 else 0) &&
      t'.misses == t.misses + (if v == Miss then 1 else 0) &&
      t'.approximateRatios == t.approximateRatios + [RatioEntry(|collisions|, ratio)] &&
      t'.bestApproximateRatios == t.bestApproximateRatios + (if v == Neither then [] else [idealRatio]) &&
      t'.ideal == t.ideal + (if v != Neither && AtMost(idealRatio, c) then 1 else 0) &&
      t'.collisionId[|t.collisionId|] == (if |collisions| == 0 then -1 else collisions[r])
  {
    NaNsSnoc(t.approximateRatios, RatioEntry(|collisions|, ratio));
  }

  /** ThreadRes: one worker's counters and per-query lists. */
  class ThreadRes {
    var hits: nat
    var misses: nat
    var neither: nat
    var ideal: nat
    var approximateRatios: seq<Float>
    var bestApproximateRatios: seq<Float>
    var hitRadii: seq<real>
    var missRadii: seq<real>
    var collisionId: seq<int>
    var tableId: seq<nat>
    var rawCollisions: seq<seq<nat>>

    function State(): Counts
      reads this
    {
      Counts(hits, misses, neither, ideal, approximateRatios, bestApproximateRatios,
             hitRadii, missRadii, collisionId, tableId, rawCollisions)
    }

    /** The zero ThreadRes. */
    constructor ()
      ensures State() == Empty()
    {
      hits, misses, neither, ideal := 0, 0, 0, 0;
      approximateRatios, bestApproximateRatios, hitRadii, missRadii := [], [], [], [];
      collisionId, tableId, rawCollisions := [], [], [];
    }

    /**
     * The worker body for one query, in place: the distances from the query
     * to its true nearest neighbour, to the drawn answer and to the ideal
     * answer give the two ratios.
     */
    method Record(collisions: seq<nat>, table: nat, r: nat, bestDist: real, resultDist: real, idealDist: real,
                  c: real, radii: seq<real>)
      requires |collisions| > 0 ==> r < |collisions| && table < |radii|
      modifies this
      ensures State() == Next(old(State()), collisions, table, r, Divide(resultDist, bestDist),
                              Divide(idealDist, bestDist), c, radii)
    {
      tableId := tableId + [table];
      rawCollisions := rawCollisions + [collisions];
      if |collisions| == 0 {
        RecordNeither();
      } else {
        var approximationRatio := Divide(resultDist, bestDist);
        var idealApproximationRatio := Divide(idealDist, bestDist);
        RecordAnswer(collisions[r], approximationRatio, idealApproximationRatio, c, radii[table]);
      }
    }

    /** A query without collisions: counted as neither, with NaN and -1 as its entries. */
    method RecordNeither()
      modifies this`neither, this`approximateRatios, this`collisionId
      ensures neither == old(neither) + 1
      ensures approximateRatios == old(approximateRatios) + [NaN]
      ensures collisionId == old(collisionId) + [-1]
    {
      neither := neither + 1;
      // NaN keeps the per-query lists of the trials aligned
      approximateRatios := approximateRatios + [NaN];
      collisionId := collisionId + [-1];
    }

    /** A query answered by res at the given ratios, found in a table of the given radius. */
    method RecordAnswer(res: nat, ratio: Float, idealRatio: Float, c: real, radius: real)
      modifies this`hits, this`misses, this`ideal, this`approximateRatios, this`bestApproximateRatios
      modifies this`hitRadii, this`missRadii, this`collisionId
      ensures collisionId == old(collisionId) + [res]
      ensures approximateRatios == old(approximateRatios) + [if Below(ratio, 5.0) then ratio else Finite(5.0)]
      ensures bestApproximateRatios == old(bestApproximateRatios) + [idealRatio]
      ensures ideal == old(ideal) + if AtMost(idealRatio, c) then 1 else 0
      ensures AtMost(ratio, c) ==>
        hits == old(hits) + 1 && misses == old(misses) && hitRadii == old(hitRadii) + [radius] && missRadii == old(missRadii)
      ensures !AtMost(ratio, c) ==>
        misses == old(misses) + 1 && hits == old(hits) && missRadii == old(missRadii) + [radius] && hitRadii == old(hitRadii)
    {
      collisionId := collisionId + [res as int];
      if Below(ratio, 5.0) {
        approximateRatios := approximateRatios + [ratio];
      } else {
        // capped at 5 so that the histogram keeps its scale
        approximateRatios := approximateRatios + [Finite(5.0)];
      }
      bestApproximateRatios := bestApproximateRatios + [idealRatio];
      if AtMost(ratio, c) {
        hits := hits + 1;
        hitRadii := hitRadii + [radius];
      } else {
        misses := misses + 1;
        missRadii := missRadii + [radius];
      }
      ideal := ideal + if AtMost(idealRatio, c) then 1 else 0;
    }
  }

  /** The outcome of one query: its collisions, the table, the draw and the three distances. */
  datatype Query = Query(collisions: seq<nat>, table: nat, r: nat, bestDist: real, resultDist: real, idealDist: real)

  /** The query's approximation ratio, resultDist / bestDist in floating point. */
  function Ratio(q: Query): Float
  {
    Divide(q.resultDist, q.bestDist)
  }

  /** How many of the queries are filed as v: none exactly when no query is. */
  function CountOf(qs: seq<Query>, c: real, v: Verdict): (k: nat)
    ensures k <= |qs|
    ensures k == 0 <==> forall i :: 0 <= i < |qs| ==> Classify(|qs[i].collisions|, Ratio(qs[i]), c) != v
  {
    if |qs| == 0 then 0
    else CountOf(qs[..|qs| - 1], c, v) + (if Classify(|qs[|qs| - 1].collisions|, Ratio(qs[|qs| - 1]), c) == v then 1 else 0)
  }

  /** Every query has exactly one verdict: the three counts partition the queries. */
  lemma {:induction false} CountsPartition(qs: seq<Query>, c: real)
    ensures CountOf(qs, c, Neither) + CountOf(qs, c, Hit) + CountOf(qs, c, Miss) == |qs|
  {
    if |qs| > 0 {
      CountsPartition(qs[..|qs| - 1], c);
    }
  }

  /** The queries' draws and tables fit their collisions and the radii. */
  predicate Recordable(qs: seq<Query>, radii: seq<real>)
  {
    forall i :: 0 <= i < |qs| ==> |qs[i].collisions| > 0 ==> qs[i].r < |qs[i].collisions| && qs[i].table < |radii|
  }

  /** The zero ThreadRes. */
  function Empty(): Counts
  {
    Counts(0, 0, 0, 0, [], [], [], [], [], [], [])
  }

  /** The contents of a fresh ThreadRes after recording qs in order. */
  function Recorded(qs: seq<Query>, c: real, radii: seq<real>): Counts
    requires Recordable(qs, radii)
  {
    if |qs| == 0 then Empty()
    else
      var q := qs[|qs| - 1];
      Next(Recorded(qs[..|qs| - 1], c, radii), q.collisions, q.table, q.r, Ratio(q),
           Divide(q.idealDist, q.bestDist), c, radii)
  }

  /**
   * After a section of queries the bookkeeping is consistent, holds one
   * entry per query, and each counter is the number of queries with its
   * verdict.
   */
  lemma {:induction false} RecordedCounts(qs: seq<Query>, c: real, radii: seq<real>)
    requires Recordable(qs, radii)
    ensures var t := Recorded(qs, c, radii);
      Consistent(t) && |t.tableId| == |qs| &&
      t.neither == CountOf(qs, c, Neither) && t.hits == CountOf(qs, c, Hit) && t.misses == CountOf(qs, c, Miss)
  {
    if |qs| > 0 {
      var q := qs[|qs| - 1];
      RecordedCounts(qs[..|qs| - 1], c, radii);
      NextFiles(Recorded(qs[..|qs| - 1], c, radii), q.collisions, q.table, q.r, Ratio(q),
                Divide(q.idealDist, q.bestDist), c, radii);
    }
  }

  /** A worker's loop over its section of queries, each outcome recorded in place. */
  method RecordAll(t: ThreadRes, qs: seq<Query>, c: real, radii: seq<real>)
    requires t.State() == Empty() && Recordable(qs, radii)
    modifies t
    ensures t.State() == Recorded(qs, c, radii)
  {
    for i := 0 to |qs|
      invariant t.State() == Recorded(qs[..i], c, radii)
    {
      var q := qs[i];
      assert qs[..i + 1][..i] == qs[..i] && qs[..i + 1][i] == q;
      t.Record(q.collisions, q.table, q.r, q.bestDist, q.resultDist, q.idealDist, c, radii);
    }
    assert qs[..|qs|] == qs;
  }
}
