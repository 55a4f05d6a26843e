/**
 * The PIR database of pir/db.go: batching parameters, keywords, expansion of
 * a DPF query into one field element per row, and the inner-product answer.
 * DPF evaluation (dpfc.Evaluate under the query's PRF key) is outside this
 * model and is supplied as the function `evaluate`.
 */
module Database {
  import opened Field
  import opened Wrappers
  import opened Query

  datatype DbError =
    | NoBatchingParameters       // "no batching parameters specified"
    | InvalidBatchingParameters  // "invalid batching parameters"
    | KeywordsNotSorted          // "keywords not sorted"
    | KeywordCountMismatch       // "number of keywords should match database size"

  /** One server's evaluation of a DPF key share at a point, under the PRF key. */
  type Evaluator = (PrfKey, DpfKey, nat) -> FP

  predicate NonDecreasing(s: seq<nat>)
  {
    forall i :: 0 <= i < |s| - 1 ==> s[i] <= s[i + 1]
  }

  /** The answer's accumulation: Σ xs[k]·ys[k] with field Add and Multiply, left to right. */
  function FieldDot(xs: seq<FP>, ys: seq<FP>): FP
    requires |xs| <= |ys|
  {
    if |xs| == 0 then 0 else Add(FieldDot(xs[..|xs| - 1], ys), Multiply(xs[|xs| - 1], ys[|xs| - 1]))
  }

  /** The same inner product over the integers. */
  function Dot(xs: seq<FP>, ys: seq<FP>): nat
    requires |xs| <= |ys|
  {
    if |xs| == 0 then 0 else Dot(xs[..|xs| - 1], ys) + (xs[|xs| - 1] as nat) * (ys[|xs| - 1] as nat)
  }

  predicate InField(s: seq<FP>)
  {
    forall i :: 0 <= i < |s| ==> s[i] < FieldPrime
  }

  lemma {:induction false} FieldDotIsDotMod(xs: seq<FP>, ys: seq<FP>)
    requires |xs| <= |ys| && InField(xs) && InField(ys)
    ensures FieldDot(xs, ys) == Dot(xs, ys) % FieldPrime
  {
    if |xs| > 0 {
      var n := |xs| - 1;
      assert InField(xs[..n]);
      FieldDotIsDotMod(xs[..n], ys);
      AddMultiplyStep(Dot(xs[..n], ys), FieldDot(xs[..n], ys), xs[n], ys[n]);
    }
  }

  /** One accumulation step of the answer loop, in modular terms. */
  lemma AddMultiplyStep(dot: nat, acc: FP, x: FP, y: FP)
    requires acc == dot % FieldPrime && x < FieldPrime && y < FieldPrime
    ensures Add(acc, Multiply(x, y)) == (dot + (x as nat) * (y as nat)) % FieldPrime
  {
    var m: nat := (x as nat) * (y as nat);
    var prod := Multiply(x, y);
    assert prod == m % FieldPrime;
    ModSumBoth(dot, m);
  }

  lemma ModSumBoth(a: nat, b: nat)
    ensures (a % FieldPrime + b % FieldPrime) % FieldPrime == (a + b) % FieldPrime
  {
    ModSumLeft(a, b % FieldPrime);
    ModSumLeft(b, a);
  }

  lemma AddOfResidues(x: nat, y: nat)
    ensures Add(x % FieldPrime, y % FieldPrime) == (x + y) % FieldPrime
  {
    ModSumBoth(x, y);
  }

  lemma ModMulRight(x: nat, y: nat)
    ensures (x * y) % FieldPrime == (x * (y % FieldPrime)) % FieldPrime
  {
    var q := y / FieldPrime;
    assert y == q * FieldPrime + y % FieldPrime;
    assert x * y == (x * q) * FieldPrime + x * (y % FieldPrime);
    ModAddMultiple(x * (y % FieldPrime), x * q);
  }

  /** The indicator of row q. */
  function Indicator(q: nat, k: nat): nat
  {
    if k == q then 1 else 0
  }

  /**
   * Linearity of the answer: when two bit vectors add up, row by row, to the
   * indicator of row q, the two integer inner products add up to Data[q]
   * modulo p (to 0 when q is beyond the rows).
   */
  lemma {:induction false} DotLinear(data: seq<FP>, a: seq<FP>, b: seq<FP>, q: nat)
    requires |data| <= |a| && |data| <= |b|
    requires forall k :: 0 <= k < |data| ==> (a[k] + b[k]) % FieldPrime == Indicator(q, k)
    ensures (Dot(data, a) + Dot(data, b)) % FieldPrime == (if q < |data| then data[q] else 0) % FieldPrime
  {
    if |data| > 0 {
      var n := |data| - 1;
      DotLinear(data[..n], a, b, q);
      var prev := Dot(data[..n], a) + Dot(data[..n], b);
      var d: nat, x: nat, y: nat := data[n], a[n], b[n];
      var last := d * x + d * y;
      assert last == d * (x + y);
      assert Dot(data, a) + Dot(data, b) == prev + last;
      ModMulRight(d, x + y);
      assert last % FieldPrime == (data[n] * Indicator(q, n)) % FieldPrime;
      ModSumBoth(prev, last);
      ModSumBoth((if q < n then data[q] else 0), data[n] * Indicator(q, n));
      if q < n {
        assert data[..n][q] == data[q];
      }
    }
  }

  /** Adding two answers in the field is adding their integer inner products modulo p. */
  lemma {:induction false} AnswersAdd(data: seq<FP>, a: seq<FP>, b: seq<FP>)
    requires |data| <= |a| && |data| <= |b| && InField(data) && InField(a) && InField(b)
    ensures Add(FieldDot(data, a), FieldDot(data, b)) == (Dot(data, a) + Dot(data, b)) % FieldPrime
  {
    FieldDotIsDotMod(data, a);
    FieldDotIsDotMod(data, b);
    AddOfResidues(Dot(data, a), Dot(data, b));
  }

  /** Two servers' answers over the same rows recover to Data[q] exactly. */
  lemma {:induction false} QueryLinearity(data: seq<FP>, a: seq<FP>, b: seq<FP>, q: nat)
    requires |data| <= |a| && |data| <= |b| && InField(data) && InField(a) && InField(b)
    requires forall k :: 0 <= k < |data| ==> (a[k] + b[k]) % FieldPrime == Indicator(q, k)
    ensures Add(FieldDot(data, a), FieldDot(data, b)) == (if q < |data| then data[q] else 0)
  {
    AnswersAdd(data, a, b);
    DotLinear(data, a, b, q);
    var sum := Dot(data, a) + Dot(data, b);
    var target: nat := if q < |data| then data[q] else 0;
    assert sum % FieldPrime == target % FieldPrime;
    assert target < FieldPrime;
    SmallMod(target);
  }

  /** The key a row is evaluated at: its keyword, or its index. */
  function RowKey(keywords: seq<nat>, isKeywordBased: bool, i: nat): nat
    requires isKeywordBased ==> i < |keywords|
  {
    if isKeywordBased then keywords[i] else i
  }

  /** Position i of ExpandSharedQuery's array: evaluated only on the absolute positions [start, stop). */
  function ExpandedAt(keywords: seq<nat>, query: QueryShare, evaluate: Evaluator, start: int, stop: int, i: nat): FP
    requires query.isKeywordBased && start <= i < stop ==> i < |keywords|
  {
    if start <= i < stop then evaluate(query.prfKey, query.dpfKey, RowKey(keywords, query.isKeywordBased, i)) else 0
  }

  /** ExpandSharedQuery's array: DBSize entries. */
  function Expanded(keywords: seq<nat>, dbSize: nat, query: QueryShare, evaluate: Evaluator, start: int, stop: int): (bits: seq<FP>)
    requires start < stop ==> 0 <= start && stop <= dbSize
    requires query.isKeywordBased && start < stop ==> stop <= |keywords|
    ensures |bits| == dbSize
    ensures forall i :: 0 <= i < dbSize ==> bits[i] == ExpandedAt(keywords, query, evaluate, start, stop, i)
  {
    seq(dbSize, i requires 0 <= i < dbSize => ExpandedAt(keywords, query, evaluate, start, stop, i))
  }

  /** The answer for rows [start, stop), reading `bits` from its position 0 (relative to start). */
  function Answer(data: seq<FP>, bits: seq<FP>, start: int, stop: int): FP
    requires start < stop ==> 0 <= start && stop <= |data| && stop - start <= |bits|
  {
    if start < stop then FieldDot(data[start..stop], bits) else 0
  }

  /** Valid batching parameters, as PrivateSecretSharedBatchQuery checks them before it starts. */
  predicate BatchingValid(batchSize: int, starts: seq<int>, stops: seq<int>)
  {
    batchSize != 0 && batchSize == |starts| && batchSize == |stops|
  }

  /**
   * Bucket b can be expanded and answered without an index out of range: a
   * non-empty range lies within the database and, for a keyword query,
   * within the keywords.
   */
  predicate BucketFits(keywords: seq<nat>, dbSize: int, starts: seq<int>, stops: seq<int>, query: QueryShare, b: nat)
    requires b < |starts| && b < |stops|
  {
    starts[b] < stops[b] ==> 0 <= starts[b] && stops[b] <= dbSize && (query.isKeywordBased ==> stops[b] <= |keywords|)
  }

  /**
   * The batched query runs to its end without a panic: valid parameters, no
   * more queries than buckets, and every queried bucket in range.
   */
  predicate BatchRuns(batchSize: int, starts: seq<int>, stops: seq<int>, keywords: seq<nat>, dbSize: int,
                      queries: seq<QueryShare>)
  {
    BatchingValid(batchSize, starts, stops) && |queries| <= batchSize &&
    forall b :: 0 <= b < |queries| ==> BucketFits(keywords, dbSize, starts, stops, queries[b], b)
  }

  /**
   * The answer PrivateSecretSharedBatchQuery computes for bucket b, as
   * written: ExpandSharedQuery fills absolute positions, the answer reads
   * relative ones.
   */
  function BatchAnswerAsWritten(data: seq<FP>, keywords: seq<nat>, dbSize: nat, starts: seq<int>, stops: seq<int>,
                                query: QueryShare, evaluate: Evaluator, b: nat): FP
    requires b < |starts| && b < |stops| && |data| == dbSize
    requires starts[b] < stops[b] ==> 0 <= starts[b] && stops[b] <= dbSize
    requires query.isKeywordBased && starts[b] < stops[b] ==> stops[b] <= |keywords|
  {
    Answer(data, Expanded(keywords, dbSize, query, evaluate, starts[b], stops[b]), starts[b], stops[b])
  }

  /** The evidently intended bucket answer: the answer reads the bits at the bucket's own positions. */
  function BatchAnswer(data: seq<FP>, keywords: seq<nat>, dbSize: nat, starts: seq<int>, stops: seq<int>,
                       query: QueryShare, evaluate: Evaluator, b: nat): FP
    requires b < |starts| && b < |stops| && |data| == dbSize
    requires starts[b] < stops[b] ==> 0 <= starts[b] && stops[b] <= dbSize
    requires query.isKeywordBased && starts[b] < stops[b] ==> stops[b] <= |keywords|
  {
    var bits := Expanded(keywords, dbSize, query, evaluate, starts[b], stops[b]);
    if starts[b] < stops[b] then Answer(data, bits[starts[b]..stops[b]], starts[b], stops[b]) else 0
  }

  /** A pair of index-query keys whose evaluations add up to the indicator of row q. */
  ghost predicate PointShares(evaluate: Evaluator, prfKey: PrfKey, keyA: DpfKey, keyB: DpfKey, q: nat)
  {
    forall x: nat ::
      evaluate(prfKey, keyA, x) < FieldPrime && evaluate(prfKey, keyB, x) < FieldPrime &&
      (evaluate(prfKey, keyA, x) + evaluate(prfKey, keyB, x)) % FieldPrime == Indicator(q, x)
  }

  /**
   * Corrected batch answers recover row q when q lies in bucket b's range and
   * 0 otherwise.
   */
  lemma BatchAnswerRecovers(data: seq<FP>, keywords: seq<nat>, dbSize: nat, starts: seq<int>, stops: seq<int>,
                            qa: QueryShare, qb: QueryShare, evaluate: Evaluator, b: nat, q: nat)
    requires b < |starts| && b < |stops| && |data| == dbSize && InField(data)
    requires starts[b] < stops[b] ==> 0 <= starts[b] && stops[b] <= dbSize
    requires !qa.isKeywordBased && !qb.isKeywordBased && qa.prfKey == qb.prfKey
    requires PointShares(evaluate, qa.prfKey, qa.dpfKey, qb.dpfKey, q)
    ensures Add(BatchAnswer(data, keywords, dbSize, starts, stops, qa, evaluate, b),
                BatchAnswer(data, keywords, dbSize, starts, stops, qb, evaluate, b))
            == (if starts[b] <= q < stops[b] then data[q] else 0)
  {
    var start, stop := starts[b], stops[b];
    if start < stop {
      var ea := Expanded(keywords, dbSize, qa, evaluate, start, stop)[start..stop];
      var eb := Expanded(keywords, dbSize, qb, evaluate, start, stop)[start..stop];
      var rows := data[start..stop];
      var relq: nat := if start <= q then q - start else stop - start;
      WindowShares(keywords, dbSize, qa, qb, evaluate, start, stop, q, relq);
      assert InField(rows);
      QueryLinearity(rows, ea, eb, relq);
      if start <= q < stop {
        assert rows[relq] == data[q];
      }
    }
  }

  /**
   * The window [start, stop) of two expanded point-function shares adds up,
   * position by position, to the indicator of q's position in the window.
   */
  lemma WindowShares(keywords: seq<nat>, dbSize: nat, qa: QueryShare, qb: QueryShare, evaluate: Evaluator,
                     start: nat, stop: nat, q: nat, relq: nat)
    requires start < stop <= dbSize
    requires !qa.isKeywordBased && !qb.isKeywordBased && qa.prfKey == qb.prfKey
    requires PointShares(evaluate, qa.prfKey, qa.dpfKey, qb.dpfKey, q)
    requires relq == if start <= q then q - start else stop - start
    ensures var ea := Expanded(keywords, dbSize, qa, evaluate, start, stop)[start..stop];
      var eb := Expanded(keywords, dbSize, qb, evaluate, start, stop)[start..stop];
      InField(ea) && InField(eb) &&
      forall k :: 0 <= k < stop - start ==> (ea[k] + eb[k]) % FieldPrime == Indicator(relq, k)
  {
    var ea := Expanded(keywords, dbSize, qa, evaluate, start, stop)[start..stop];
    var eb := Expanded(keywords, dbSize, qb, evaluate, start, stop)[start..stop];
    forall k | 0 <= k < stop - start
      ensures ea[k] < FieldPrime && eb[k] < FieldPrime && (ea[k] + eb[k]) % FieldPrime == Indicator(relq, k)
    {
      assert ea[k] == evaluate(qa.prfKey, qa.dpfKey, start + k);
      assert eb[k] == evaluate(qb.prfKey, qb.dpfKey, start + k);
      assert Indicator(q, start + k) == Indicator(relq, k);
    }
  }

  /** The bug needs a bucket that does not start at row 0: at start 0 both readings agree. */
  lemma BatchAnswerAgreesFromRowZero(data: seq<FP>, keywords: seq<nat>, dbSize: nat, starts: seq<int>, stops: seq<int>,
                                     query: QueryShare, evaluate: Evaluator, b: nat)
    requires b < |starts| && b < |stops| && |data| == dbSize && starts[b] == 0
    requires starts[b] < stops[b] ==> 0 <= starts[b] && stops[b] <= dbSize
    requires query.isKeywordBased && starts[b] < stops[b] ==> stops[b] <= |keywords|
    ensures BatchAnswerAsWritten(data, keywords, dbSize, starts, stops, query, evaluate, b)
         == BatchAnswer(data, keywords, dbSize, starts, stops, query, evaluate, b)
  {
    if starts[b] < stops[b] {
      var bits := Expanded(keywords, dbSize, query, evaluate, starts[b], stops[b]);
      FieldDotPrefix(data[0..stops[b]], bits, bits[0..stops[b]]);
    }
  }

  /** FieldDot reads only the first |xs| entries of its second argument. */
  lemma {:induction false} FieldDotPrefix(xs: seq<FP>, ys: seq<FP>, zs: seq<FP>)
    requires |xs| <= |ys| && |xs| <= |zs| && ys[..|xs|] == zs[..|xs|]
    ensures FieldDot(xs, ys) == FieldDot(xs, zs)
  {
    if |xs| > 0 {
      var n := |xs| - 1;
      assert ys[..n] == zs[..n] by {
        assert forall k :: 0 <= k < n ==> ys[k] == ys[..|xs|][k];
      }
      FieldDotPrefix(xs[..n], ys, zs);
      assert ys[n] == ys[..|xs|][n];
    }
  }

  /** The unbatched query recovers row q (0 beyond the database) from two point-function shares. */
  lemma FullQueryRecovers(data: seq<FP>, keywords: seq<nat>, qa: QueryShare, qb: QueryShare, evaluate: Evaluator, q: nat)
    requires InField(data)
    requires !qa.isKeywordBased && !qb.isKeywordBased && qa.prfKey == qb.prfKey
    requires PointShares(evaluate, qa.prfKey, qa.dpfKey, qb.dpfKey, q)
    ensures Add(Answer(data, Expanded(keywords, |data|, qa, evaluate, 0, |data|), 0, |data|),
                Answer(data, Expanded(keywords, |data|, qb, evaluate, 0, |data|), 0, |data|))
            == (if q < |data| then data[q] else 0)
  {
    BatchAnswerAgreesFromRowZero(data, keywords, |data|, [0], [|data|], qa, evaluate, 0);
    BatchAnswerAgreesFromRowZero(data, keywords, |data|, [0], [|data|], qb, evaluate, 0);
    BatchAnswerRecovers(data, keywords, |data|, [0], [|data|], qa, qb, evaluate, 0, q);
  }

  /**
   * As written, bucket 1 of a two-row database split into [0,1) and [1,2)
   * recovers 0 instead of Data[1] = 7 for the index query of row 1.
   */
  lemma BatchAnswerAsWrittenLosesRow()
    ensures var data: seq<FP> := [5, 7];
      var qa := QueryShare(DpfKey([], 0, 0), [0, 0, 0, 0, 0, 0, 0, 0, 0, 0, 0, 0, 0, 0, 0, 0], 0, false);
      var qb := QueryShare(DpfKey([], 0, 1), [0, 0, 0, 0, 0, 0, 0, 0, 0, 0, 0, 0, 0, 0, 0, 0], 1, false);
      var evaluate: Evaluator := (prf, key: DpfKey, x) => if key.index == 0 && x == 1 then 1 else 0;
      && PointShares(evaluate, qa.prfKey, qa.dpfKey, qb.dpfKey, 1)
      && Add(BatchAnswerAsWritten(data, [], 2, [0, 1], [1, 2], qa, evaluate, 1),
             BatchAnswerAsWritten(data, [], 2, [0, 1], [1, 2], qb, evaluate, 1)) == 0
      && data[1] == 7
  {
    var data: seq<FP> := [5, 7];
    var qa := QueryShare(DpfKey([], 0, 0), [0, 0, 0, 0, 0, 0, 0, 0, 0, 0, 0, 0, 0, 0, 0, 0], 0, false);
    var qb := QueryShare(DpfKey([], 0, 1), [0, 0, 0, 0, 0, 0, 0, 0, 0, 0, 0, 0, 0, 0, 0, 0], 1, false);
    var evaluate: Evaluator := (prf, key: DpfKey, x) => if key.index == 0 && x == 1 then 1 else 0;
    var ea := Expanded([], 2, qa, evaluate, 1, 2);
    var eb := Expanded([], 2, qb, evaluate, 1, 2);
    assert ea[0] == 0 && eb[0] == 0;
    assert data[1..2] == [7] && [7][..0] == [];
    assert Multiply(7, 0) == 0;
    assert FieldDot([7], ea) == Add(FieldDot([], ea), Multiply(7, ea[0])) == 0;
    assert FieldDot([7], eb) == Add(FieldDot([], eb), Multiply(7, eb[0])) == 0;
    assert BatchAnswerAsWritten(data, [], 2, [0, 1], [1, 2], qa, evaluate, 1) == 0;
    assert BatchAnswerAsWritten(data, [], 2, [0, 1], [1, 2], qb, evaluate, 1) == 0;
  }

  class Database {
    var dbSize: int
    var data: seq<FP>
    var keywords: seq<nat>     // a nil slice is the empty sequence
    var batchSize: int
    var batchStarts: seq<int>
    var batchStops: seq<int>

    /** NewDatabase: the zero value. */
    constructor ()
      ensures dbSize == 0 && data == [] && keywords == [] && batchSize == 0 && batchStarts == [] && batchStops == []
    {
      dbSize, data, keywords := 0, [], [];
      batchSize, batchStarts, batchStops := 0, [], [];
    }

    /**
     * Rejects a zero batch size, a size that disagrees with either list, and
     * unsorted keywords; on error nothing changes, on success only the three
     * batching fields do.
     */
    method SetBatchingParameters(newBatchSize: int, starts: seq<int>, stops: seq<int>) returns (err: Option<DbError>)
      modifies this
      ensures newBatchSize == 0 ==> err == Some(NoBatchingParameters)
      ensures newBatchSize != 0 && (newBatchSize != |starts| || newBatchSize != |stops|) ==> err == Some(InvalidBatchingParameters)
      ensures newBatchSize != 0 && newBatchSize == |starts| && newBatchSize == |stops| ==>
        (err == Some(KeywordsNotSorted) <==> !NonDecreasing(keywords)) && (err.None? <==> NonDecreasing(keywords))
      ensures err.Some? ==> unchanged(this)
      ensures err.None? ==> batchSize == newBatchSize && batchStarts == starts && batchStops == stops
      ensures dbSize == old(dbSize) && data == old(data) && keywords == old(keywords)
    {
      if newBatchSize == 0 {
        return Some(NoBatchingParameters);
      }
      if newBatchSize != |starts| || newBatchSize != |stops| {
        return Some(InvalidBatchingParameters);
      }
      if |keywords| != 0 {
        var i := 0;
        while i < |keywords| - 1
          invariant 0 <= i <= |keywords| - 1
          invariant forall j :: 0 <= j < i ==> keywords[j] <= keywords[j + 1]
        {
          if keywords[i] > keywords[i + 1] {
            return Some(KeywordsNotSorted);
          }
          i := i + 1;
        }
      }
      batchSize, batchStarts, batchStops := newBatchSize, starts, stops;
      return None;
    }

    method BuildForData(newData: seq<FP>)
      modifies this
      ensures data == newData && dbSize == |newData|
      ensures keywords == old(keywords) && batchSize == old(batchSize)
      ensures batchStarts == old(batchStarts) && batchStops == old(batchStops)
    {
      data := newData;
      dbSize := |newData|;
    }

    /** Accepts exactly DBSize keywords; otherwise reports the mismatch and keeps the old ones. */
    method SetKeywords(newKeywords: seq<nat>) returns (err: Option<DbError>)
      modifies this
      ensures err.None? <==> |newKeywords| == dbSize
      ensures err.Some? ==> err == Some(KeywordCountMismatch) && unchanged(this)
      ensures err.None? ==> keywords == newKeywords
      ensures dbSize == old(dbSize) && data == old(data) && batchSize == old(batchSize)
      ensures batchStarts == old(batchStarts) && batchStops == old(batchStops)
    {
      if |newKeywords| != dbSize {
        return Some(KeywordCountMismatch);
      }
      keywords := newKeywords;
      return None;
    }

    /**
     * BuildForData followed by SetKeywords: the data is always replaced, the
     * keywords only when there is one per row, and the batching parameters
     * are kept.
     */
    method BuildForKeysAndValues(keys: seq<nat>, newData: seq<FP>) returns (err: Option<DbError>)
      modifies this
      ensures data == newData && dbSize == |newData|
      ensures err.None? <==> |keys| == |newData|
      ensures err.Some? ==> err == Some(KeywordCountMismatch)
      ensures keywords == if err.None? then keys else old(keywords)
      ensures batchSize == old(batchSize)
      ensures batchStarts == old(batchStarts) && batchStops == old(batchStops)
    {
      BuildForData(newData);
      err := SetKeywords(keys);
    }

    /**
     * Expands a query into DBSize field elements: position i in [start, stop)
     * holds the share evaluated at row i's key (its keyword for a keyword
     * query, i itself otherwise); every other position is 0.
     * The requires on start, stop and the keywords stand for the source's
     * index-out-of-range panics on `bits[i]` and `db.Keywords[i]`.
     */
    method ExpandSharedQuery(query: QueryShare, start: int, stop: int, evaluate: Evaluator) returns (bits: seq<FP>)
      requires 0 <= dbSize
      requires start < stop ==> 0 <= start && stop <= dbSize
      requires query.isKeywordBased && start < stop ==> stop <= |keywords|
      ensures |bits| == dbSize
      ensures forall i :: 0 <= i < dbSize ==>
        bits[i] == if start <= i < stop then evaluate(query.prfKey, query.dpfKey, if query.isKeywordBased then keywords[i] else i) else 0
      ensures bits == Expanded(keywords, dbSize, query, evaluate, start, stop)
    {
      var arr := new FP[dbSize](_ => 0);
      var i := start;
      while i < stop
        invariant start < stop ==> start <= i <= stop
        invariant forall j :: 0 <= j < arr.Length ==>
          arr[j] == if start <= j < i && j < stop then evaluate(query.prfKey, query.dpfKey, RowKey(keywords, query.isKeywordBased, j)) else 0
      {
        var key := if query.isKeywordBased then keywords[i] else i;
        arr[i] := evaluate(query.prfKey, query.dpfKey, key);
        i := i + 1;
      }
      bits := arr[..];
    }

    /**
     * The answer share for rows [start, stop): Σ_k Data[start+k]·bits[k] in
     * the field, with `bits` read from position 0.
     * The requires stands for the source's index-out-of-range panics on
     * `db.Data[row]` and `bits[i]`.
     */
    method PrivateSecretSharedQueryWithExpandedBits(query: QueryShare, bits: seq<FP>, start: int, stop: int)
      returns (res: SecretSharedQueryResult)
      requires start < stop ==> 0 <= start && stop <= |data| && stop - start <= |bits|
      ensures res.share == Answer(data, bits, start, stop)
      ensures start < stop && InField(data) && InField(bits) ==>
        res.share == Dot(data[start..stop], bits) % FieldPrime && res.share < FieldPrime
      ensures stop <= start ==> res.share == 0
    {
      var result: FP := 0;
      var i := 0;
      var row := start;
      while row < stop
        invariant start < stop ==> start <= row <= stop
        invariant i == row - start || stop <= start
        invariant result == if start < stop then FieldDot(data[start..row], bits) else 0
      {
        assert data[start..row + 1][..row - start] == data[start..row];
        result := Add(result, Multiply(data[row], bits[i]));
        i := i + 1;
        row := row + 1;
      }
      res := SecretSharedQueryResult(result);
      if start < stop {
        assert row == stop;
        if InField(data) && InField(bits) {
          FieldDotIsDotMod(data[start..stop], bits);
        }
      }
    }

    /**
     * Expand over the whole database, then answer over all rows.
     * The requires stand for the source's index-out-of-range panics: Data
     * shorter than DBSize, or, for a keyword query, fewer keywords than rows.
     */
    method PrivateSecretSharedQuery(query: QueryShare, evaluate: Evaluator) returns (res: SecretSharedQueryResult)
      requires dbSize == |data|
      requires query.isKeywordBased ==> dbSize <= |keywords|
      ensures res.share == Answer(data, Expanded(keywords, dbSize, query, evaluate, 0, dbSize), 0, dbSize)
    {
      var bits := ExpandSharedQuery(query, 0, dbSize, evaluate);
      res := PrivateSecretSharedQueryWithExpandedBits(query, bits, 0, dbSize);
    }

    /**
     * The batched query as written: bucket b expands over [BatchStarts[b],
     * BatchStops[b]) and answers with those bits read from position 0;
     * buckets past the supplied queries stay nil (None). None for the whole
     * result where the source panics: missing or invalid batching
     * parameters, more queries than buckets, or a bucket out of range.
     */
    method PrivateSecretSharedBatchQuery(queries: seq<QueryShare>, evaluate: Evaluator)
      returns (results: Option<seq<Option<SecretSharedQueryResult>>>)
      requires dbSize == |data|
      ensures results.None? <==> !BatchRuns(batchSize, batchStarts, batchStops, keywords, dbSize, queries)
      ensures results.Some? ==> |results.value| == batchSize
      ensures results.Some? ==> forall b :: 0 <= b < batchSize ==> (results.value[b] ==
        if b < |queries| then
          Some(SecretSharedQueryResult(BatchAnswerAsWritten(data, keywords, dbSize, batchStarts, batchStops, queries[b], evaluate, b)))
        else None)
    {
      if batchSize == 0 || batchSize != |batchStarts| || batchSize != |batchStops| {
        // panics: no or invalid batching parameters
        return None;
      }
      var out := new Option<SecretSharedQueryResult>[batchSize](_ => None);
      var b := 0;
      while b < |queries|
        invariant 0 <= b <= |queries| && b <= batchSize
        invariant forall j :: 0 <= j < b ==> BucketFits(keywords, dbSize, batchStarts, batchStops, queries[j], j)
        invariant forall j :: 0 <= j < batchSize ==> (out[j] ==
          if j < b then
            Some(SecretSharedQueryResult(BatchAnswerAsWritten(data, keywords, dbSize, batchStarts, batchStops, queries[j], evaluate, j)))
          else None)
      {
        if b == batchSize {
          // panics: index out of range on BatchStarts
          return None;
        }
        var start := batchStarts[b];
        var stop := batchStops[b];
        if start < stop && (start < 0 || stop > dbSize || (queries[b].isKeywordBased && stop > |keywords|)) {
          // panics: index out of range in ExpandSharedQuery
          assert !BucketFits(keywords, dbSize, batchStarts, batchStops, queries[b], b);
          return None;
        }
        var bits := ExpandSharedQuery(queries[b], start, stop, evaluate);
        var r := PrivateSecretSharedQueryWithExpandedBits(queries[b], bits, start, stop);
        out[b] := Some(r);
        b := b + 1;
      }
      results := Some(out[..]);
    }

    /** The batched query with each bucket answered from its own positions of the expanded bits; the same panics. */
    method PrivateSecretSharedBatchQueryCorrected(queries: seq<QueryShare>, evaluate: Evaluator)
      returns (results: Option<seq<Option<SecretSharedQueryResult>>>)
      requires dbSize == |data|
      ensures results.None? <==> !BatchRuns(batchSize, batchStarts, batchStops, keywords, dbSize, queries)
      ensures results.Some? ==> |results.value| == batchSize
      ensures results.Some? ==> forall b :: 0 <= b < batchSize ==> (results.value[b] ==
        if b < |queries| then
          Some(SecretSharedQueryResult(BatchAnswer(data, keywords, dbSize, batchStarts, batchStops, queries[b], evaluate, b)))
        else None)
    {
      if batchSize == 0 || batchSize != |batchStarts| || batchSize != |batchStops| {
        // panics: no or invalid batching parameters
        return None;
      }
      var out := new Option<SecretSharedQueryResult>[batchSize](_ => None);
      var b := 0;
      while b < |queries|
        invariant 0 <= b <= |queries| && b <= batchSize
        invariant forall j :: 0 <= j < b ==> BucketFits(keywords, dbSize, batchStarts, batchStops, queries[j], j)
        invariant forall j :: 0 <= j < batchSize ==> (out[j] ==
          if j < b then
            Some(SecretSharedQueryResult(BatchAnswer(data, keywords, dbSize, batchStarts, batchStops, queries[j], evaluate, j)))
          else None)
      {
        if b == batchSize {
          // panics: index out of range on BatchStarts
          return None;
        }
        var start := batchStarts[b];
        var stop := batchStops[b];
        if start < stop && (start < 0 || stop > dbSize || (queries[b].isKeywordBased && stop > |keywords|)) {
          // panics: index out of range in ExpandSharedQuery
          assert !BucketFits(keywords, dbSize, batchStarts, batchStops, queries[b], b);
          return None;
        }
        var bits := ExpandSharedQuery(queries[b], start, stop, evaluate);
        var r := SecretSharedQueryResult(0);
        if start < stop {
          r := PrivateSecretSharedQueryWithExpandedBits(queries[b], bits[start..stop], start, stop);
        }
        out[b] := Some(r);
        b := b + 1;
      }
      results := Some(out[..]);
    }
  }
}
