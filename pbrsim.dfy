/**
 * The batch-retrieval simulation of scripts/pbrsim.py: the closed form
 * pbr_success of the fraction of a batch that partitioned retrieval gets
 * back, and the experiment that throws unit-weight items into buckets at
 * random and measures the same fraction.
 *
 * Floating point is modelled by exact reals; np.random.choice is an input
 * (`choice`, the bucket drawn for each item); the plots are not modelled.
 */
module PbrSim {
  import opened Wrappers

  // ---------------------------------------------------------------------
  // pbr_success
  // ---------------------------------------------------------------------

  /** q ** e for a natural exponent. */
  function Pow(q: real, e: nat): real
  {
    if e == 0 then 1.0 else q * Pow(q, e - 1)
  }

  /** m * (1 - (1 - 1/m) ** x): how many of m buckets x items thrown uniformly at random occupy, on average. */
  function Occupied(x: nat, m: nat): real
    requires m > 0
  {
    m as real * (1.0 - Pow(1.0 - 1.0 / m as real, x))
  }

  /** pbr_success(x, m): the expected fraction of x items retrieved from m buckets, one item per bucket. */
  function PbrSuccess(x: nat, m: nat): real
    requires x > 0 && m > 0
  {
    Occupied(x, m) / x as real
  }

  /**
   * The closed form is the occupancy process: no item occupies nothing, and
   * the next item adds a bucket exactly with the chance that it lands in one
   * of the m - Occupied(x, m) empty ones.
   */
  lemma OccupiedStep(x: nat, m: nat)
    requires m > 0
    ensures Occupied(0, m) == 0.0
    ensures Occupied(x + 1, m) == Occupied(x, m) + (m as real - Occupied(x, m)) / m as real
  {
    var q := 1.0 - 1.0 / m as real;
    var p := Pow(q, x);
    assert Pow(q, x + 1) == q * p;
    assert m as real * q == m as real - 1.0;
    calc {
      Occupied(x + 1, m);
      m as real - (m as real * q) * p;
      m as real - (m as real - 1.0) * p;
      m as real * (1.0 - p) + p;
    }
    assert (m as real - Occupied(x, m)) / m as real == p;
  }

  /** Powers of a number in [0, 1) stay in [0, 1], and below 1 for a positive exponent. */
  lemma {:induction false} PowUnit(q: real, e: nat)
    requires 0.0 <= q < 1.0
    ensures 0.0 <= Pow(q, e) <= 1.0
    ensures e > 0 ==> Pow(q, e) < 1.0
  {
    if e > 0 {
      PowUnit(q, e - 1);
      var p := Pow(q, e - 1);
      Scale(q, p, 0.0);
      Scale(q, 1.0, p);
    }
  }

  /** Bernoulli's inequality: (1 - t) ** e >= 1 - e t. */
  lemma {:induction false} Bernoulli(t: real, e: nat)
    requires 0.0 < t <= 1.0
    ensures Pow(1.0 - t, e) >= 1.0 - e as real * t
  {
    if e > 0 {
      Bernoulli(t, e - 1);
      var q := 1.0 - t;
      var a := 1.0 - (e - 1) as real * t;
      assert (e - 1) as real == e as real - 1.0;
      Scale(q, Pow(q, e - 1), a);
      assert Pow(q, e) == q * Pow(q, e - 1);
      assert q * a == 1.0 - e as real * t + t * ((e - 1) as real * t);
      Scale((e - 1) as real, t, 0.0);
      Scale(t, (e - 1) as real * t, 0.0);
      assert t * ((e - 1) as real * t) >= 0.0;
      assert q * Pow(q, e - 1) >= q * a;
    } else {
      assert e as real == 0.0;
    }
  }

  lemma Scale(q: real, p: real, a: real)
    requires q >= 0.0 && p >= a
    ensures q * p >= q * a
  {
    assert q * p - q * a == q * (p - a);
  }

  /**
   * pbr_success is a fraction: in (0, 1] for any positive batch and bucket
   * count, and exactly 1 for a batch of one.
   */
  lemma PbrSuccessBounds(x: nat, m: nat)
    requires x > 0 && m > 0
    ensures 0.0 < PbrSuccess(x, m) <= 1.0
    ensures x == 1 ==> PbrSuccess(x, m) == 1.0
  {
    var t := 1.0 / m as real;
    PowUnit(1.0 - t, x);
    Bernoulli(t, x);
    var p := Pow(1.0 - t, x);
    assert m as real * t == 1.0;
    Scale(m as real, x as real * t, 1.0 - p);
    assert m as real * (x as real * t) == x as real * (m as real * t);
    Scale(1.0 - p, m as real, 1.0);
    Fraction(Occupied(x, m), x as real);
    if x == 1 {
      assert p == 1.0 - t;
    }
  }

  // ---------------------------------------------------------------------
  // random_hash
  // ---------------------------------------------------------------------

  /** Every draw names one of n buckets. */
  predicate Draws(choice: seq<nat>, n: nat)
  {
    forall i :: 0 <= i < |choice| ==> choice[i] < n
  }

  /** The bucket totals after item i's weight y[i] is added into bucket choice[i], item by item. */
  function Hashed(y: seq<real>, choice: seq<nat>, n: nat): (counts: seq<real>)
    requires |choice| == |y| && Draws(choice, n)
    ensures |counts| == n
  {
    if |y| == 0 then seq(n, _ => 0.0)
    else
      var k := |y| - 1;
      var counts := Hashed(y[..k], choice[..k], n);
      counts[choice[k] := counts[choice[k]] + y[k]]
  }

  function Sum(s: seq<real>): real
  {
    if |s| == 0 then 0.0 else Sum(s[..|s| - 1]) + s[|s| - 1]
  }

  /** The weight of the items drawn into bucket b. */
  function BucketTotal(y: seq<real>, choice: seq<nat>, b: nat): real
    requires |choice| == |y|
  {
    if |y| == 0 then 0.0
    else BucketTotal(y[..|y| - 1], choice[..|y| - 1], b) + (if choice[|y| - 1] == b then y[|y| - 1] else 0.0)
  }

  /** Each bucket holds exactly the weight of the items drawn into it. */
  lemma {:induction false} HashedBuckets(y: seq<real>, choice: seq<nat>, n: nat, b: nat)
    requires |choice| == |y| && Draws(choice, n) && b < n
    ensures Hashed(y, choice, n)[b] == BucketTotal(y, choice, b)
  {
    if |y| > 0 {
      HashedBuckets(y[..|y| - 1], choice[..|y| - 1], n, b);
    }
  }

  lemma {:induction false} SumZeros(n: nat)
    ensures Sum(seq(n, _ => 0.0)) == 0.0
  {
    if n > 0 {
      SumZeros(n - 1);
      assert seq(n, _ => 0.0)[..n - 1] == seq(n - 1, _ => 0.0);
    }
  }

  lemma {:induction false} SumUpdate(s: seq<real>, b: nat, v: real)
    requires b < |s|
    ensures Sum(s[b := s[b] + v]) == Sum(s) + v
  {
    var t := s[b := s[b] + v];
    if b < |s| - 1 {
      SumUpdate(s[..|s| - 1], b, v);
      assert t[..|s| - 1] == s[..|s| - 1][b := s[b] + v];
    } else {
      assert t[..|s| - 1] == s[..|s| - 1];
    }
  }

  /** Hashing neither loses nor adds weight: the bucket totals add up to the items' weights. */
  lemma {:induction false} HashedTotal(y: seq<real>, choice: seq<nat>, n: nat)
    requires |choice| == |y| && Draws(choice, n)
    ensures Sum(Hashed(y, choice, n)) == Sum(y)
  {
    if |y| == 0 {
      SumZeros(n);
    } else {
      var k := |y| - 1;
      HashedTotal(y[..k], choice[..k], n);
      SumUpdate(Hashed(y[..k], choice[..k], n), choice[k], y[k]);
    }
  }

  /** random_hash(y, nBuckets), with np.random.choice's draws given as `choice`. */
  method RandomHash(y: seq<real>, nBuckets: nat, choice: seq<nat>) returns (counts: array<real>, yBuckets: seq<nat>)
    requires |choice| == |y| && Draws(choice, nBuckets)
    ensures fresh(counts) && counts[..] == Hashed(y, choice, nBuckets) && yBuckets == choice
  {
    counts := new real[nBuckets](_ => 0.0);
    yBuckets := choice;
    for i := 0 to |y|
      invariant counts[..] == Hashed(y[..i], choice[..i], nBuckets)
    {
      assert y[..i + 1][..i] == y[..i] && choice[..i + 1][..i] == choice[..i];
      counts[yBuckets[i]] := counts[yBuckets[i]] + y[i];
    }
    assert y[..|y|] == y && choice[..|y|] == choice;
  }

  // ---------------------------------------------------------------------
  // One trial
  // ---------------------------------------------------------------------

  /** np.count_nonzero. */
  function Nonzero(s: seq<real>): (c: nat)
    ensures c <= |s|
  {
    if |s| == 0 then 0 else Nonzero(s[..|s| - 1]) + (if s[|s| - 1] != 0.0 then 1 else 0)
  }

  lemma {:induction false} NonzeroUpdate(s: seq<real>, b: nat, v: real)
    requires b < |s|
    ensures Nonzero(s[b := v]) + (if s[b] != 0.0 then 1 else 0) == Nonzero(s) + (if v != 0.0 then 1 else 0)
  {
    var t := s[b := v];
    if b < |s| - 1 {
      NonzeroUpdate(s[..|s| - 1], b, v);
      assert t[..|s| - 1] == s[..|s| - 1][b := v];
    } else {
      assert t[..|s| - 1] == s[..|s| - 1];
    }
  }

  lemma {:induction false} NonzeroZeros(n: nat)
    ensures Nonzero(seq(n, _ => 0.0)) == 0
  {
    if n > 0 {
      NonzeroZeros(n - 1);
      assert seq(n, _ => 0.0)[..n - 1] == seq(n - 1, _ => 0.0);
    }
  }

  /** np.ones(n). */
  function Ones(n: nat): seq<real>
  {
    seq(n, _ => 1.0)
  }

  /**
   * With unit weights the buckets hold non-negative counts and at most one
   * bucket per item is non-empty; once there is an item, some bucket is.
   */
  lemma {:induction false} UnitOccupancy(n: nat, choice: seq<nat>, k: nat)
    requires |choice| == n && Draws(choice, k)
    ensures forall b :: 0 <= b < k ==> Hashed(Ones(n), choice, k)[b] >= 0.0
    ensures Nonzero(Hashed(Ones(n), choice, k)) <= n
    ensures n > 0 ==> Nonzero(Hashed(Ones(n), choice, k)) >= 1
  {
    if n == 0 {
      NonzeroZeros(k);
    } else {
      var init := choice[..n - 1];
      assert Ones(n)[..n - 1] == Ones(n - 1);
      UnitOccupancy(n - 1, init, k);
      var before := Hashed(Ones(n - 1), init, k);
      var b := choice[n - 1];
      assert Hashed(Ones(n), choice, k) == before[b := before[b] + 1.0];
      NonzeroUpdate(before, b, before[b] + 1.0);
    }
  }

  /** A bucket factor: how many buckets per item. */
  type Factor = r: real | r >= 0.0

  /** int(factor * n): the number of buckets. */
  function BucketCount(factor: Factor, n: nat): nat
  {
    (factor * n as real).Floor
  }

  /**
   * The success of one trial: n unit items into int(factor * n) buckets.
   * None is the ZeroDivisionError of the quotient: for a factor other than 1
   * the integer num_empty is the divisor, and it is 0 when no bucket is empty.
   */
  function TrialSuccess(factor: Factor, n: nat, choice: seq<nat>): Option<real>
    requires n > 0 && |choice| == n && Draws(choice, BucketCount(factor, n))
  {
    var k := BucketCount(factor, n);
    var numEmpty := k - Nonzero(Hashed(Ones(n), choice, k));
    if factor == 1.0 then Some(1.0 - numEmpty as real / n as real)
    else if numEmpty == 0 then None
    else Some((k - n) as real / numEmpty as real)
  }

  /**
   * A trial raises exactly when the factor is not 1 and every bucket is
   * occupied, which can only happen when there are no more buckets than items.
   */
  lemma TrialRaises(factor: Factor, n: nat, choice: seq<nat>)
    requires n > 0 && |choice| == n && Draws(choice, BucketCount(factor, n))
    ensures TrialSuccess(factor, n, choice).None? <==>
      factor != 1.0 && Nonzero(Hashed(Ones(n), choice, BucketCount(factor, n))) == BucketCount(factor, n)
    ensures TrialSuccess(factor, n, choice).None? ==> factor != 1.0 && BucketCount(factor, n) <= n
  {
    UnitOccupancy(n, choice, BucketCount(factor, n));
  }

  /**
   * A factor just above 1 that leaves as many buckets as items raises once
   * every bucket is hit: two items, int(1.25 * 2) = 2 buckets, drawn 0 and 1.
   */
  lemma RaisesJustAboveOne()
    ensures Draws([0, 1], BucketCount(1.25, 2))
    ensures TrialSuccess(1.25, 2, [0, 1]).None?
  {
    assert BucketCount(1.25, 2) == 2;
    var h := Hashed(Ones(2), [0, 1], 2);
    assert Hashed(Ones(2)[..1], [0, 1][..1], 2) == [1.0, 0.0];
    assert h == [1.0, 1.0];
    assert Nonzero(h[..1]) == 1;
  }

  /**
   * A trial's success is a fraction in (0, 1]: for factor 1 it is the share
   * of the n buckets that are occupied; for more buckets than items there
   * are at least k - n empty buckets, so the quotient is defined and at
   * most 1.
   */
  lemma TrialSuccessBounds(factor: Factor, n: nat, choice: seq<nat>)
    requires n > 0 && |choice| == n && Draws(choice, BucketCount(factor, n))
    requires factor == 1.0 || BucketCount(factor, n) > n
    ensures TrialSuccess(factor, n, choice).Some?
    ensures 0.0 < TrialSuccess(factor, n, choice).value <= 1.0
    ensures factor == 1.0 ==>
      TrialSuccess(factor, n, choice).value == Nonzero(Hashed(Ones(n), choice, n)) as real / n as real
  {
    if factor == 1.0 {
      SuccessAtOne(n, choice);
    } else {
      SuccessAbove(factor, n, choice);
    }
  }

  lemma SuccessAtOne(n: nat, choice: seq<nat>)
    requires n > 0 && |choice| == n && Draws(choice, BucketCount(1.0, n))
    ensures TrialSuccess(1.0, n, choice).Some?
    ensures TrialSuccess(1.0, n, choice).value == Nonzero(Hashed(Ones(n), choice, n)) as real / n as real
    ensures 0.0 < TrialSuccess(1.0, n, choice).value <= 1.0
  {
    assert BucketCount(1.0, n) == n;
    UnitOccupancy(n, choice, n);
    var full := Nonzero(Hashed(Ones(n), choice, n));
    assert TrialSuccess(1.0, n, choice) == Some(1.0 - (n - full) as real / n as real);
    ShareOfRest(full as real, n as real);
    Fraction(full as real, n as real);
  }

  lemma SuccessAbove(factor: Factor, n: nat, choice: seq<nat>)
    requires factor != 1.0 && n > 0 && |choice| == n && Draws(choice, BucketCount(factor, n))
    requires BucketCount(factor, n) > n
    ensures TrialSuccess(factor, n, choice).Some?
    ensures 0.0 < TrialSuccess(factor, n, choice).value <= 1.0
  {
    var k := BucketCount(factor, n);
    UnitOccupancy(n, choice, k);
    var full := Nonzero(Hashed(Ones(n), choice, k));
    assert (k - full) as real > 0.0;
    assert TrialSuccess(factor, n, choice) == Some((k - n) as real / (k - full) as real);
    Fraction((k - n) as real, (k - full) as real);
  }

  lemma ShareOfRest(a: real, b: real)
    requires b > 0.0
    ensures 1.0 - (b - a) / b == a / b
  {
    assert (b - a) / b == b / b - a / b;
  }

  lemma Fraction(a: real, b: real)
    requires 0.0 < a <= b
    ensures 0.0 < a / b <= 1.0
  {
    assert a / b <= b / b;
  }

  // ---------------------------------------------------------------------
  // The experiment
  // ---------------------------------------------------------------------

  const NumItems: nat := 100
  const NumTrials: nat := 100

  /** avg_success: the successes added up from 0. */
  function Total(xs: seq<real>): real
  {
    if |xs| == 0 then 0.0 else Total(xs[..|xs| - 1]) + xs[|xs| - 1]
  }

  lemma TotalSnoc(xs: seq<real>, x: real)
    ensures Total(xs + [x]) == Total(xs) + x
  {
    assert (xs + [x])[..|xs|] == xs;
  }

  /** avg_success / num_trials. */
  function Mean(xs: seq<real>, trials: nat): real
    requires trials > 0
  {
    Total(xs) / trials as real
  }

  /** Successes in (0, 1] add up to a total between 0 and their number. */
  lemma {:induction false} TotalBounds(xs: seq<real>)
    requires forall i :: 0 <= i < |xs| ==> 0.0 < xs[i] <= 1.0
    ensures (|xs| > 0 ==> 0.0 < Total(xs)) && Total(xs) <= |xs| as real
  {
    if |xs| > 0 {
      TotalBounds(xs[..|xs| - 1]);
    }
  }

  /** The mean of num_trials successes in (0, 1] is itself in (0, 1]. */
  lemma MeanBounds(xs: seq<real>)
    requires |xs| > 0 && forall i :: 0 <= i < |xs| ==> 0.0 < xs[i] <= 1.0
    ensures 0.0 < Mean(xs, |xs|) <= 1.0
  {
    TotalBounds(xs);
    Fraction(Total(xs), |xs| as real);
  }

  /** The trials for one factor: every trial's draws name one of int(factor * n) buckets. */
  predicate TrialDraws(factor: Factor, draws: seq<seq<nat>>)
  {
    forall j :: 0 <= j < |draws| ==> |draws[j]| == NumItems && Draws(draws[j], BucketCount(factor, NumItems))
  }

  /** Some trial of one factor raises ZeroDivisionError. */
  predicate SomeTrialRaises(factor: Factor, draws: seq<seq<nat>>)
    requires TrialDraws(factor, draws)
  {
    exists j :: 0 <= j < |draws| && TrialSuccess(factor, NumItems, draws[j]).None?
  }

  /** The success of every trial for one factor, when none of them raises. */
  function Successes(factor: Factor, draws: seq<seq<nat>>): seq<real>
    requires TrialDraws(factor, draws) && !SomeTrialRaises(factor, draws)
  {
    seq(|draws|, j requires 0 <= j < |draws| => TrialSuccess(factor, NumItems, draws[j]).value)
  }

  lemma RaisingTrial(factor: Factor, draws: seq<seq<nat>>, j: nat)
    requires TrialDraws(factor, draws) && j < |draws|
    requires TrialSuccess(factor, NumItems, draws[j]).None?
    ensures SomeTrialRaises(factor, draws)
  {
  }

  lemma AllTrialsSucceed(factor: Factor, draws: seq<seq<nat>>, xs: seq<real>)
    requires TrialDraws(factor, draws) && |xs| == |draws|
    requires forall l :: 0 <= l < |draws| ==> TrialSuccess(factor, NumItems, draws[l]) == Some(xs[l])
    ensures !SomeTrialRaises(factor, draws) && xs == Successes(factor, draws)
  {
  }

  /** One pass of the trial loop: hash n unit items, count the empty buckets, compute the success. */
  method Trial(factor: Factor, n: nat, choice: seq<nat>) returns (success: Option<real>)
    requires n > 0 && |choice| == n && Draws(choice, BucketCount(factor, n))
    ensures success == TrialSuccess(factor, n, choice)
  {
    var y := Ones(n);
    var k := BucketCount(factor, |y|);
    var counts, buckets := RandomHash(y, k, choice);
    var numEmpty := k - Nonzero(counts[..]);
    if factor == 1.0 {
      success := Some(1.0 - numEmpty as real / |y| as real);
    } else if numEmpty == 0 {
      success := None;
    } else {
      success := Some((k - |y|) as real / numEmpty as real);
    }
  }

  /**
   * The loop over trials for one factor: all_trials collects each trial's
   * success and the result is their mean. A trial that raises ends the
   * loop with None, and all_trials then holds the trials before it.
   */
  method Experiment(factor: Factor, draws: seq<seq<nat>>) returns (expected: Option<real>, allTrials: seq<real>)
    requires |draws| == NumTrials && TrialDraws(factor, draws)
    ensures expected.None? <==> SomeTrialRaises(factor, draws)
    ensures expected.Some? ==> allTrials == Successes(factor, draws) && expected.value == Mean(allTrials, NumTrials)
    ensures expected.None? ==> |allTrials| < |draws| && TrialSuccess(factor, NumItems, draws[|allTrials|]).None?
    ensures forall l :: 0 <= l < |allTrials| && l < |draws| ==> TrialSuccess(factor, NumItems, draws[l]) == Some(allTrials[l])
  {
    var avgSuccess := 0.0;
    allTrials := [];
    for j := 0 to NumTrials
      invariant |allTrials| == j && avgSuccess == Total(allTrials)
      invariant forall l :: 0 <= l < j ==> TrialSuccess(factor, NumItems, draws[l]) == Some(allTrials[l])
    {
      var success := Trial(factor, NumItems, draws[j]);
      if success.None? {
        assert SomeTrialRaises(factor, draws) by {
          RaisingTrial(factor, draws, j);
        }
        return None, allTrials;
      }
      TotalSnoc(allTrials, success.value);
      avgSuccess := avgSuccess + success.value;
      allTrials := allTrials + [success.value];
    }
    assert !SomeTrialRaises(factor, draws) && allTrials == Successes(factor, draws) by {
      AllTrialsSucceed(factor, draws, allTrials);
    }
    expected := Some(avgSuccess / NumTrials as real);
  }

  /** bucket_factors. */
  const BucketFactors: seq<Factor> := [1.0, 2.0, 2.5, 3.0, 3.5, 4.0, 4.5, 5.0, 5.5, 6.0, 6.5, 7.0, 7.5, 8.0, 8.5, 9.0]

  /**
   * Every factor the script tries raises in no trial and gives an expected
   * fraction in (0, 1]: factor 1 has as many buckets as items, and every
   * other factor has more.
   */
  lemma ExperimentBounds(f: nat, draws: seq<seq<nat>>)
    requires f < |BucketFactors| && |draws| == NumTrials && TrialDraws(BucketFactors[f], draws)
    ensures !SomeTrialRaises(BucketFactors[f], draws)
    ensures 0.0 < Mean(Successes(BucketFactors[f], draws), NumTrials) <= 1.0
  {
    var factor := BucketFactors[f];
    assert factor == 1.0 || factor >= 2.0;
    if factor != 1.0 {
      assert factor * NumItems as real >= 200.0;
      assert BucketCount(factor, NumItems) > NumItems;
    }
    forall j | 0 <= j < NumTrials
      ensures TrialSuccess(factor, NumItems, draws[j]).Some?
      ensures 0.0 < TrialSuccess(factor, NumItems, draws[j]).value <= 1.0
    {
      TrialSuccessBounds(factor, NumItems, draws[j]);
    }
    MeanBounds(Successes(factor, draws));
  }

  /**
   * The loop over bucket_factors: no trial raises, and probs holds, for
   * every factor, the mean success of its trials, each a fraction in (0, 1].
   */
  method Probabilities(draws: seq<seq<seq<nat>>>) returns (probs: seq<real>)
    requires |draws| == |BucketFactors|
    requires forall f :: 0 <= f < |draws| ==> |draws[f]| == NumTrials && TrialDraws(BucketFactors[f], draws[f])
    ensures |probs| == |BucketFactors|
    ensures forall f :: 0 <= f < |probs| ==>
      !SomeTrialRaises(BucketFactors[f], draws[f]) && probs[f] == Mean(Successes(BucketFactors[f], draws[f]), NumTrials)
    ensures forall f :: 0 <= f < |probs| ==> 0.0 < probs[f] <= 1.0
  {
    probs := [];
    for f := 0 to |BucketFactors|
      invariant |probs| == f
      invariant forall g :: 0 <= g < f ==>
        !SomeTrialRaises(BucketFactors[g], draws[g]) && probs[g] == Mean(Successes(BucketFactors[g], draws[g]), NumTrials)
      invariant forall g :: 0 <= g < f ==> 0.0 < probs[g] <= 1.0
    {
      ExperimentBounds(f, draws[f]);
      var expected, allTrials := Experiment(BucketFactors[f], draws[f]);
      probs := probs + [expected.value];
    }
  }
}
