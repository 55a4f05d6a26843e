/**
 * The universal hash of hash/universal_hash.go: h(x) = a_0 + sum a_(i+1) * x_i
 * modulo the largest 64-bit prime, over arbitrary-precision integers. The
 * coefficients come from rejection sampling of random 64-bit words; here the
 * words are an input stream. A coordinate enters the hash as the 64-bit
 * IEEE pattern of its float64 value, which is what the input sequence holds.
 */
module UniversalHash {
  import opened Wrappers

  /** The largest prime below 2^64. */
  const Prime: nat := 18446744073709551557

  type Uint64 = x: nat | x < 0x1_0000_0000_0000_0000

  datatype UHash = UHash(coefficients: seq<nat>, modulus: nat)

  /** The words of `draws` that rejection sampling accepts, in order. */
  function Accepted(draws: seq<Uint64>): (r: seq<nat>)
    ensures |r| <= |draws|
    ensures forall i :: 0 <= i < |r| ==> r[i] < Prime
  {
    if |draws| == 0 then []
    else if draws[|draws| - 1] < Prime then Accepted(draws[..|draws| - 1]) + [draws[|draws| - 1]]
    else Accepted(draws[..|draws| - 1])
  }

  /** Accepting one more word extends the accepted list by that word alone. */
  lemma AcceptedSnoc(draws: seq<Uint64>, i: nat)
    requires i < |draws|
    ensures draws[..i + 1][..i] == draws[..i]
    ensures Accepted(draws[..i + 1]) == Accepted(draws[..i]) + (if draws[i] < Prime then [draws[i]] else [])
  {
    assert draws[..i + 1][..i] == draws[..i];
  }

  /** A word at or above Prime is never accepted: it adds nothing. */
  lemma {:induction false} AcceptedMembers(draws: seq<Uint64>, x: nat)
    requires x in Accepted(draws)
    ensures x in draws && x < Prime
  {
    if |draws| > 0 {
      var init := draws[..|draws| - 1];
      if x in Accepted(init) {
        AcceptedMembers(init, x);
        assert x in draws by {
          var k :| 0 <= k < |init| && init[k] == x;
          assert draws[k] == x;
        }
      } else {
        assert x == draws[|draws| - 1];
      }
    }
  }

  /**
   * NewUniversalHash: dim + 1 coefficients, each one drawn again while it is
   * not below the modulus. `draws` is the random word stream; it must hold
   * enough acceptable words for the loop to finish.
   */
  method NewUniversalHash(dim: nat, draws: seq<Uint64>) returns (u: UHash)
    requires |Accepted(draws)| >= dim + 1
    ensures u.modulus == Prime
    ensures u.coefficients == Accepted(draws)[..dim + 1]
    ensures |u.coefficients| == dim + 1
    ensures forall i :: 0 <= i < dim + 1 ==> u.coefficients[i] < Prime
  {
    var coefficients: seq<nat> := [];
    var next := 0;
    while |coefficients| < dim + 1
      invariant 0 <= next <= |draws|
      invariant coefficients == Accepted(draws[..next])
      invariant |coefficients| <= dim + 1
      decreases |draws| - next
    {
      if next == |draws| {
        WholePrefix(draws);
        assert false;
      }
      var c := draws[next];
      AcceptedSnoc(draws, next);
      next := next + 1;
      while c >= Prime
        invariant 0 <= next <= |draws|
        invariant Accepted(draws[..next]) == coefficients + (if c < Prime then [c] else [])
        invariant |coefficients| < dim + 1
        decreases |draws| - next
      {
        if next == |draws| {
          WholePrefix(draws);
          assert false;
        }
        c := draws[next];
        AcceptedSnoc(draws, next);
        next := next + 1;
      }
      coefficients := coefficients + [c];
    }
    AcceptedPrefix(draws, next, dim + 1);
    u := UHash(coefficients, Prime);
  }

  lemma WholePrefix(draws: seq<Uint64>)
    ensures draws[..|draws|] == draws
  {
  }

  /** The accepted words of a prefix are a prefix of the accepted words. */
  lemma {:induction false} AcceptedPrefix(draws: seq<Uint64>, next: nat, count: nat)
    requires next <= |draws| && |Accepted(draws[..next])| == count
    ensures count <= |Accepted(draws)| && Accepted(draws[..next]) == Accepted(draws)[..count]
    decreases |draws| - next
  {
    if next == |draws| {
      assert draws[..next] == draws;
    } else {
      AcceptedSnoc(draws, next);
      var c := |Accepted(draws[..next + 1])|;
      AcceptedPrefix(draws, next + 1, c);
      assert Accepted(draws)[..c][..count] == Accepted(draws)[..count];
    }
  }

  /** The polynomial a_0 + sum over i of a_(i+1) * x_i, before reduction. */
  function Poly(coefficients: seq<nat>, xs: seq<Uint64>): nat
    requires |coefficients| == |xs| + 1
  {
    if |xs| == 0 then coefficients[0]
    else Poly(coefficients[..|xs|], xs[..|xs| - 1]) + coefficients[|xs|] * xs[|xs| - 1]
  }

  /**
   * Hash: the sum accumulated term by term, then reduced modulo the prime.
   * A vector of the wrong size is the source's panic, here None.
   */
  method Hash(u: UHash, xs: seq<Uint64>) returns (r: Option<Uint64>)
    requires u.modulus == Prime
    ensures r.Some? <==> |xs| + 1 == |u.coefficients|
    ensures r.Some? ==> r.value == Poly(u.coefficients, xs) % Prime && r.value < Prime
  {
    if |xs| + 1 != |u.coefficients| {
      return None;
    }
    var s := u.coefficients[0];
    var i := 0;
    while i < |xs|
      invariant 0 <= i <= |xs|
      invariant s == Poly(u.coefficients[..i + 1], xs[..i])
    {
      assert u.coefficients[..i + 2][..i + 1] == u.coefficients[..i + 1];
      assert xs[..i + 1][..i] == xs[..i];
      s := s + u.coefficients[i + 1] * xs[i];
      i := i + 1;
    }
    assert u.coefficients[..i + 1] == u.coefficients && xs[..i] == xs;
    return Some(s % u.modulus);
  }

  /**
   * The hash of two vectors differs by the coefficient-weighted difference
   * of their coordinates: a collision of x and y means
   * sum a_(i+1) * (x_i - y_i) is a multiple of the prime.
   */
  lemma {:induction false} PolyDifference(coefficients: seq<nat>, xs: seq<Uint64>, ys: seq<Uint64>)
    requires |coefficients| == |xs| + 1 && |xs| == |ys|
    ensures Poly(coefficients, xs) as int - Poly(coefficients, ys) as int == WeightedDifference(coefficients, xs, ys)
  {
    if |xs| > 0 {
      var n := |xs|;
      PolyDifference(coefficients[..n], xs[..n - 1], ys[..n - 1]);
      assert coefficients[..n][1..] == coefficients[1..n];
      var c, x, y: int := coefficients[n], xs[n - 1], ys[n - 1];
      assert c * x - c * y == c * (x - y);
    }
  }

  /** The sum over i of a_(i+1) * (x_i - y_i). */
  function WeightedDifference(coefficients: seq<nat>, xs: seq<Uint64>, ys: seq<Uint64>): int
    requires |coefficients| == |xs| + 1 && |xs| == |ys|
  {
    if |xs| == 0 then 0
    else
      var n := |xs|;
      WeightedDifference(coefficients[..n], xs[..n - 1], ys[..n - 1]) + coefficients[n] * (xs[n - 1] as int - ys[n - 1] as int)
  }
}
