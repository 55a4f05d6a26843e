/**
 * The direct product of Leech lattices of hash/multilattice_hash.go: the
 * coordinates are permuted, cut into `copies` blocks of near-equal size, and
 * each block is decoded by its own lattice hash; the block results are
 * concatenated in copy order and their distances added.
 *
 * A lattice hash's random projection and its closest-point decoder are not
 * modelled: a LatticeHash records only its construction parameters, and the
 * decoders are function parameters. The random permutation (rand.Perm) and
 * the universal hash's random words are inputs.
 */
module MultiLattice {
  import opened Wrappers
  import opened EvenSplit
  import UniversalHash
  import SearchQueue
  import opened Sets

  /** A lattice hash for one block of coordinates. */
  datatype LatticeHash = LatticeHash(dim: nat, width: real, max: real)

  datatype MultiLatticeHash = MultiLatticeHash(
    hashes: seq<LatticeHash>,
    permutation: seq<nat>,
    spans: seq<(nat, nat)>,
    uhash: UniversalHash.UHash)

  /** The closest lattice point of a block, and its distance. */
  type Decoder = (LatticeHash, seq<real>) -> (seq<real>, real)

  /** The `probes` closest lattice points of a block, and their distances. */
  type Prober = (LatticeHash, seq<real>, nat) -> (seq<seq<real>>, seq<real>)

  /**
   * Spans: numSpans contiguous pairs from 0 to total, the first
   * total % numSpans of them one longer than total / numSpans.
   */
  method Spans(total: nat, numSpans: nat) returns (spans: seq<(nat, nat)>)
    requires numSpans > 0
    ensures spans == EvenRanges(total, numSpans)
    ensures |spans| == numSpans && spans[0].0 == 0 && spans[numSpans - 1].1 == total
    ensures forall i :: 0 <= i < numSpans - 1 ==> spans[i].1 == spans[i + 1].0
    ensures forall i :: 0 <= i < numSpans ==> spans[i].1 == spans[i].0 + SpanLength(total, numSpans, i)
  {
    spans := Split(total, numSpans);
    EvenRangesShape(total, numSpans);
  }

  predicate IsPermutation(perm: seq<nat>, n: nat)
  {
    |perm| == n && (forall i :: 0 <= i < n ==> perm[i] < n)
    && forall i, j :: 0 <= i < j < n ==> perm[i] != perm[j]
  }

  /**
   * NewMultiLatticeHash: one lattice hash per span, of that span's
   * dimension, and a universal hash over copies * 24 coordinates.
   * `perm` is the random permutation of the dimensions and `draws` the
   * random words of the universal hash.
   */
  method NewMultiLatticeHash(dim: nat, copies: nat, width: real, max: real, perm: seq<nat>, draws: seq<UniversalHash.Uint64>)
    returns (m: MultiLatticeHash)
    requires copies > 0 && IsPermutation(perm, dim)
    requires |UniversalHash.Accepted(draws)| >= copies * 24 + 1
    ensures m.permutation == perm && m.spans == EvenRanges(dim, copies) && |m.hashes| == copies
    ensures forall i :: 0 <= i < copies ==>
      m.hashes[i] == LatticeHash(SpanLength(dim, copies, i), width, max)
      && m.spans[i].0 + m.hashes[i].dim == m.spans[i].1
    ensures m.uhash.modulus == UniversalHash.Prime && |m.uhash.coefficients| == copies * 24 + 1
    ensures m.uhash.coefficients == UniversalHash.Accepted(draws)[..copies * 24 + 1]
  {
    var spans := Spans(dim, copies);
    var hashes: seq<LatticeHash> := [];
    for i := 0 to copies
      invariant |hashes| == i
      invariant forall k :: 0 <= k < i ==> hashes[k] == LatticeHash(SpanLength(dim, copies, k), width, max)
    {
      hashes := hashes + [LatticeHash(spans[i].1 - spans[i].0, width, max)];
    }
    var u := UniversalHash.NewUniversalHash(copies * 24, draws);
    m := MultiLatticeHash(hashes, perm, spans, u);
  }

  /** The length of span i: total / n, plus one for the first total % n spans. */
  function SpanLength(total: nat, n: nat, i: nat): nat
    requires n > 0
  {
    total / n + (if i < total % n then 1 else 0)
  }

  /** What HashWithDist and MultiProbeHashWithDist index without running off v. */
  predicate FitsVector(m: MultiLatticeHash, n: nat)
  {
    |m.permutation| >= n && (forall i :: 0 <= i < n ==> m.permutation[i] < n)
    && |m.hashes| <= |m.spans|
    && forall i :: 0 <= i < |m.spans| ==> m.spans[i].0 <= m.spans[i].1 <= n
  }

  /** permuted[i] = v[Permutation[i]]. */
  function Permuted(m: MultiLatticeHash, v: seq<real>): (p: seq<real>)
    requires FitsVector(m, |v|)
    ensures |p| == |v|
  {
    seq(|v|, i requires 0 <= i < |v| => v[m.permutation[i]])
  }

  /** The loop that fills permuted[i] with v[Permutation[i]]. */
  method Permute(m: MultiLatticeHash, v: seq<real>) returns (permuted: seq<real>)
    requires FitsVector(m, |v|)
    ensures permuted == Permuted(m, v)
  {
    permuted := seq(|v|, _ => 0.0);
    for i := 0 to |v|
      invariant |permuted| == |v|
      invariant forall k :: 0 <= k < i ==> permuted[k] == v[m.permutation[k]]
    {
      permuted := permuted[i := v[m.permutation[i]]];
    }
  }

  /** The block of the permuted vector that copy i decodes. */
  function Block(m: MultiLatticeHash, v: seq<real>, i: nat): seq<real>
    requires FitsVector(m, |v|) && i < |m.spans|
  {
    Permuted(m, v)[m.spans[i].0..m.spans[i].1]
  }

  /** The decoded blocks of the first n copies, concatenated. */
  function Joined(m: MultiLatticeHash, v: seq<real>, decode: Decoder, n: nat): seq<real>
    requires FitsVector(m, |v|) && n <= |m.hashes|
  {
    if n == 0 then []
    else Joined(m, v, decode, n - 1) + decode(m.hashes[n - 1], Block(m, v, n - 1)).0
  }

  /** The distances of the first n copies, added. */
  function TotalDistance(m: MultiLatticeHash, v: seq<real>, decode: Decoder, n: nat): real
    requires FitsVector(m, |v|) && n <= |m.hashes|
  {
    if n == 0 then 0.0
    else TotalDistance(m, v, decode, n - 1) + decode(m.hashes[n - 1], Block(m, v, n - 1)).1
  }

  /**
   * HashWithDist: the permuted vector's blocks decoded copy by copy, the
   * lattice points concatenated in copy order and the distances summed.
   */
  method HashWithDist(m: MultiLatticeHash, v: seq<real>, decode: Decoder) returns (h: seq<real>, dist: real)
    requires FitsVector(m, |v|)
    ensures h == Joined(m, v, decode, |m.hashes|)
    ensures dist == TotalDistance(m, v, decode, |m.hashes|)
  {
    var permuted := Permute(m, v);
    dist := 0.0;
    h := [];
    for i := 0 to |m.hashes|
      invariant h == Joined(m, v, decode, i)
      invariant dist == TotalDistance(m, v, decode, i)
    {
      var (hash, d) := decode(m.hashes[i], permuted[m.spans[i].0..m.spans[i].1]);
      h := h + hash;
      dist := dist + d;
    }
  }

  /**
   * With every decoded block 24 coordinates long, the whole hash has
   * 24 coordinates per copy and copy i's lattice point sits at [24i, 24i + 24).
   */
  lemma {:induction false} JoinedBlocks(m: MultiLatticeHash, v: seq<real>, decode: Decoder, n: nat)
    requires FitsVector(m, |v|) && n <= |m.hashes|
    requires forall i :: 0 <= i < n ==> |decode(m.hashes[i], Block(m, v, i)).0| == 24
    ensures |Joined(m, v, decode, n)| == 24 * n
    ensures forall i :: 0 <= i < n ==>
      Joined(m, v, decode, n)[24 * i..24 * i + 24] == decode(m.hashes[i], Block(m, v, i)).0
  {
    if n > 0 {
      JoinedBlocks(m, v, decode, n - 1);
      var prev, last := Joined(m, v, decode, n - 1), decode(m.hashes[n - 1], Block(m, v, n - 1)).0;
      assert Joined(m, v, decode, n) == prev + last;
      forall i | 0 <= i < n
        ensures Joined(m, v, decode, n)[24 * i..24 * i + 24] == decode(m.hashes[i], Block(m, v, i)).0
      {
        if i < n - 1 {
          assert (prev + last)[24 * i..24 * i + 24] == prev[24 * i..24 * i + 24];
        } else {
          assert (prev + last)[24 * i..24 * i + 24] == last;
        }
      }
    }
  }

  /**
   * A permutation of the dimensions moves every coordinate to exactly one
   * place: coordinate j of v is coordinate i of the permuted vector for the
   * one i with Permutation[i] = j.
   */
  lemma PermutedCoversAll(m: MultiLatticeHash, v: seq<real>, j: nat)
    requires IsPermutation(m.permutation, |v|) && FitsVector(m, |v|) && j < |v|
    ensures exists i :: 0 <= i < |v| && m.permutation[i] == j && Permuted(m, v)[i] == v[j]
    ensures forall i, i' :: 0 <= i < i' < |v| && m.permutation[i] == j ==> m.permutation[i'] != j
  {
    PermutationOnto(m.permutation, |v|, j);
  }

  /** A permutation of [0, n) hits every index: n distinct values below n leave none out. */
  lemma PermutationOnto(perm: seq<nat>, n: nat, j: nat)
    requires IsPermutation(perm, n) && j < n
    ensures exists i :: 0 <= i < n && perm[i] == j
  {
    ImageSize(perm, n, n);
    UptoSize(n);
    if j !in Image(perm, n) {
      forall x | x in Image(perm, n)
        ensures x in Upto(n) - {j}
      {
        ImageMembers(perm, n, n, x);
        UptoMembers(n, x);
      }
      UptoMembers(n, j);
      SubsetSize(Image(perm, n), Upto(n) - {j});
      assert false;
    }
    ImageMembers(perm, n, n, j);
  }

  /** The first k values of perm, as a set. */
  function Image(perm: seq<nat>, k: nat): set<nat>
    requires k <= |perm|
  {
    if k == 0 then {} else Image(perm, k - 1) + {perm[k - 1]}
  }

  lemma {:induction false} ImageMembers(perm: seq<nat>, n: nat, k: nat, x: nat)
    requires IsPermutation(perm, n) && k <= n
    ensures x in Image(perm, k) <==> exists i :: 0 <= i < k && perm[i] == x
    ensures x in Image(perm, k) ==> x < n
  {
    if k > 0 {
      ImageMembers(perm, n, k - 1, x);
    }
  }

  /** The first k values of a permutation are k distinct values. */
  lemma {:induction false} ImageSize(perm: seq<nat>, n: nat, k: nat)
    requires IsPermutation(perm, n) && k <= n
    ensures |Image(perm, k)| == k
  {
    if k > 0 {
      ImageSize(perm, n, k - 1);
      if perm[k - 1] in Image(perm, k - 1) {
        ImageMembers(perm, n, k - 1, perm[k - 1]);
        assert false;
      }
    }
  }

  /** The numbers below n, as a set. */
  function Upto(n: nat): set<nat>
  {
    if n == 0 then {} else Upto(n - 1) + {n - 1}
  }

  lemma {:induction false} UptoMembers(n: nat, x: nat)
    ensures x in Upto(n) <==> x < n
  {
    if n > 0 {
      UptoMembers(n - 1, x);
    }
  }

  lemma {:induction false} UptoSize(n: nat)
    ensures |Upto(n)| == n
  {
    if n > 0 {
      UptoSize(n - 1);
      UptoMembers(n - 1, n - 1);
    }
  }

  /** Hash: the universal hash of the concatenated lattice point, each coordinate read as its 64-bit pattern. */
  method Hash(m: MultiLatticeHash, v: seq<real>, decode: Decoder, bits: real -> UniversalHash.Uint64) returns (r: Option<UniversalHash.Uint64>)
    requires FitsVector(m, |v|) && m.uhash.modulus == UniversalHash.Prime
    ensures r.Some? <==> |Joined(m, v, decode, |m.hashes|)| + 1 == |m.uhash.coefficients|
    ensures r.Some? ==> r.value == UniversalHash.Poly(m.uhash.coefficients, Bits(Joined(m, v, decode, |m.hashes|), bits)) % UniversalHash.Prime
  {
    var h, _ := HashWithDist(m, v, decode);
    r := UniversalHash.Hash(m.uhash, Bits(h, bits));
  }

  function Bits(xs: seq<real>, bits: real -> UniversalHash.Uint64): (r: seq<UniversalHash.Uint64>)
    ensures |r| == |xs|
  {
    seq(|xs|, i requires 0 <= i < |xs| => bits(xs[i]))
  }

  /**
   * A multi-lattice hash as NewMultiLatticeHash builds it always hashes:
   * with 24-coordinate Leech lattice points the concatenation has exactly
   * as many coordinates as the universal hash expects.
   */
  lemma HashDefined(m: MultiLatticeHash, v: seq<real>, decode: Decoder)
    requires FitsVector(m, |v|) && |m.uhash.coefficients| == |m.hashes| * 24 + 1
    requires forall i :: 0 <= i < |m.hashes| ==> |decode(m.hashes[i], Block(m, v, i)).0| == 24
    ensures |Joined(m, v, decode, |m.hashes|)| + 1 == |m.uhash.coefficients|
  {
    JoinedBlocks(m, v, decode, |m.hashes|);
  }

  /** The candidates of copy i: its probe lattice points and their distances. */
  function CopyProbe(m: MultiLatticeHash, v: seq<real>, probe: Prober, probes: nat, i: nat): (seq<seq<real>>, seq<real>)
    requires FitsVector(m, |v|) && i < |m.hashes|
  {
    probe(m.hashes[i], Block(m, v, i), probes)
  }

  /** Every copy has a candidate, and a lattice point for each of its distances. */
  predicate ProbesFit(m: MultiLatticeHash, v: seq<real>, probe: Prober, probes: nat)
    requires FitsVector(m, |v|)
  {
    forall i :: 0 <= i < |m.hashes| ==>
      0 < |CopyProbe(m, v, probe, probes, i).1| <= |CopyProbe(m, v, probe, probes, i).0|
  }

  /** A copy's candidate distances as a search source: candidate j has the coordinates [j]. */
  function Source(ds: seq<real>): (src: seq<SearchQueue.Element>)
    ensures |src| == |ds|
  {
    seq(|ds|, j requires 0 <= j < |ds| => SearchQueue.Element([j], ds[j]))
  }

  /** The search sources of all copies. */
  function ProbeSources(m: MultiLatticeHash, v: seq<real>, probe: Prober, probes: nat): (sources: seq<seq<SearchQueue.Element>>)
    requires FitsVector(m, |v|)
    ensures |sources| == |m.hashes|
  {
    seq(|m.hashes|, i requires 0 <= i < |m.hashes| => Source(CopyProbe(m, v, probe, probes, i).1))
  }

  /** The lattice points of all copies. */
  function ProbeHashes(m: MultiLatticeHash, v: seq<real>, probe: Prober, probes: nat): (hs: seq<seq<seq<real>>>)
    requires FitsVector(m, |v|)
    ensures |hs| == |m.hashes|
  {
    seq(|m.hashes|, i requires 0 <= i < |m.hashes| => CopyProbe(m, v, probe, probes, i).0)
  }

  /** One candidate index per copy, within that copy's lattice points. */
  predicate Picks(hs: seq<seq<seq<real>>>, coords: seq<int>)
  {
    |coords| == |hs| && forall j :: 0 <= j < |coords| ==> 0 <= coords[j] < |hs[j]|
  }

  /** The picked lattice points of the first n copies, concatenated. */
  function Combined(hs: seq<seq<seq<real>>>, coords: seq<int>, n: nat): seq<real>
    requires Picks(hs, coords) && n <= |coords|
  {
    if n == 0 then [] else Combined(hs, coords, n - 1) + hs[n - 1][coords[n - 1]]
  }

  /**
   * MultiProbeHashWithDist: the `probes` best combinations of the copies'
   * candidates found by the distance search, each output as the
   * concatenation of its picked lattice points with its total distance.
   * Slots past the number of combinations found stay nil (None) with
   * distance 0. `chosen` is the search's result.
   */
  method MultiProbeHashWithDist(m: MultiLatticeHash, v: seq<real>, probes: nat, probe: Prober)
    returns (output: seq<Option<seq<real>>>, distances: seq<real>, ghost chosen: seq<SearchQueue.Element>)
    requires FitsVector(m, |v|) && ProbesFit(m, v, probe, probes)
    ensures |output| == probes && |distances| == probes && |chosen| <= probes
    ensures forall k :: 0 <= k < |chosen| ==>
      SearchQueue.WellFormed(ProbeSources(m, v, probe, probes), chosen[k])
      && Picks(ProbeHashes(m, v, probe, probes), chosen[k].coords)
      && output[k] == Some(Combined(ProbeHashes(m, v, probe, probes), chosen[k].coords, |m.hashes|))
      && distances[k] == chosen[k].distance
    ensures forall k :: |chosen| <= k < probes ==> output[k] == None && distances[k] == 0.0
    ensures forall j, k :: 0 <= j < k < |chosen| ==> chosen[j].coords != chosen[k].coords
    ensures SearchQueue.SourcesSorted(ProbeSources(m, v, probe, probes)) ==>
      forall j, k :: 0 <= j <= k < |chosen| ==> distances[j] <= distances[k]
    ensures (forall i :: 0 <= i < |m.hashes| ==> |CopyProbe(m, v, probe, probes, i).1| <= probes) && |chosen| < probes ==>
      forall x :: SearchQueue.IsCombination(ProbeSources(m, v, probe, probes), x) ==>
        exists k :: 0 <= k < |chosen| && chosen[k].coords == x
  {
    var permuted := Permute(m, v);
    var hashes, sources := CollectProbes(m, v, probes, probe, permuted);
    var d := new SearchQueue.DistanceSearchQueue(probes, sources);
    var c := d.Search();
    output, distances := Assemble(hashes, c, probes);
    chosen := c;
  }

  /** The output loop of MultiProbeHashWithDist: slot k holds combination k, the rest stay nil. */
  method Assemble(hashes: seq<seq<seq<real>>>, c: seq<SearchQueue.Element>, probes: nat)
    returns (output: seq<Option<seq<real>>>, distances: seq<real>)
    requires |c| <= probes && forall k :: 0 <= k < |c| ==> Picks(hashes, c[k].coords)
    ensures |output| == probes && |distances| == probes
    ensures forall k :: 0 <= k < |c| ==>
      output[k] == Some(Combined(hashes, c[k].coords, |hashes|)) && distances[k] == c[k].distance
    ensures forall k :: |c| <= k < probes ==> output[k] == None && distances[k] == 0.0
  {
    output := seq(probes, _ => None);
    distances := seq(probes, _ => 0.0);
    for k := 0 to |c|
      invariant |output| == probes && |distances| == probes
      invariant forall l :: 0 <= l < k ==>
        output[l] == Some(Combined(hashes, c[l].coords, |hashes|)) && distances[l] == c[l].distance
      invariant forall l :: k <= l < probes ==> output[l] == None && distances[l] == 0.0
    {
      var hash := Concat(hashes, c[k].coords);
      distances := distances[k := c[k].distance];
      output := output[k := Some(hash)];
    }
  }

  /** The inner loop: the picked lattice points appended copy by copy. */
  method Concat(hashes: seq<seq<seq<real>>>, coords: seq<int>) returns (hash: seq<real>)
    requires Picks(hashes, coords)
    ensures hash == Combined(hashes, coords, |coords|)
  {
    hash := [];
    for j := 0 to |coords|
      invariant hash == Combined(hashes, coords, j)
    {
      hash := hash + hashes[j][coords[j]];
    }
  }

  /** The per-copy loop of MultiProbeHashWithDist: each copy's probes, and its search source. */
  method CollectProbes(m: MultiLatticeHash, v: seq<real>, probes: nat, probe: Prober, permuted: seq<real>)
    returns (hashes: seq<seq<seq<real>>>, sources: seq<seq<SearchQueue.Element>>)
    requires FitsVector(m, |v|) && ProbesFit(m, v, probe, probes) && permuted == Permuted(m, v)
    ensures hashes == ProbeHashes(m, v, probe, probes) && sources == ProbeSources(m, v, probe, probes)
    ensures SearchQueue.Indexed(sources)
    ensures forall x :: SearchQueue.IsCombination(sources, x) ==> Picks(hashes, x)
  {
    hashes := [];
    sources := [];
    for i := 0 to |m.hashes|
      invariant |hashes| == i && |sources| == i
      invariant forall k :: 0 <= k < i ==> hashes[k] == CopyProbe(m, v, probe, probes, k).0
      invariant forall k :: 0 <= k < i ==> sources[k] == Source(CopyProbe(m, v, probe, probes, k).1)
    {
      var (hs, ds) := probe(m.hashes[i], permuted[m.spans[i].0..m.spans[i].1], probes);
      var src := [];
      for j := 0 to |ds|
        invariant src == Source(ds[..j])
      {
        src := src + [SearchQueue.Element([j], ds[j])];
      }
      assert ds[..|ds|] == ds;
      hashes := hashes + [hs];
      sources := sources + [src];
    }
  }

  /**
   * The first probe agrees with the plain hash: when every copy's first
   * candidate is its closest lattice point, the all-zeros combination is
   * HashWithDist's concatenation at HashWithDist's total distance.
   */
  lemma {:induction false} FirstProbeIsHash(m: MultiLatticeHash, v: seq<real>, probes: nat, probe: Prober, decode: Decoder, n: nat)
    requires FitsVector(m, |v|) && ProbesFit(m, v, probe, probes) && n <= |m.hashes|
    requires forall i :: 0 <= i < |m.hashes| ==>
      CopyProbe(m, v, probe, probes, i).0[0] == decode(m.hashes[i], Block(m, v, i)).0
      && CopyProbe(m, v, probe, probes, i).1[0] == decode(m.hashes[i], Block(m, v, i)).1
    ensures Picks(ProbeHashes(m, v, probe, probes), SearchQueue.Zeros(|m.hashes|))
    ensures Combined(ProbeHashes(m, v, probe, probes), SearchQueue.Zeros(|m.hashes|), n) == Joined(m, v, decode, n)
    ensures SearchQueue.DistanceOf(ProbeSources(m, v, probe, probes), SearchQueue.Zeros(|m.hashes|)[..n]) == TotalDistance(m, v, decode, n)
  {
    var zeros := SearchQueue.Zeros(|m.hashes|);
    assert forall j :: 0 <= j < |zeros| ==> zeros[j] == 0;
    if n > 0 {
      FirstProbeIsHash(m, v, probes, probe, decode, n - 1);
      assert zeros[..n][..n - 1] == zeros[..n - 1];
    }
  }
}
