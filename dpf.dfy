/**
 * genDPF, fullDomainDPF and batchEvalDPF of pir/dpfc/src/dpf.c, as the loops
 * over seed, bit and correction-word arrays and key and output byte buffers
 * that they are, each proved equal to the functions of DpfTree. The
 * parameter `prg` is dpfPRG under the context's AES key (PrgOf(aes) for a
 * cipher aes); the methods hold for every such generator.
 */
module Dpf {
  import opened DpfBlock
  import opened DpfTree

  type Uint64 = x: nat | x < 0x1_0000_0000_0000_0000

  /** The side genDPF keeps or loses at a level. */
  const Left: nat := 0
  const Right: nat := 1

  /** Levels batchEvalDPF takes from its fullDomainDPF cache. */
  const NumCacheLayers: nat := 12


  /** memcpy of one uint128_t into a byte buffer at offset `at`. */
  method CopyBlock(dst: array<bv8>, at: nat, src: Block)
    requires at + 16 <= dst.Length
    modifies dst
    ensures dst[at..at + 16] == src
    ensures forall j :: 0 <= j < dst.Length && !(at <= j < at + 16) ==> dst[j] == old(dst[j])
    ensures dst[..at] == old(dst[..at]) && dst[at + 16..] == old(dst[at + 16..])
    ensures dst[..at + 16] == old(dst[..at]) + src
  {
    var j := 0;
    while j < 16
      invariant 0 <= j <= 16
      invariant forall m :: 0 <= m < j ==> dst[at + m] == src[m]
      invariant forall m :: 0 <= m < dst.Length && !(at <= m < at + j) ==> dst[m] == old(dst[m])
    {
      dst[at + j] := src[j];
      j := j + 1;
    }
    assert dst[..at + 16] == dst[..at] + dst[at..at + 16];
  }

  /**
   * The serialisation at the end of genDPF: party byte, root seed, root
   * control bit, each level's sCW, tCW0 and tCW1, then the last correction
   * word, written into a buffer of 18 * size + 34 bytes.
   */
  method WriteKey(out: array<bv8>, party: bv8, root: Block, rootBit: bv8, cws: array<Cw>, last: nat)
    requires last < Mod128 && out.Length == 18 * cws.Length + 34
    modifies out
    ensures out[..] == KeyBytes(party, root, rootBit, cws[..], last)
  {
    var end := 18 * cws.Length + 18;
    out[0] := party;
    CopyBlock(out, 1, root);
    out[17] := rootBit;
    assert out[..18] == [party] + root + [rootBit] by {
      assert out[..18] == out[..1] + out[1..17] + out[17..18];
    }
    WriteCws(out, cws);
    CopyBlock(out, end, ToBlock(last));
    assert out[..] == out[..18] + out[18..end] + out[end..];
  }

  /** genDPF's serialisation loop: word i - 1 at bytes 18 * i to 18 * i + 17, the header and the tail untouched. */
  method WriteCws(out: array<bv8>, cws: array<Cw>)
    requires out.Length == 18 * cws.Length + 34
    modifies out
    ensures out[..18] == old(out[..18]) && out[18 * cws.Length + 18..] == old(out[18 * cws.Length + 18..])
    ensures out[18..18 * cws.Length + 18] == CwBytes(cws[..])
  {
    var i := 1;
    while i <= cws.Length
      invariant 1 <= i <= cws.Length + 1
      invariant out[..18] == old(out[..18]) && out[18 * cws.Length + 18..] == old(out[18 * cws.Length + 18..])
      invariant out[18..18 * i] == CwBytes(cws[..i - 1])
    {
      ghost var before := out[..];
      WriteCw(out, 18 * i, cws[i - 1]);
      CwStep(before, out[..], cws[..], i);
      i := i + 1;
    }
    assert cws[..cws.Length] == cws[..];
  }

  /** Writing word i - 1 at bytes 18 * i to 18 * i + 17 extends the written layout by one word and keeps the rest. */
  lemma CwStep(before: seq<bv8>, after: seq<bv8>, cws: seq<Cw>, i: nat)
    requires |before| == 18 * |cws| + 34 && |after| == |before| && 1 <= i <= |cws|
    requires before[18..18 * i] == CwBytes(cws[..i - 1])
    requires after[..18 * i] == before[..18 * i] && after[18 * i + 18..] == before[18 * i + 18..]
    requires after[18 * i..18 * i + 18] == cws[i - 1].seed + [cws[i - 1].t0, cws[i - 1].t1]
    ensures after[..18] == before[..18] && after[18 * |cws| + 18..] == before[18 * |cws| + 18..]
    ensures after[18..18 * i + 18] == CwBytes(cws[..i])
  {
    assert after[..18] == after[..18 * i][..18];
    assert before[..18] == before[..18 * i][..18];
    assert after[18 * |cws| + 18..] == after[18 * i + 18..][18 * (|cws| - i)..];
    assert before[18 * |cws| + 18..] == before[18 * i + 18..][18 * (|cws| - i)..];
    assert after[18..18 * i] == after[..18 * i][18..];
    assert before[18..18 * i] == before[..18 * i][18..];
    assert after[18..18 * i + 18] == after[18..18 * i] + after[18 * i..18 * i + 18];
    CwBytesSnoc(cws, i);
  }

  /** One level's 18 bytes: sCW, then tCW0 and tCW1. */
  method WriteCw(out: array<bv8>, at: nat, cw: Cw)
    requires at + 18 <= out.Length
    modifies out
    ensures out[..at] == old(out[..at]) && out[at + 18..] == old(out[at + 18..])
    ensures out[at..at + 18] == cw.seed + [cw.t0, cw.t1]
  {
    CopyBlock(out, at, cw.seed);
    out[at + 16] := cw.t0;
    out[at + 17] := cw.t1;
    assert out[at..at + 18] == out[at..at + 16] + out[at + 16..at + 18];
  }

  /**
   * One iteration of genDPF's level loop: both parties expand their node,
   * the index bit says which side is kept, the lost side's seeds give sCW,
   * and a party whose control bit is 1 applies the correction word.
   */
  method GenLevel(prg: Generator, n0: Node, n1: Node, indexBit: nat) returns (cw: Cw, next0: Node, next1: Node)
    requires indexBit < 2
    ensures (cw, next0, next1) == GenStep(prg, n0, n1, indexBit)
  {
    var s0 := prg(n0.seed);
    var s1 := prg(n1.seed);
    var keep, lose := if indexBit == 0 then Left else Right, if indexBit == 0 then Right else Left;
    var s0Keep, s0Lose := Side(s0, keep), Side(s0, lose);
    var s1Keep, s1Lose := Side(s1, keep), Side(s1, lose);

    var ib: bv8 := if indexBit == 0 then 0 else 1;
    cw := Cw(XorBlock(s0Lose.seed, s1Lose.seed), s0.0.bit ^ s1.0.bit ^ ib ^ 1, s0.1.bit ^ s1.1.bit ^ ib);

    var t := if keep == 0 then cw.t0 else cw.t1;
    next0 := if n0.bit == 1 then Node(XorBlock(s0Keep.seed, cw.seed), s0Keep.bit ^ t) else s0Keep;
    next1 := if n1.bit == 1 then Node(XorBlock(s1Keep.seed, cw.seed), s1Keep.bit ^ t) else s1Keep;
  }

  /**
   * genDPF's level loop: both parties' seeds and control bits level by
   * level, and the correction word of each level. Returns the correction
   * words and the two parties' nodes at depth `size`.
   */
  method GenLevels(prg: Generator, size: nat, index: Uint64, r0: Block, r1: Block) returns (cws: array<Cw>, last0: Node, last1: Node)
    ensures fresh(cws)
    ensures (cws[..], last0, last1) == GenRun(prg, r0, r1, index, size, size)
  {
    var nodes0 := new Node[size + 1];
    var nodes1 := new Node[size + 1];
    cws := new Cw[size];
    nodes0[0] := Node(r0, 0);
    nodes1[0] := Node(r1, 1);

    ghost var prev := GenRun(prg, r0, r1, index, size, 0);
    var i := 1;
    while i <= size
      modifies nodes0, nodes1, cws
      invariant 1 <= i <= size + 1
      invariant prev == GenRun(prg, r0, r1, index, size, i - 1)
      invariant nodes0[i - 1] == prev.1 && nodes1[i - 1] == prev.2
      invariant cws[..i - 1] == prev.0
    {
      var cw, next0, next1 := GenLevel(prg, nodes0[i - 1], nodes1[i - 1], GetBit(index, size, i));
      cws[i - 1] := cw;
      assert cws[..i] == prev.0 + [cw];
      nodes0[i] := next0;
      nodes1[i] := next1;
      prev := (prev.0 + [cw], next0, next1);
      i := i + 1;
    }
    assert cws[..] == cws[..size];
    last0, last1 := nodes0[size], nodes1[size];
  }

  /**
   * genDPF: the level loop, the last correction word from both parties'
   * final seeds, then both keys written byte by byte. The result is GenKeys
   * for `prg` and the random root seeds r0 and r1.
   */
  method GenDpf(prg: Generator, size: nat, index: Uint64, r0: Block, r1: Block) returns (k0: seq<bv8>, k1: seq<bv8>)
    ensures (k0, k1) == GenKeys(prg, r0, r1, index, size)
  {
    var cws, last0, last1 := GenLevels(prg, size, index, r0, r1);
    ghost var g := GenRun(prg, r0, r1, index, size, size);

    var lastCW := LastCorrectionWord(last0, last1);

    var out0 := new bv8[18 * size + 34];
    WriteKey(out0, 0, r0, 0, cws, lastCW);
    k0 := out0[..];
    k1 := OtherPartyKey(out0, r1);

    assert k0 == GenKeys(prg, r0, r1, index, size).0;
    OtherKeyFromFirst(prg, r0, r1, index, size);
  }

  /** The last correction word from both parties' final seeds and party 1's final control bit. */
  method LastCorrectionWord(last0: Node, last1: Node) returns (lastCW: nat)
    ensures lastCW == LastCw(last0, last1)
  {
    var sFinal0 := Convert(last0.seed);
    var sFinal1 := Convert(last1.seed);
    lastCW := ModAfterAdd(1 + Negate(sFinal0) + sFinal1);
    if last1.bit == 1 {
      lastCW := Negate(lastCW);
    }
  }

  /** k1: a copy of k0 with party byte 1, party 1's root seed and root control bit 1. */
  method OtherPartyKey(k0: array<bv8>, r1: Block) returns (k1: seq<bv8>)
    requires k0.Length >= 18
    ensures k1 == [1] + r1 + [1] + k0[18..]
  {
    var out1 := new bv8[k0.Length];
    forall j | 0 <= j < out1.Length {
      out1[j] := k0[j];
    }
    CopyBlock(out1, 1, r1);
    out1[0] := 1;
    out1[17] := 1;
    k1 := out1[..];
    assert k1[18..] == k0[18..];
    assert k1 == k1[..1] + k1[1..17] + k1[17..18] + k1[18..];
  }

  /** The key parsing shared by batchEvalDPF and fullDomainDPF: the correction words of levels 1..size. */
  method ParseCws(k: seq<bv8>, size: nat) returns (cws: array<Cw>)
    requires 18 * size + 18 <= |k|
    ensures fresh(cws)
    ensures cws[..] == KeyCws(k, size)
  {
    cws := new Cw[size];
    var i := 1;
    while i <= size
      invariant 1 <= i <= size + 1
      invariant forall j :: 0 <= j < i - 1 ==> cws[j] == KeyCw(k, j + 1)
    {
      cws[i - 1] := Cw(k[18 * i..18 * i + 16], k[18 * i + 16], k[18 * i + 17]);
      i := i + 1;
    }
  }

  /**
   * The evaluation step shared by batchEvalDPF and fullDomainDPF: dpfPRG on
   * the node's seed, corrected by the level's word when its control bit is 1.
   */
  method ExpandNode(prg: Generator, n: Node, cw: Cw) returns (left: Node, right: Node)
    ensures (left, right) == Children(prg, n, cw)
  {
    var c := prg(n.seed);
    var sL, sR, tL, tR := c.0.seed, c.1.seed, c.0.bit, c.1.bit;
    if n.bit == 1 {
      sL := XorBlock(sL, cw.seed);
      sR := XorBlock(sR, cw.seed);
      tL := tL ^ cw.t0;
      tR := tR ^ cw.t1;
    }
    left, right := Node(sL, tL), Node(sR, tR);
  }

  /**
   * fullDomainDPF's parent index: at position 2h of level d >= 1 (node
   * 2^d - 1 + 2h), i - levelIndex - (numIndexesInLevel - levelIndex) / 2 is
   * the parent's node, position h of level d - 1.
   */
  lemma ParentIndex(d: nat, h: nat)
    requires d >= 1 && h < Pow2(d - 1)
    ensures (Pow2(d) - 1 + 2 * h) - 2 * h - (Pow2(d) - 2 * h) / 2 == Pow2(d - 1) - 1 + h
  {
    assert Pow2(d) == 2 * Pow2(d - 1);
  }

  /**
   * The position bookkeeping of fullDomainDPF's loop: the pair at position
   * 2h of level d lies inside the tree, and when it is the level's last pair
   * and not the tree's, a deeper level follows.
   */
  lemma NextPair(size: nat, d: nat, h: nat)
    requires 1 <= d <= size && h < Pow2(d - 1)
    ensures Pow2(d) - 1 + 2 * h + 2 <= Pow2(size + 1) - 1
    ensures h + 1 == Pow2(d - 1) ==> Pow2(d) - 1 + 2 * h + 2 == 2 * Pow2(d) - 1
    ensures h + 1 == Pow2(d - 1) && Pow2(d) - 1 + 2 * h + 2 < Pow2(size + 1) - 1 ==> d < size
  {
    assert Pow2(d) == 2 * Pow2(d - 1);
    assert Pow2(d + 1) == 2 * Pow2(d);
    Pow2Monotone(d + 1, size + 1);
  }

  /** The first n entries of s are the first n nodes of the heap-ordered tree. */
  ghost predicate HeapPrefix(prg: Generator, root: Node, cws: seq<Cw>, s: seq<Node>, n: nat)
  {
    && n <= |s|
    && forall j :: 0 <= j < n ==> HeapLevel(j) <= |cws| && s[j] == HeapNode(prg, root, cws, j)
  }

  /** Writing the next two nodes extends a heap prefix by two. */
  lemma {:induction false} HeapPrefixExtend(prg: Generator, root: Node, cws: seq<Cw>, s: seq<Node>, i: nat, left: Node, right: Node)
    requires HeapPrefix(prg, root, cws, s, i) && i + 1 < |s|
    requires HeapLevel(i) <= |cws| && HeapLevel(i + 1) <= |cws|
    requires left == HeapNode(prg, root, cws, i) && right == HeapNode(prg, root, cws, i + 1)
    ensures HeapPrefix(prg, root, cws, s[i := left][i + 1 := right], i + 2)
  {
    var t := s[i := left][i + 1 := right];
    forall j | 0 <= j < i + 2
      ensures HeapLevel(j) <= |cws| && t[j] == HeapNode(prg, root, cws, j)
    {
      if j < i {
        assert t[j] == s[j];
      }
    }
  }

  /**
   * One round of fullDomainDPF's main loop: the pair at position 2h of level
   * level + 1 is computed from its parent and written at i and i + 1.
   */
  method ExpandPair(prg: Generator, root: Node, cws: array<Cw>, tree: array<Node>, i: nat, parentIndex: nat, level: nat, ghost h: nat)
    requires level < cws.Length && h < Pow2(level) && i + 1 < tree.Length
    requires i == 2 * Pow2(level) - 1 + 2 * h && parentIndex == Pow2(level) - 1 + h
    requires HeapPrefix(prg, root, cws[..], tree[..], i)
    modifies tree
    ensures HeapPrefix(prg, root, cws[..], tree[..], i + 2)
  {
    ghost var words := cws[..];
    ghost var before := tree[..];
    HeapPair(prg, root, words, level, h, i, parentIndex);
    assert before[parentIndex] == HeapNode(prg, root, words, parentIndex);
    var left, right := ExpandNode(prg, tree[parentIndex], cws[level]);
    HeapPrefixExtend(prg, root, words, before, i, left, right);
    tree[i] := left;
    tree[i + 1] := right;
    assert tree[..] == before[i := left][i + 1 := right];
  }

  /**
   * fullDomainDPF's main loop: the whole depth-`size` tree, level by level,
   * in a heap-ordered array; each pair's parent comes from the position in
   * the level.
   */
  method ExpandTree(prg: Generator, root: Node, cws: array<Cw>) returns (tree: array<Node>)
    requires cws.Length <= 29
    ensures fresh(tree) && tree.Length == 2 * Pow2(cws.Length) - 1
    ensures forall j :: 0 <= j < tree.Length ==> HeapLevel(j) <= cws.Length && tree[j] == HeapNode(prg, root, cws[..], j)
  {
    var size := cws.Length;
    var numLeaves := Pow2(size);
    var currLevel := 0;
    var levelIndex := 0;
    var numIndexesInLevel := 2;
    var treeSize := 2 * numLeaves - 1;
    tree := new Node[treeSize];
    tree[0] := root;
    assert HeapLevel(0) == 0;
    assert Pow2(size + 1) == 2 * numLeaves;

    ghost var half := 0;
    var i := 1;
    while i < treeSize
      modifies tree
      invariant 1 <= i <= treeSize
      invariant i < treeSize ==>
        && currLevel < size && numIndexesInLevel == 2 * Pow2(currLevel)
        && levelIndex == 2 * half && half < Pow2(currLevel)
        && i == 2 * Pow2(currLevel) - 1 + levelIndex
      invariant HeapPrefix(prg, root, cws[..], tree[..], i)
    {
      var parentIndex := 0;
      if i > 1 {
        parentIndex := i - levelIndex - ((numIndexesInLevel - levelIndex) / 2);
      }
      ghost var d := currLevel + 1;
      assert Pow2(d) == 2 * Pow2(currLevel);
      ParentIndex(d, half);
      NextPair(size, d, half);
      ExpandPair(prg, root, cws, tree, i, parentIndex, currLevel, half);

      levelIndex := levelIndex + 2;
      half := half + 1;
      if levelIndex == numIndexesInLevel {
        currLevel := currLevel + 1;
        numIndexesInLevel := numIndexesInLevel * 2;
        levelIndex := 0;
        half := 0;
      }
      i := i + 2;
    }
    assert forall j :: 0 <= j < tree.Length ==> tree[..][j] == tree[j];
  }

  /**
   * fullDomainDPF: expands the whole tree and returns its leaves; leaf i is
   * the node reached along i's bits, most significant first.
   */
  method FullDomainDpf(prg: Generator, size: nat, b: bool, k: seq<bv8>) returns (leaves: seq<Node>)
    requires size <= 29
    requires 18 * size + 18 <= |k|
    ensures |leaves| == Pow2(size)
    ensures forall i :: 0 <= i < Pow2(size) ==> leaves[i] == Walk(prg, EvalRoot(k, b), KeyCws(k, size), PathBits(i, size, size))
  {
    var cws := ParseCws(k, size);
    var root := Node(k[1..17], if b then 1 else 0);
    var tree := ExpandTree(prg, root, cws);
    var numLeaves := Pow2(size);
    leaves := CopyLeaves(tree, numLeaves);
    ghost var words := cws[..];
    assert root == EvalRoot(k, b) && words == KeyCws(k, size);
    forall i | 0 <= i < numLeaves
      ensures leaves[i] == Walk(prg, root, words, PathBits(i, size, size))
    {
      var index := numLeaves - 1 + i;
      assert leaves[i] == tree[index];
      HeapLeafIsWalk(prg, root, words, size, i);
    }
  }

  /** The end of fullDomainDPF: the last numLeaves nodes of the tree, in order. */
  method CopyLeaves(tree: array<Node>, numLeaves: nat) returns (leaves: seq<Node>)
    requires numLeaves <= tree.Length
    ensures leaves == tree[tree.Length - numLeaves..]
  {
    var treeSize := tree.Length;
    var out := new Node[numLeaves];
    var i := 0;
    while i < numLeaves
      modifies out
      invariant 0 <= i <= numLeaves
      invariant out[..i] == tree[treeSize - numLeaves..treeSize - numLeaves + i]
    {
      var index := treeSize - numLeaves + i;
      out[i] := tree[index];
      i := i + 1;
    }
    leaves := out[..];
  }

  /** A slice inside the first part of a concatenation. */
  lemma SliceOfAppend(a: seq<bv8>, c: seq<bv8>, lo: nat, hi: nat)
    requires lo <= hi <= |a|
    ensures (a + c)[lo..hi] == a[lo..hi]
  {
    assert forall j :: lo <= j < hi ==> (a + c)[j] == a[j];
  }

  /** The 16-byte blocks f(x) for the points of xs, one after another. */
  function Blocks(f: Uint64 -> Block, xs: seq<Uint64>): (out: seq<bv8>)
    ensures |out| == 16 * |xs|
  {
    if |xs| == 0 then [] else Blocks(f, xs[..|xs| - 1]) + f(xs[|xs| - 1])
  }

  /** The blocks of the first l + 1 points extend those of the first l by f(xs[l]). */
  lemma BlocksSnoc(f: Uint64 -> Block, xs: seq<Uint64>, l: nat)
    requires l < |xs|
    ensures Blocks(f, xs[..l + 1]) == Blocks(f, xs[..l]) + f(xs[l])
  {
    assert xs[..l + 1][..l] == xs[..l];
  }

  /** Block l of the output is f(xs[l]). */
  lemma {:induction false} BlocksAt(f: Uint64 -> Block, xs: seq<Uint64>, l: nat)
    requires l < |xs|
    ensures Blocks(f, xs)[16 * l..16 * l + 16] == f(xs[l])
  {
    var n := |xs| - 1;
    var front := Blocks(f, xs[..n]);
    var whole := Blocks(f, xs);
    assert whole == front + f(xs[n]);
    if l < n {
      var sub := xs[..n];
      assert sub[l] == xs[l];
      BlocksAt(f, sub, l);
      SliceOfAppend(front, f(xs[n]), 16 * l, 16 * l + 16);
    } else {
      assert |front| == 16 * l;
    }
  }

  /** The 16 bytes batchEvalDPF writes for the point x: the key's share there. */
  function ShareBlock(prg: Generator, k: seq<bv8>, size: nat, b: bool): Uint64 -> Block
    requires 18 * size + 34 <= |k|
  {
    x => ToBlock(EvalAt(prg, k, size, b, x))
  }

  /**
   * batchEvalDPF: the key's share at each x in xs, written as 16 bytes per
   * point, with the first NumCacheLayers levels taken from a full-domain
   * expansion.
   */
  method BatchEvalDpf(prg: Generator, size: nat, b: bool, k: seq<bv8>, xs: seq<Uint64>) returns (out: seq<bv8>)
    requires NumCacheLayers <= size < 76
    requires 18 * size + 34 <= |k|
    ensures out == Blocks(ShareBlock(prg, k, size, b), xs)
    ensures forall l :: 0 <= l < |xs| ==> out[16 * l..16 * l + 16] == ToBlock(EvalAt(prg, k, size, b, xs[l]))
  {
    var cws := ParseCws(k, size);
    var cached := FullDomainDpf(prg, NumCacheLayers, b, k);
    out := EvalAll(prg, size, b, k, cws, cached, xs);
    forall l | 0 <= l < |xs|
      ensures out[16 * l..16 * l + 16] == ToBlock(EvalAt(prg, k, size, b, xs[l]))
    {
      BlocksAt(ShareBlock(prg, k, size, b), xs, l);
    }
  }

  /** batchEvalDPF's outer loop: each point's share, copied into the output buffer. */
  method EvalAll(prg: Generator, size: nat, b: bool, k: seq<bv8>, cws: array<Cw>, cached: seq<Node>, xs: seq<Uint64>) returns (out: seq<bv8>)
    requires NumCacheLayers <= size < 76
    requires 18 * size + 34 <= |k|
    requires cws[..] == KeyCws(k, size)
    requires |cached| == Pow2(NumCacheLayers)
    requires forall i :: 0 <= i < Pow2(NumCacheLayers) ==>
      cached[i] == Walk(prg, EvalRoot(k, b), KeyCws(k, NumCacheLayers), PathBits(i, NumCacheLayers, NumCacheLayers))
    ensures out == Blocks(ShareBlock(prg, k, size, b), xs)
  {
    var outBuf := new bv8[16 * |xs|];
    var l := 0;
    while l < |xs|
      modifies outBuf
      invariant 0 <= l <= |xs|
      invariant outBuf[..16 * l] == Blocks(ShareBlock(prg, k, size, b), xs[..l])
    {
      EvalInto(prg, size, b, k, cws, cached, xs, l, outBuf);
      l := l + 1;
    }
    assert xs[..l] == xs;
    out := outBuf[..];
  }

  /** One iteration of batchEvalDPF's outer loop: the share at xs[l] into bytes 16 * l to 16 * l + 15 of the output. */
  method EvalInto(prg: Generator, size: nat, b: bool, k: seq<bv8>, cws: array<Cw>, cached: seq<Node>, xs: seq<Uint64>, l: nat, outBuf: array<bv8>)
    requires NumCacheLayers <= size < 76
    requires 18 * size + 34 <= |k|
    requires cws[..] == KeyCws(k, size)
    requires |cached| == Pow2(NumCacheLayers)
    requires forall i :: 0 <= i < Pow2(NumCacheLayers) ==>
      cached[i] == Walk(prg, EvalRoot(k, b), KeyCws(k, NumCacheLayers), PathBits(i, NumCacheLayers, NumCacheLayers))
    requires l < |xs| && outBuf.Length == 16 * |xs|
    requires outBuf[..16 * l] == Blocks(ShareBlock(prg, k, size, b), xs[..l])
    modifies outBuf
    ensures outBuf[..16 * l + 16] == Blocks(ShareBlock(prg, k, size, b), xs[..l + 1])
  {
    var res := EvalPoint(prg, size, b, k, cws, cached, xs[l]);
    var block := ToBlock(res);
    ghost var share := ShareBlock(prg, k, size, b);
    assert block == share(xs[l]);
    CopyBlock(outBuf, 16 * l, block);
    BlocksSnoc(share, xs, l);
  }

  /** batchEvalDPF's cache lookup: the node at depth NumCacheLayers on the path to x. */
  method CachedNode(prg: Generator, size: nat, b: bool, k: seq<bv8>, cws: array<Cw>, cached: seq<Node>, x: Uint64) returns (node: Node)
    requires NumCacheLayers <= size
    requires 18 * size + 34 <= |k|
    requires cws[..] == KeyCws(k, size)
    requires |cached| == Pow2(NumCacheLayers)
    requires forall i :: 0 <= i < Pow2(NumCacheLayers) ==>
      cached[i] == Walk(prg, EvalRoot(k, b), KeyCws(k, NumCacheLayers), PathBits(i, NumCacheLayers, NumCacheLayers))
    ensures node == Walk(prg, EvalRoot(k, b), cws[..], PathBits(x, size, NumCacheLayers))
  {
    var idx := (x / Pow2(size - NumCacheLayers)) % Pow2(NumCacheLayers);
    node := cached[idx];
    ghost var path := PathBits(x, size, NumCacheLayers);
    CachePath(x, size, NumCacheLayers);
    assert node == Walk(prg, EvalRoot(k, b), KeyCws(k, NumCacheLayers), path);
    KeyCwsPrefix(k, size, NumCacheLayers);
    WalkUsesPrefix(prg, EvalRoot(k, b), KeyCws(k, NumCacheLayers), cws[..], path);
  }

  /** batchEvalDPF's inner loop: from the cached node down to the leaf on the path to x. */
  method WalkBelowCache(prg: Generator, size: nat, cws: array<Cw>, x: Uint64, ghost root: Node, start: Node) returns (node: Node)
    requires NumCacheLayers <= size <= cws.Length
    requires start == Walk(prg, root, cws[..], PathBits(x, size, NumCacheLayers))
    ensures node == Walk(prg, root, cws[..], PathBits(x, size, size))
  {
    node := start;
    var i := NumCacheLayers + 1;
    while i <= size
      invariant NumCacheLayers + 1 <= i <= size + 1
      invariant node == Walk(prg, root, cws[..], PathBits(x, size, i - 1))
    {
      var left, right := ExpandNode(prg, node, cws[i - 1]);
      var xbit := GetBit(x, size, i);
      WalkPathStep(prg, root, cws[..], x, size, i);
      // (1 - xbit) * sL + xbit * sR, for xbit in {0, 1}
      node := if xbit == 0 then left else right;
      i := i + 1;
    }
  }

  /** The end of batchEvalDPF's outer loop: the leaf's seed converted, corrected and negated. */
  method LeafOutput(node: Node, k: seq<bv8>, size: nat, b: bool) returns (res: nat)
    requires 18 * size + 34 <= |k|
    ensures res == Output(node, KeyLast(k, size), b)
  {
    res := Convert(node.seed);
    if node.bit == 1 {
      var lastCW := BlockValue(k[18 * size + 18..18 * size + 34]);
      res := ModAfterAdd((res + lastCW) % Mod128);
    }
    if b {
      res := Negate(res);
    }
  }

  /** One iteration of batchEvalDPF's outer loop: the share at x. */
  method EvalPoint(prg: Generator, size: nat, b: bool, k: seq<bv8>, cws: array<Cw>, cached: seq<Node>, x: Uint64) returns (res: nat)
    requires NumCacheLayers <= size < 76
    requires 18 * size + 34 <= |k|
    requires cws[..] == KeyCws(k, size)
    requires |cached| == Pow2(NumCacheLayers)
    requires forall i :: 0 <= i < Pow2(NumCacheLayers) ==>
      cached[i] == Walk(prg, EvalRoot(k, b), KeyCws(k, NumCacheLayers), PathBits(i, NumCacheLayers, NumCacheLayers))
    ensures res == EvalAt(prg, k, size, b, x)
  {
    var start := CachedNode(prg, size, b, k, cws, cached, x);
    var leaf := WalkBelowCache(prg, size, cws, x, EvalRoot(k, b), start);
    res := LeafOutput(leaf, k, size, b);
  }
}
