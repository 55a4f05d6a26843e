/**
 * The two-party distributed point function of pir/dpfc/src/dpf.c as
 * functions of the seeds: the PRG, one level of evaluation, key generation
 * level by level, the key byte layout, and evaluation at a point. The AES
 * block cipher under the context key is the parameter `aes`; the tree
 * functions take the PRG it induces as a function value `prg`, so that the
 * correctness theorem holds for any PRG whose control bits are 0 or 1. The
 * two random root seeds of genDPF are the parameters r0 and r1.
 */
module DpfTree {
  import opened DpfBlock

  /** AES-128 in ECB mode under the context's key, one block at a time. */
  type Cipher = Block -> Block

  /** A tree node of one party: its seed and its control bit. */
  datatype Node = Node(seed: Block, bit: bv8)

  /** A level's correction word: sCW, and tCW0/tCW1 for the left and right child. */
  datatype Cw = Cw(seed: Block, t0: bv8, t1: bv8)

  /** Control bits are 0 or 1. */
  predicate IsBit(t: bv8)
  {
    t == 0 || t == 1
  }

  /**
   * dpfPRG: the left and right child of a seed. Both output seeds have bit 0
   * cleared and both control bits are 0 or 1.
   */
  function Prg(aes: Cipher, input: Block): (r: (Node, Node))
    ensures Lsb(r.0.seed) == 0 && Lsb(r.1.seed) == 0
    ensures IsBit(r.0.bit) && IsBit(r.1.bit)
  {
    var in0 := SetLsbZero(input);
    var in1 := ReverseLsb(in0);
    var stash0 := XorBlock(aes(in0), in0);
    var stash1 := ReverseLsb(XorBlock(aes(in1), in0));
    (Node(SetLsbZero(stash0), Lsb(stash0)), Node(SetLsbZero(stash1), Lsb(stash1)))
  }

  /** A PRG from a seed to its left and right child, as dpfPRG is under a fixed cipher. */
  type Generator = Block -> (Node, Node)

  /** dpfPRG under the cipher `aes`. */
  function PrgOf(aes: Cipher): Generator
  {
    (s: Block) => Prg(aes, s)
  }

  /** The property of dpfPRG the correctness proof relies on: its control bits are 0 or 1. */
  ghost predicate BitsAreBits(prg: Generator)
  {
    forall s :: IsBit(prg(s).0.bit) && IsBit(prg(s).1.bit)
  }

  lemma PrgOfBitsAreBits(aes: Cipher)
    ensures BitsAreBits(PrgOf(aes))
  {
    forall s
      ensures IsBit(PrgOf(aes)(s).0.bit) && IsBit(PrgOf(aes)(s).1.bit)
    {
      var r := Prg(aes, s);
    }
  }

  /** Both children of a node, corrected by the level's word when the node's control bit is 1. */
  function Children(prg: Generator, n: Node, cw: Cw): (Node, Node)
  {
    var c := prg(n.seed);
    if n.bit == 1 then
      (Node(XorBlock(c.0.seed, cw.seed), c.0.bit ^ cw.t0), Node(XorBlock(c.1.seed, cw.seed), c.1.bit ^ cw.t1))
    else c
  }

  /** The child in direction `dir` (0 left, 1 right). */
  function Expand(prg: Generator, n: Node, cw: Cw, dir: nat): Node
  {
    if dir == 0 then Children(prg, n, cw).0 else Children(prg, n, cw).1
  }

  /** The node reached from `root` by following `path`, level j using correction word cws[j]. */
  function Walk(prg: Generator, root: Node, cws: seq<Cw>, path: seq<nat>): Node
    requires |path| <= |cws|
  {
    if |path| == 0 then root
    else Expand(prg, Walk(prg, root, cws, path[..|path| - 1]), cws[|path| - 1], path[|path| - 1])
  }

  lemma {:induction false} WalkUsesPrefix(prg: Generator, root: Node, cws: seq<Cw>, other: seq<Cw>, path: seq<nat>)
    requires |path| <= |cws| && |path| <= |other| && cws[..|path|] == other[..|path|]
    ensures Walk(prg, root, cws, path) == Walk(prg, root, other, path)
  {
    if |path| > 0 {
      var n := |path| - 1;
      assert cws[..n] == cws[..|path|][..n] && other[..n] == other[..|path|][..n];
      WalkUsesPrefix(prg, root, cws, other, path[..n]);
      assert cws[n] == cws[..|path|][n] && other[n] == other[..|path|][n];
    }
  }

  /** One more level of the path to x: the child of the previous node in x's i-th bit's direction. */
  lemma WalkPathStep(prg: Generator, root: Node, cws: seq<Cw>, x: nat, size: nat, i: nat)
    requires 1 <= i <= size <= |cws|
    ensures Walk(prg, root, cws, PathBits(x, size, i)) == Expand(prg, Walk(prg, root, cws, PathBits(x, size, i - 1)), cws[i - 1], GetBit(x, size, i))
  {
    PathBitsSnoc(x, size, i);
  }

  // ---------------------------------------------------------------------
  // Key generation
  // ---------------------------------------------------------------------

  /** The left (0) or right (1) output of the PRG. */
  function Side(children: (Node, Node), dir: nat): Node
  {
    if dir == 0 then children.0 else children.1
  }

  /**
   * One iteration of genDPF's level loop: from the two parties' nodes on
   * the index path and the index's bit at this level, the correction word
   * and the two parties' next nodes on the path.
   */
  function GenStep(prg: Generator, n0: Node, n1: Node, indexBit: nat): (Cw, Node, Node)
    requires indexBit < 2
  {
    var c0 := prg(n0.seed);
    var c1 := prg(n1.seed);
    var ib: bv8 := if indexBit == 0 then 0 else 1;
    var keep0, lose0 := Side(c0, indexBit), Side(c0, 1 - indexBit);
    var keep1, lose1 := Side(c1, indexBit), Side(c1, 1 - indexBit);
    var sCW := XorBlock(lose0.seed, lose1.seed);
    var tCW0 := c0.0.bit ^ c1.0.bit ^ ib ^ 1;
    var tCW1 := c0.1.bit ^ c1.1.bit ^ ib;
    var tKeep := if indexBit == 0 then tCW0 else tCW1;
    var next0 := if n0.bit == 1 then Node(XorBlock(keep0.seed, sCW), keep0.bit ^ tKeep) else keep0;
    var next1 := if n1.bit == 1 then Node(XorBlock(keep1.seed, sCW), keep1.bit ^ tKeep) else keep1;
    (Cw(sCW, tCW0, tCW1), next0, next1)
  }

  /** The roots: party 0 starts with control bit 0, party 1 with control bit 1. */
  function Root0(r0: Block): Node { Node(r0, 0) }
  function Root1(r1: Block): Node { Node(r1, 1) }

  /** The first i levels of genDPF: correction words so far and both parties' nodes at depth i. */
  function GenRun(prg: Generator, r0: Block, r1: Block, index: nat, size: nat, i: nat): (g: (seq<Cw>, Node, Node))
    requires i <= size
    ensures |g.0| == i
  {
    if i == 0 then ([], Root0(r0), Root1(r1))
    else
      var prev := GenRun(prg, r0, r1, index, size, i - 1);
      var step := GenStep(prg, prev.1, prev.2, GetBit(index, size, i));
      (prev.0 + [step.0], step.1, step.2)
  }

  /**
   * The correction property of one level: on the index's side each party's
   * expansion gives its generated node and the control bits still differ;
   * on the other side the two parties' expansions coincide.
   */
  lemma GenStepCorrects(prg: Generator, n0: Node, n1: Node, indexBit: nat)
    requires BitsAreBits(prg)
    requires indexBit < 2 && IsBit(n0.bit) && IsBit(n1.bit) && n0.bit != n1.bit
    ensures var g := GenStep(prg, n0, n1, indexBit);
      && Expand(prg, n0, g.0, indexBit) == g.1 && Expand(prg, n1, g.0, indexBit) == g.2
      && IsBit(g.1.bit) && IsBit(g.2.bit) && g.1.bit != g.2.bit
      && Expand(prg, n0, g.0, 1 - indexBit) == Expand(prg, n1, g.0, 1 - indexBit)
  {
    var c0 := prg(n0.seed);
    var c1 := prg(n1.seed);
    assert IsBit(c0.0.bit) && IsBit(c0.1.bit) && IsBit(c1.0.bit) && IsBit(c1.1.bit);
    var g := GenStep(prg, n0, n1, indexBit);
    var l0, l1 := Side(c0, 1 - indexBit), Side(c1, 1 - indexBit);
    assert g.0.seed == XorBlock(l0.seed, l1.seed);
    XorCancel(l0.seed, l1.seed);
    if n0.bit == 1 {
      assert Expand(prg, n0, g.0, 1 - indexBit) == l1;
      assert Expand(prg, n1, g.0, 1 - indexBit) == l1;
    } else {
      assert Expand(prg, n0, g.0, 1 - indexBit) == l0;
      assert Expand(prg, n1, g.0, 1 - indexBit) == l0;
    }
  }

  lemma {:induction false} GenRunPrefix(prg: Generator, r0: Block, r1: Block, index: nat, size: nat, i: nat, j: nat)
    requires i <= j <= size
    ensures GenRun(prg, r0, r1, index, size, j).0[..i] == GenRun(prg, r0, r1, index, size, i).0
  {
    if i < j {
      GenRunPrefix(prg, r0, r1, index, size, i, j - 1);
      var prev := GenRun(prg, r0, r1, index, size, j - 1).0;
      assert GenRun(prg, r0, r1, index, size, j).0[..j - 1] == prev;
      assert GenRun(prg, r0, r1, index, size, j).0[..i] == prev[..i];
    }
  }

  /**
   * Walking both keys' words from the two roots along the first d bits of x:
   * while x follows the index the walks meet genDPF's path nodes (whose
   * control bits differ); once x leaves it the two parties hold the same node.
   */
  lemma {:induction false} WalkPair(prg: Generator, r0: Block, r1: Block, index: nat, size: nat, x: nat, d: nat)
    requires BitsAreBits(prg) && d <= size
    ensures var cws := GenRun(prg, r0, r1, index, size, size).0;
      var w0 := Walk(prg, Root0(r0), cws, PathBits(x, size, d));
      var w1 := Walk(prg, Root1(r1), cws, PathBits(x, size, d));
      if PathBits(x, size, d) == PathBits(index, size, d) then
        var g := GenRun(prg, r0, r1, index, size, d);
        w0 == g.1 && w1 == g.2 && IsBit(w0.bit) && IsBit(w1.bit) && w0.bit != w1.bit
      else w0 == w1
  {
    var cws := GenRun(prg, r0, r1, index, size, size).0;
    var p := PathBits(x, size, d);
    var q := PathBits(index, size, d);
    if d > 0 {
      WalkPair(prg, r0, r1, index, size, x, d - 1);
      var p' := PathBits(x, size, d - 1);
      var q' := PathBits(index, size, d - 1);
      PathBitsSnoc(x, size, d);
      PathBitsSnoc(index, size, d);
      WalkPathStep(prg, Root0(r0), cws, x, size, d);
      WalkPathStep(prg, Root1(r1), cws, x, size, d);
      var w0 := Walk(prg, Root0(r0), cws, p);
      var w1 := Walk(prg, Root1(r1), cws, p);
      if p' == q' {
        GenRunPrefix(prg, r0, r1, index, size, d, size);
        var g := GenRun(prg, r0, r1, index, size, d);
        var prev := GenRun(prg, r0, r1, index, size, d - 1);
        assert cws[d - 1] == g.0[d - 1];
        OnPathStep(prg, prev.1, prev.2, cws[d - 1], GetBit(index, size, d), GetBit(x, size, d), w0, w1);
        if GetBit(x, size, d) == GetBit(index, size, d) {
          assert p == q;
        } else {
          assert p[d - 1] != q[d - 1];
        }
      } else {
        assert p != q by { assert p[..d - 1] != q[..d - 1]; }
      }
    }
  }

  /**
   * One level below two path nodes: the child in the index's direction is
   * genDPF's next path node for each party, the other child is the same
   * node for both.
   */
  lemma OnPathStep(prg: Generator, n0: Node, n1: Node, cw: Cw, indexBit: nat, xBit: nat, w0: Node, w1: Node)
    requires BitsAreBits(prg) && indexBit < 2 && xBit < 2
    requires IsBit(n0.bit) && IsBit(n1.bit) && n0.bit != n1.bit
    requires cw == GenStep(prg, n0, n1, indexBit).0
    requires w0 == Expand(prg, n0, cw, xBit) && w1 == Expand(prg, n1, cw, xBit)
    ensures xBit == indexBit ==> var g := GenStep(prg, n0, n1, indexBit);
      w0 == g.1 && w1 == g.2 && IsBit(w0.bit) && IsBit(w1.bit) && w0.bit != w1.bit
    ensures xBit != indexBit ==> w0 == w1
  {
    GenStepCorrects(prg, n0, n1, indexBit);
  }

  /**
   * The last correction word: 1 - convert(final seed of party 0) +
   * convert(final seed of party 1), negated when party 1's final control bit is 1.
   */
  function LastCw(n0: Node, n1: Node): (r: nat)
    ensures r < FieldSize
  {
    LastWord(Convert(n0.seed), Convert(n1.seed), n1.bit == 1)
  }

  /** The last correction word on the converted final seeds, with t1 party 1's final control bit. */
  function LastWord(c0: nat, c1: nat, t1: bool): (r: nat)
    requires c0 < FieldSize && c1 < FieldSize
    ensures r < FieldSize
  {
    var last := ModAfterAdd(1 + Negate(c0) + c1);
    if t1 then Negate(last) else last
  }

  // ---------------------------------------------------------------------
  // Key layout
  // ---------------------------------------------------------------------

  /** The correction words laid out 18 bytes each: sCW, then tCW0, then tCW1. */
  function CwBytes(cws: seq<Cw>): (r: seq<bv8>)
    ensures |r| == 18 * |cws|
  {
    if |cws| == 0 then [] else CwBytes(cws[..|cws| - 1]) + cws[|cws| - 1].seed + [cws[|cws| - 1].t0, cws[|cws| - 1].t1]
  }

  /** The layout of the first i words ends with word i - 1's 18 bytes. */
  lemma CwBytesSnoc(cws: seq<Cw>, i: nat)
    requires 1 <= i <= |cws|
    ensures CwBytes(cws[..i]) == CwBytes(cws[..i - 1]) + cws[i - 1].seed + [cws[i - 1].t0, cws[i - 1].t1]
  {
    assert cws[..i][..i - 1] == cws[..i - 1];
  }

  /**
   * A key: party byte, root seed, root control bit, one 18-byte word per
   * level from byte 18 on, and the last correction word at INDEX_LASTCW.
   */
  function KeyBytes(party: bv8, root: Block, rootBit: bv8, cws: seq<Cw>, last: nat): (k: seq<bv8>)
    requires last < Mod128
    ensures |k| == 18 * |cws| + 34
  {
    [party] + root + [rootBit] + CwBytes(cws) + ToBlock(last)
  }

  /** The root seed of a key (bytes 1..16). */
  function KeyRoot(k: seq<bv8>): Block
    requires |k| >= 17
  {
    k[1..17]
  }

  /** The correction word of level i >= 1, read from bytes 18i..18i+17. */
  function KeyCw(k: seq<bv8>, i: nat): Cw
    requires 1 <= i && 18 * i + 18 <= |k|
  {
    Cw(k[18 * i..18 * i + 16], k[18 * i + 16], k[18 * i + 17])
  }

  /** The correction words of levels 1..size. */
  function KeyCws(k: seq<bv8>, size: nat): (cws: seq<Cw>)
    requires 18 * size + 18 <= |k|
    ensures |cws| == size
  {
    seq(size, j requires 0 <= j < size => KeyCw(k, j + 1))
  }

  /** The words of a shorter tree are the first words of a deeper one. */
  lemma KeyCwsPrefix(k: seq<bv8>, size: nat, n: nat)
    requires n <= size && 18 * size + 18 <= |k|
    ensures KeyCws(k, n) == KeyCws(k, size)[..n] && KeyCws(k, n)[..n] == KeyCws(k, size)[..n]
  {
  }

  /** The last correction word, a uint128_t at INDEX_LASTCW = 18·size + 18. */
  function KeyLast(k: seq<bv8>, size: nat): (r: nat)
    requires 18 * size + 34 <= |k|
    ensures r < Mod128
  {
    BlockValue(k[18 * size + 18..18 * size + 34])
  }

  lemma {:induction false} CwBytesLayout(cws: seq<Cw>, i: nat)
    requires i < |cws|
    ensures CwBytes(cws)[18 * i..18 * i + 16] == cws[i].seed
    ensures CwBytes(cws)[18 * i + 16] == cws[i].t0 && CwBytes(cws)[18 * i + 17] == cws[i].t1
  {
    var n := |cws| - 1;
    assert CwBytes(cws) == CwBytes(cws[..n]) + cws[n].seed + [cws[n].t0, cws[n].t1];
    if i < n {
      CwBytesLayout(cws[..n], i);
      assert cws[..n][i] == cws[i];
    }
  }

  /** Reading a key back gives the fields it was written from. */
  lemma KeyRoundTrip(party: bv8, root: Block, rootBit: bv8, cws: seq<Cw>, last: nat)
    requires last < Mod128
    ensures var k := KeyBytes(party, root, rootBit, cws, last);
      && k[0] == party && KeyRoot(k) == root && k[17] == rootBit
      && KeyCws(k, |cws|) == cws && KeyLast(k, |cws|) == last
  {
    var k := KeyBytes(party, root, rootBit, cws, last);
    assert k[..18] == [party] + root + [rootBit];
    assert KeyRoot(k) == root;
    forall j | 0 <= j < |cws|
      ensures KeyCws(k, |cws|)[j] == cws[j]
    {
      KeyWordAt(party, root, rootBit, cws, last, j);
    }
    assert k[18 * |cws| + 18..18 * |cws| + 34] == ToBlock(last);
  }

  /** Word j of a written key sits at bytes 18(j + 1)..18(j + 1) + 17. */
  lemma KeyWordAt(party: bv8, root: Block, rootBit: bv8, cws: seq<Cw>, last: nat, j: nat)
    requires last < Mod128 && j < |cws|
    ensures KeyCw(KeyBytes(party, root, rootBit, cws, last), j + 1) == cws[j]
  {
    var k := KeyBytes(party, root, rootBit, cws, last);
    var head, body := [party] + root + [rootBit], CwBytes(cws);
    assert k == head + (body + ToBlock(last));
    CwBytesLayout(cws, j);
    assert k[18 * (j + 1)..18 * (j + 1) + 16] == body[18 * j..18 * j + 16];
    assert k[18 * (j + 1) + 16] == body[18 * j + 16] && k[18 * (j + 1) + 17] == body[18 * j + 17];
  }

  /** genDPF's two keys, from the random root seeds r0 and r1. */
  function GenKeys(prg: Generator, r0: Block, r1: Block, index: nat, size: nat): (keys: (seq<bv8>, seq<bv8>))
    ensures |keys.0| == 18 * size + 34 && |keys.1| == 18 * size + 34
  {
    var g := GenRun(prg, r0, r1, index, size, size);
    var last := LastCw(g.1, g.2);
    (KeyBytes(0, r0, 0, g.0, last), KeyBytes(1, r1, 1, g.0, last))
  }

  /**
   * The two keys differ only in the party byte, the root seed and the root
   * control bit; everything from byte 18 on, including the last correction
   * word, is shared.
   */
  lemma GenKeysLayout(prg: Generator, r0: Block, r1: Block, index: nat, size: nat)
    ensures var keys := GenKeys(prg, r0, r1, index, size);
      && keys.0[0] == 0 && keys.1[0] == 1
      && KeyRoot(keys.0) == r0 && KeyRoot(keys.1) == r1
      && keys.0[17] == 0 && keys.1[17] == 1
      && keys.0[18..] == keys.1[18..]
  {
    var g := GenRun(prg, r0, r1, index, size, size);
    var last := LastCw(g.1, g.2);
    KeyRoundTrip(0, r0, 0, g.0, last);
    KeyRoundTrip(1, r1, 1, g.0, last);
    KeyBytesTail(0, r0, 0, g.0, last);
    KeyBytesTail(1, r1, 1, g.0, last);
  }

  /** Party 1's key is party 0's with the first 18 bytes replaced. */
  lemma OtherKeyFromFirst(prg: Generator, r0: Block, r1: Block, index: nat, size: nat)
    ensures GenKeys(prg, r0, r1, index, size).1 == [1] + r1 + [1] + GenKeys(prg, r0, r1, index, size).0[18..]
  {
    var g := GenRun(prg, r0, r1, index, size, size);
    var last := LastCw(g.1, g.2);
    KeyBytesTail(0, r0, 0, g.0, last);
  }

  lemma KeyBytesTail(party: bv8, root: Block, rootBit: bv8, cws: seq<Cw>, last: nat)
    requires last < Mod128
    ensures KeyBytes(party, root, rootBit, cws, last)[18..] == CwBytes(cws) + ToBlock(last)
  {
    var head := [party] + root + [rootBit];
    assert |head| == 18;
    assert KeyBytes(party, root, rootBit, cws, last) == head + (CwBytes(cws) + ToBlock(last));
  }

  // ---------------------------------------------------------------------
  // Evaluation
  // ---------------------------------------------------------------------

  /** A party's root when evaluating: the key's seed, with control bit b (not byte 17). */
  function EvalRoot(k: seq<bv8>, b: bool): Node
    requires |k| >= 17
  {
    Node(KeyRoot(k), if b then 1 else 0)
  }

  /**
   * The value batchEvalDPF writes for a leaf: convert the seed, add the last
   * correction word when the control bit is 1, negate for party 1.
   */
  function Output(leaf: Node, last: nat, b: bool): (r: nat)
    requires last < Mod128
    ensures r < Mod128
    ensures last < FieldSize ==> r < FieldSize
  {
    Share(Convert(leaf.seed), leaf.bit == 1, last, b)
  }

  /** Output on the converted final seed: the last word added when the control bit is 1, negated for party 1. */
  function Share(res: nat, t: bool, last: nat, b: bool): (r: nat)
    requires res < FieldSize && last < Mod128
    ensures r < Mod128
    ensures last < FieldSize ==> r < FieldSize
  {
    var corrected := if t then ModAfterAdd((res + last) % Mod128) else res;
    if b then Negate(corrected) else corrected
  }

  /** A key's share at point x: walk x's bits from the root, then Output. */
  function EvalAt(prg: Generator, k: seq<bv8>, size: nat, b: bool, x: nat): (r: nat)
    requires 18 * size + 34 <= |k|
    ensures r < Mod128
  {
    Output(Walk(prg, EvalRoot(k, b), KeyCws(k, size), PathBits(x, size, size)), KeyLast(k, size), b)
  }

  /** Where the two parties hold the same node, their shares cancel. */
  lemma OffPathCancels(leaf: Node, last: nat)
    requires last < FieldSize
    ensures (Output(leaf, last, false) + Output(leaf, last, true)) % FieldSize == 0
  {
  }

  /** On the index path the last correction word makes the shares add up to 1. */
  lemma OnPathSumsToOne(n0: Node, n1: Node)
    requires IsBit(n0.bit) && IsBit(n1.bit) && n0.bit != n1.bit
    ensures (Output(n0, LastCw(n0, n1), false) + Output(n1, LastCw(n0, n1), true)) % FieldSize == 1
  {
    assert (n0.bit == 1) == !(n1.bit == 1);
    OnPathArithmetic(Convert(n0.seed), Convert(n1.seed), n1.bit == 1);
  }

  /** Negate (FIELDSIZE - x for 0 < x < FIELDSIZE) and one conditional subtraction, spelled out. */
  lemma FieldOps(x: nat, r: nat)
    requires x < FieldSize && r < 2 * FieldSize
    ensures Negate(x) == (if x == 0 then 0 else FieldSize - x)
    ensures ModAfterAdd(r) == (if r < FieldSize then r else r - FieldSize)
  {
  }

  /**
   * The field arithmetic behind OnPathSumsToOne, on the converted final
   * seeds c0 and c1: with t1 party 1's final control bit (party 0's is the
   * other), party 0 adds the last word when t1 is false, party 1 when it is true.
   */
  lemma OnPathArithmetic(c0: nat, c1: nat, t1: bool)
    requires c0 < FieldSize && c1 < FieldSize
    ensures (Share(c0, !t1, LastWord(c0, c1, t1), false) + Share(c1, t1, LastWord(c0, c1, t1), true)) % FieldSize == 1
  {
    var n0 := Negate(c0);
    FieldOps(c0, 0);
    var l := ModAfterAdd(1 + n0 + c1);
    FieldOps(0, 1 + n0 + c1);
    if t1 {
      PartyOneArithmetic(c0, c1, n0, l);
    } else {
      PartyZeroArithmetic(c0, c1, n0, l);
    }
  }

  /** Party 1 holds control bit 1 and adds the negated last word. */
  lemma PartyOneArithmetic(c0: nat, c1: nat, n0: nat, l: nat)
    requires c0 < FieldSize && c1 < FieldSize
    requires n0 == (if c0 == 0 then 0 else FieldSize - c0)
    requires l == (if 1 + n0 + c1 < FieldSize then 1 + n0 + c1 else 1 + n0 + c1 - FieldSize)
    ensures (c0 + Negate(ModAfterAdd((c1 + Negate(l)) % Mod128))) % FieldSize == 1
  {
    var last := Negate(l);
    FieldOps(l, 0);
    assert (c1 + last) % Mod128 == c1 + last;
    var s := ModAfterAdd(c1 + last);
    FieldOps(0, c1 + last);
    FieldOps(s, 0);
    PartyOneCorrects(c0, c1, n0, l, last, s, Negate(s));
  }

  /** Party 0 holds control bit 1 and adds the last word as it is. */
  lemma PartyZeroArithmetic(c0: nat, c1: nat, n0: nat, l: nat)
    requires c0 < FieldSize && c1 < FieldSize
    requires n0 == (if c0 == 0 then 0 else FieldSize - c0)
    requires l == (if 1 + n0 + c1 < FieldSize then 1 + n0 + c1 else 1 + n0 + c1 - FieldSize)
    ensures (ModAfterAdd((c0 + l) % Mod128) + Negate(c1)) % FieldSize == 1
  {
    assert (c0 + l) % Mod128 == c0 + l;
    var s := ModAfterAdd(c0 + l);
    FieldOps(0, c0 + l);
    FieldOps(c1, 0);
    PartyZeroCorrects(c0, c1, n0, l, s, Negate(c1));
  }

  lemma PartyOneCorrects(c0: int, c1: int, n0: int, l: int, last: int, s: int, out1: int)
    requires 0 <= c0 < FieldSize && 0 <= c1 < FieldSize
    requires n0 == (if c0 == 0 then 0 else FieldSize - c0)
    requires l == (if 1 + n0 + c1 < FieldSize then 1 + n0 + c1 else 1 + n0 + c1 - FieldSize)
    requires last == (if l == 0 then 0 else FieldSize - l)
    requires s == (if c1 + last < FieldSize then c1 + last else c1 + last - FieldSize)
    requires out1 == (if s == 0 then 0 else FieldSize - s)
    ensures (c0 + out1) % FieldSize == 1
  {
    assert c0 + out1 == 1 || c0 + out1 == FieldSize + 1;
  }

  lemma PartyZeroCorrects(c0: int, c1: int, n0: int, l: int, s: int, out1: int)
    requires 0 <= c0 < FieldSize && 0 <= c1 < FieldSize
    requires n0 == (if c0 == 0 then 0 else FieldSize - c0)
    requires l == (if 1 + n0 + c1 < FieldSize then 1 + n0 + c1 else 1 + n0 + c1 - FieldSize)
    requires s == (if c0 + l < FieldSize then c0 + l else c0 + l - FieldSize)
    requires out1 == (if c1 == 0 then 0 else FieldSize - c1)
    ensures (s + out1) % FieldSize == 1
  {
    assert s + out1 == 1 || s + out1 == FieldSize + 1;
  }

  /** x and y agree in their low `size` bits. */
  predicate SameLowBits(x: nat, y: nat, size: nat)
  {
    x % Pow2(size) == y % Pow2(size)
  }

  /** Two field elements that add up to 1 when `hit` and to 0 otherwise. */
  predicate SharesOfIndicator(a: nat, b: nat, hit: bool)
  {
    a < FieldSize && b < FieldSize && (a + b) % FieldSize == if hit then 1 else 0
  }

  /** The two servers' shares at x, from the keys genDPF makes. */
  function Shares(prg: Generator, r0: Block, r1: Block, index: nat, size: nat, x: nat): (nat, nat)
  {
    var keys := GenKeys(prg, r0, r1, index, size);
    (EvalAt(prg, keys.0, size, false, x), EvalAt(prg, keys.1, size, true, x))
  }

  /**
   * Correctness of the DPF: for any PRG with 0/1 control bits and any root
   * seeds, the share of party 0 plus the share of party 1 at x is 1 modulo
   * FIELDSIZE when x and the index agree in their low `size` bits and 0
   * otherwise; each share is already a field element.
   */
  lemma DpfCorrect(prg: Generator, r0: Block, r1: Block, index: nat, size: nat, x: nat)
    requires BitsAreBits(prg)
    ensures SharesOfIndicator(Shares(prg, r0, r1, index, size, x).0, Shares(prg, r0, r1, index, size, x).1, SameLowBits(x, index, size))
  {
    var g := GenRun(prg, r0, r1, index, size, size);
    var last := LastCw(g.1, g.2);
    var path := PathBits(x, size, size);
    var w0 := Walk(prg, Root0(r0), g.0, path);
    var w1 := Walk(prg, Root1(r1), g.0, path);
    assert Shares(prg, r0, r1, index, size, x) == (Output(w0, last, false), Output(w1, last, true)) by {
      var keys := GenKeys(prg, r0, r1, index, size);
      KeyRoundTrip(0, r0, 0, g.0, last);
      KeyRoundTrip(1, r1, 1, g.0, last);
      assert EvalRoot(keys.0, false) == Root0(r0) && EvalRoot(keys.1, true) == Root1(r1);
    }
    LeafShares(prg, r0, r1, index, size, x);
  }

  /** The correctness argument on the two leaves the walks along x reach. */
  lemma LeafShares(prg: Generator, r0: Block, r1: Block, index: nat, size: nat, x: nat)
    requires BitsAreBits(prg)
    ensures var g := GenRun(prg, r0, r1, index, size, size);
      var w0 := Walk(prg, Root0(r0), g.0, PathBits(x, size, size));
      var w1 := Walk(prg, Root1(r1), g.0, PathBits(x, size, size));
      SharesOfIndicator(Output(w0, LastCw(g.1, g.2), false), Output(w1, LastCw(g.1, g.2), true), SameLowBits(x, index, size))
  {
    var g := GenRun(prg, r0, r1, index, size, size);
    var w0 := Walk(prg, Root0(r0), g.0, PathBits(x, size, size));
    var w1 := Walk(prg, Root1(r1), g.0, PathBits(x, size, size));
    WalkPair(prg, r0, r1, index, size, x, size);
    SamePath(x, index, size);
    LeafPair(w0, w1, g.1, g.2, SameLowBits(x, index, size));
  }

  /**
   * The two leaves give shares of the indicator: on the path they are the
   * generation's last nodes, with different control bits; off it they are equal.
   */
  lemma LeafPair(w0: Node, w1: Node, n0: Node, n1: Node, hit: bool)
    requires hit ==> w0 == n0 && w1 == n1 && IsBit(n0.bit) && IsBit(n1.bit) && n0.bit != n1.bit
    requires !hit ==> w0 == w1
    ensures SharesOfIndicator(Output(w0, LastCw(n0, n1), false), Output(w1, LastCw(n0, n1), true), hit)
  {
    if hit {
      OnPathSumsToOne(n0, n1);
    } else {
      OffPathCancels(w0, LastCw(n0, n1));
    }
  }

  /** The same, for dpfPRG under any AES key: the property the point-function tests check. */
  lemma DpfCorrectForCipher(aes: Cipher, r0: Block, r1: Block, index: nat, size: nat, x: nat)
    ensures SharesOfIndicator(Shares(PrgOf(aes), r0, r1, index, size, x).0, Shares(PrgOf(aes), r0, r1, index, size, x).1,
                              SameLowBits(x, index, size))
  {
    PrgOfBitsAreBits(aes);
    DpfCorrect(PrgOf(aes), r0, r1, index, size, x);
  }

  // ---------------------------------------------------------------------
  // The whole tree, stored heap-fashion as in fullDomainDPF
  // ---------------------------------------------------------------------

  /** The level of heap node j: the root is level 0, node j's parent is (j-1)/2. */
  function HeapLevel(j: nat): nat
  {
    if j == 0 then 0 else HeapLevel((j - 1) / 2) + 1
  }

  lemma {:induction false} HeapLevelRange(j: nat)
    ensures Pow2(HeapLevel(j)) - 1 <= j < Pow2(HeapLevel(j) + 1) - 1
  {
    if j > 0 {
      HeapLevelRange((j - 1) / 2);
    }
  }

  lemma {:induction false} Pow2Monotone(a: nat, b: nat)
    requires a <= b
    ensures Pow2(a) <= Pow2(b)
  {
    if a < b {
      Pow2Monotone(a, b - 1);
    }
  }

  /** Level d of the heap holds exactly the nodes 2^d - 1 .. 2^(d+1) - 2. */
  lemma HeapLevelOf(d: nat, i: nat)
    requires i < Pow2(d)
    ensures HeapLevel(Pow2(d) - 1 + i) == d
  {
    var j := Pow2(d) - 1 + i;
    HeapLevelRange(j);
    var l := HeapLevel(j);
    if l < d {
      Pow2Monotone(l + 1, d);
    } else if l > d {
      Pow2Monotone(d + 1, l);
    }
  }

  lemma HeapLevelBelow(j: nat, d: nat)
    requires j < Pow2(d + 1) - 1
    ensures HeapLevel(j) <= d
  {
    HeapLevelRange(j);
    if HeapLevel(j) > d {
      Pow2Monotone(d + 1, HeapLevel(j));
    }
  }

  /** Heap node j: the root, or the (j-1)%2 child of node (j-1)/2. */
  function HeapNode(prg: Generator, root: Node, cws: seq<Cw>, j: nat): Node
    requires HeapLevel(j) <= |cws|
  {
    if j == 0 then root
    else Expand(prg, HeapNode(prg, root, cws, (j - 1) / 2), cws[HeapLevel(j) - 1], (j - 1) % 2)
  }

  /**
   * The nodes i and i + 1 at positions 2h and 2h + 1 of level level + 1 are
   * the two children of node p, at position h of level level.
   */
  lemma HeapPair(prg: Generator, root: Node, cws: seq<Cw>, level: nat, h: nat, i: nat, p: nat)
    requires level < |cws| && h < Pow2(level)
    requires i == 2 * Pow2(level) - 1 + 2 * h && p == Pow2(level) - 1 + h
    ensures HeapLevel(i) == level + 1 && HeapLevel(i + 1) == level + 1 && HeapLevel(p) == level
    ensures (HeapNode(prg, root, cws, i), HeapNode(prg, root, cws, i + 1)) == Children(prg, HeapNode(prg, root, cws, p), cws[level])
  {
    assert Pow2(level + 1) == 2 * Pow2(level);
    HeapLevelOf(level + 1, 2 * h);
    HeapLevelOf(level + 1, 2 * h + 1);
    HeapLevelOf(level, h);
    assert (i - 1) / 2 == i / 2 == p;
  }

  /** Leaf i of a depth-d tree, node 2^d - 1 + i, is the walk along i's d bits, most significant first. */
  lemma {:induction false} HeapLeafIsWalk(prg: Generator, root: Node, cws: seq<Cw>, d: nat, i: nat)
    requires i < Pow2(d) && d <= |cws|
    ensures HeapLevel(Pow2(d) - 1 + i) == d
    ensures HeapNode(prg, root, cws, Pow2(d) - 1 + i) == Walk(prg, root, cws, PathBits(i, d, d))
  {
    HeapLevelOf(d, i);
    if d > 0 {
      var j := Pow2(d) - 1 + i;
      assert Pow2(d) == 2 * Pow2(d - 1);
      assert (j - 1) / 2 == Pow2(d - 1) - 1 + i / 2 && (j - 1) % 2 == i % 2;
      HeapLeafIsWalk(prg, root, cws, d - 1, i / 2);
      ChildPath(i, d);
      var path := PathBits(i, d, d);
      assert path[..d - 1] == PathBits(i / 2, d - 1, d - 1);
    }
  }
}
