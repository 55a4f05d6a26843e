/**
 * The 128-bit values of pir/dpfc/src/dpf.c and the static helpers over them.
 * A uint128_t is its 16 bytes in memory order (little-endian), so that the
 * memcpy calls into and out of key buffers are slices of byte sequences.
 */
module DpfBlock {
  type Block = s: seq<bv8> | |s| == 16 witness [0, 0, 0, 0, 0, 0, 0, 0, 0, 0, 0, 0, 0, 0, 0, 0]

  /** FIELDSIZE, the Mersenne prime 2^31 - 1. */
  const FieldSize: nat := 2147483647
  /** 2^FIELDBITS: FIELDMASK is this minus one. */
  const FieldMaskBound: nat := 0x8000_0000
  const Mod128: nat := 0x1_0000_0000_0000_0000_0000_0000_0000_0000

  function Pow2(n: nat): (r: nat)
    ensures r >= 1
  {
    if n == 0 then 1 else 2 * Pow2(n - 1)
  }

  function Pow256(n: nat): (r: nat)
    ensures r >= 1
  {
    if n == 0 then 1 else 256 * Pow256(n - 1)
  }

  // ---------------------------------------------------------------------
  // Bytes and numbers
  // ---------------------------------------------------------------------

  /** The number a little-endian byte sequence stands for. */
  function BytesValue(a: seq<bv8>): nat
  {
    if |a| == 0 then 0 else a[0] as nat + 256 * BytesValue(a[1..])
  }

  /** The byte whose value is r, counted up from 0. */
  function ByteOf(r: nat): (b: bv8)
    requires r < 256
  {
    if r == 0 then 0 else ByteOf(r - 1) + 1
  }

  lemma {:induction false} ByteOfValue(r: nat)
    requires r < 256
    ensures ByteOf(r) as nat == r
  {
    if r > 0 {
      ByteOfValue(r - 1);
      ByteSucc(ByteOf(r - 1));
    }
  }

  lemma ByteSucc(b: bv8)
    requires b as nat < 255
    ensures (b + 1) as nat == b as nat + 1
  {
  }

  /** Two bytes with the same value are the same byte. */
  lemma ByteInjective(b: bv8, c: bv8)
    requires b as nat == c as nat
    ensures b == c
  {
  }

  /** The `len` little-endian bytes of n (memcpy of an integer into a buffer). */
  function ToBytes(n: nat, len: nat): (r: seq<bv8>)
    ensures |r| == len
  {
    if len == 0 then [] else [ByteOf(n % 256)] + ToBytes(n / 256, len - 1)
  }

  lemma {:induction false} BytesValueBound(a: seq<bv8>)
    ensures BytesValue(a) < Pow256(|a|)
  {
    if |a| > 0 {
      BytesValueBound(a[1..]);
    }
  }

  lemma {:induction false} BytesOfValue(n: nat, len: nat)
    requires n < Pow256(len)
    ensures BytesValue(ToBytes(n, len)) == n
  {
    if len > 0 {
      var q, r := n / 256, n % 256;
      DivBelow(n, 256, Pow256(len - 1));
      BytesOfValue(q, len - 1);
      var t := ToBytes(n, len);
      ByteOfValue(r);
      assert t[0] as nat == r && t[1..] == ToBytes(q, len - 1);
    }
  }

  lemma DivBelow(n: nat, m: nat, p: nat)
    requires m > 0 && n < m * p
    ensures n / m < p
  {
    if n / m >= p {
      MulLe(p, n / m, m);
      assert false;
    }
  }

  lemma {:induction false} ValueOfBytes(a: seq<bv8>)
    ensures ToBytes(BytesValue(a), |a|) == a
  {
    if |a| > 0 {
      ValueOfBytes(a[1..]);
      ByteRange(a[0]);
      DivMulUnique(BytesValue(a), 256, BytesValue(a[1..]), a[0] as nat);
      ByteOfValue(a[0] as nat);
      ByteInjective(ByteOf(a[0] as nat), a[0]);
      assert ToBytes(BytesValue(a), |a|) == [a[0]] + a[1..];
    }
  }

  lemma Pow256Sixteen()
    ensures Pow256(16) == Mod128
  {
    assert Pow256(2) == 0x1_0000;
    assert Pow256(4) == 0x1_0000_0000 by { assert Pow256(3) == 256 * Pow256(2); }
    assert Pow256(6) == 0x1_0000_0000_0000 by { assert Pow256(5) == 256 * Pow256(4); }
    assert Pow256(8) == 0x1_0000_0000_0000_0000 by { assert Pow256(7) == 256 * Pow256(6); }
    assert Pow256(10) == 0x1_0000_0000_0000_0000_0000 by { assert Pow256(9) == 256 * Pow256(8); }
    assert Pow256(12) == 0x1_0000_0000_0000_0000_0000_0000 by { assert Pow256(11) == 256 * Pow256(10); }
    assert Pow256(14) == 0x1_0000_0000_0000_0000_0000_0000_0000 by { assert Pow256(13) == 256 * Pow256(12); }
    assert Pow256(15) == 256 * Pow256(14);
  }

  /** The value of a block, as the uint128_t it is. */
  function BlockValue(a: Block): (r: nat)
    ensures r < Mod128
  {
    BytesValueBound(a);
    Pow256Sixteen();
    BytesValue(a)
  }

  /** A uint128_t stored into 16 bytes. */
  function ToBlock(n: nat): (r: Block)
    requires n < Mod128
    ensures BlockValue(r) == n
  {
    Pow256Sixteen();
    BytesOfValue(n, 16);
    ToBytes(n, 16)
  }

  lemma BlockRoundTrip(a: Block)
    ensures ToBlock(BlockValue(a)) == a
  {
    ValueOfBytes(a);
  }

  // ---------------------------------------------------------------------
  // Bitwise helpers
  // ---------------------------------------------------------------------

  function XorBlock(a: Block, b: Block): (r: Block)
    ensures forall i :: 0 <= i < 16 ==> r[i] == a[i] ^ b[i]
  {
    seq(16, i requires 0 <= i < 16 => a[i] ^ b[i])
  }

  lemma XorCancel(a: Block, b: Block)
    ensures XorBlock(XorBlock(a, b), b) == a && XorBlock(b, XorBlock(a, b)) == a
    ensures XorBlock(a, XorBlock(a, b)) == b
  {
    assert forall i :: 0 <= i < 16 ==> (a[i] ^ b[i]) ^ b[i] == a[i] && b[i] ^ (a[i] ^ b[i]) == a[i];
    assert forall i :: 0 <= i < 16 ==> a[i] ^ (a[i] ^ b[i]) == b[i];
  }

  /** lsb: bit 0 of the value, which is bit 0 of its first byte. */
  function Lsb(a: Block): (r: bv8)
    ensures r == 0 || r == 1
  {
    a[0] & 1
  }

  /** reverse_lsb: flip bit 0, leave every other bit. */
  function ReverseLsb(a: Block): (r: Block)
    ensures r[0] == a[0] ^ 1 && r[1..] == a[1..]
    ensures Lsb(r) != Lsb(a)
  {
    a[0 := a[0] ^ 1]
  }

  /** set_lsb_zero: clear bit 0 and nothing else. */
  function SetLsbZero(a: Block): (r: Block)
    ensures Lsb(r) == 0
    ensures r[0] == a[0] & 0xFE && r[1..] == a[1..]
  {
    if a[0] & 1 == 1 then ReverseLsb(a) else a
  }

  // ---------------------------------------------------------------------
  // Field helpers on uint128_t values
  // ---------------------------------------------------------------------

  /** raw & FIELDMASK: the low 31 bits, read from the first four bytes. */
  function Low31(a: Block): (r: nat)
    ensures r < FieldMaskBound
  {
    var b0, b1, b2, b3 := a[0] as nat, a[1] as nat, a[2] as nat, (a[3] & 0x7F) as nat;
    ByteRange(a[0]); ByteRange(a[1]); ByteRange(a[2]); ByteRange(a[3]);
    LowBytesBound(b0, b1, b2, b3);
    b0 + 256 * b1 + 65536 * b2 + 16777216 * b3
  }

  lemma LowBytesBound(b0: nat, b1: nat, b2: nat, b3: nat)
    requires b0 < 256 && b1 < 256 && b2 < 256 && b3 < 128
    ensures b0 + 256 * b1 + 65536 * b2 + 16777216 * b3 < FieldMaskBound
  {
  }

  lemma ByteRange(x: bv8)
    ensures x as nat < 256 && (x & 0x7F) as nat < 128
  {
  }

  lemma HighBit(x: bv8)
    ensures x as nat == (x & 0x7F) as nat + 128 * (x >> 7) as nat
  {
  }

  lemma Low31IsLowBits(a: Block)
    ensures Low31(a) == BlockValue(a) % FieldMaskBound
  {
    var q := (a[3] >> 7) as nat + 2 * BytesValue(a[4..]);
    LowBitsSplit(a);
    DivMulUnique(BytesValue(a), FieldMaskBound, q, Low31(a));
  }

  /** A block's value is its low 31 bits plus a multiple of 2^31. */
  lemma LowBitsSplit(a: Block)
    ensures BytesValue(a) == ((a[3] >> 7) as nat + 2 * BytesValue(a[4..])) * FieldMaskBound + Low31(a)
  {
    var rest := BytesValue(a[4..]);
    var hi := (a[3] >> 7) as nat;
    var c0, c1, c2, lo3 := a[0] as nat, a[1] as nat, a[2] as nat, (a[3] & 0x7F) as nat;
    FirstFourBytes(a);
    HighBit(a[3]);
    assert Low31(a) == c0 + 256 * c1 + 65536 * c2 + 16777216 * lo3;
    Regroup(c0, c1, c2, lo3, hi, rest);
  }

  lemma FirstFourBytes(a: Block)
    ensures BytesValue(a) == a[0] as nat + 256 * (a[1] as nat + 256 * (a[2] as nat + 256 * (a[3] as nat + 256 * BytesValue(a[4..]))))
  {
    assert a[1..][1..] == a[2..] && a[2..][1..] == a[3..] && a[3..][1..] == a[4..];
    var v1, v2, v3 := BytesValue(a[1..]), BytesValue(a[2..]), BytesValue(a[3..]);
    assert BytesValue(a) == a[0] as nat + 256 * v1;
    assert v1 == a[1] as nat + 256 * v2;
    assert v2 == a[2] as nat + 256 * v3;
  }

  lemma Regroup(c0: nat, c1: nat, c2: nat, lo3: nat, hi: nat, rest: nat)
    ensures c0 + 256 * (c1 + 256 * (c2 + 256 * ((lo3 + 128 * hi) + 256 * rest)))
         == (hi + 2 * rest) * FieldMaskBound + (c0 + 256 * c1 + 65536 * c2 + 16777216 * lo3)
  {
  }

  /** convert: a field element in [0, FIELDSIZE) congruent to the low 31 bits of raw. */
  function Convert(a: Block): (r: nat)
    ensures r < FieldSize
  {
    var raw := Low31(a);
    if raw < FieldSize then raw else raw - FieldSize
  }

  /** What convert computes: the low 31 bits of the value, reduced into the field. */
  lemma ConvertIsLowBitsMod(a: Block)
    ensures Convert(a) == (BlockValue(a) % FieldMaskBound) % FieldSize
  {
    Low31IsLowBits(a);
  }

  /** negate: FIELDSIZE - x in uint128_t arithmetic, with 0 kept at 0. */
  function Negate(x: nat): (r: nat)
    requires x < Mod128
    ensures r < Mod128
    ensures x == 0 ==> r == 0
    ensures x < FieldSize ==> r < FieldSize && (x + r) % FieldSize == 0
  {
    if x != 0 then (FieldSize - x) % Mod128 else 0
  }

  /** modAfterAdd: one conditional subtraction, reducing [0, 2·FIELDSIZE) into the field. */
  function ModAfterAdd(r: nat): (m: nat)
    requires r < Mod128
    ensures m < Mod128
    ensures r < 2 * FieldSize ==> m == r % FieldSize
  {
    if r < FieldSize then r else r - FieldSize
  }

  // ---------------------------------------------------------------------
  // Bits of an index, most significant first
  // ---------------------------------------------------------------------

  /** getbit(x, size, b): bit (size - b) of x. */
  function GetBit(x: nat, size: nat, b: nat): (r: nat)
    requires b <= size
    ensures r < 2
  {
    (x / Pow2(size - b)) % 2
  }

  /** The directions getbit gives at levels 1..d, in order. */
  function PathBits(x: nat, size: nat, d: nat): (p: seq<nat>)
    requires d <= size
    ensures |p| == d
    ensures forall j :: 0 <= j < d ==> p[j] == GetBit(x, size, j + 1)
  {
    seq(d, j requires 0 <= j < d => GetBit(x, size, j + 1))
  }

  /** The directions to depth d are those to depth d - 1 and the d-th bit. */
  lemma PathBitsSnoc(x: nat, size: nat, d: nat)
    requires 1 <= d <= size
    ensures PathBits(x, size, d)[..d - 1] == PathBits(x, size, d - 1)
    ensures PathBits(x, size, d) == PathBits(x, size, d - 1) + [GetBit(x, size, d)]
  {
    var p, p' := PathBits(x, size, d), PathBits(x, size, d - 1);
    assert forall j :: 0 <= j < d - 1 ==> p[j] == p'[j];
    assert p[..d - 1] == p';
  }

  /** The number a sequence of 0/1 directions spells, first direction most significant. */
  function BitsValue(bits: seq<nat>): nat
  {
    if |bits| == 0 then 0 else 2 * BitsValue(bits[..|bits| - 1]) + bits[|bits| - 1]
  }

  predicate Binary(bits: seq<nat>)
  {
    forall j :: 0 <= j < |bits| ==> bits[j] < 2
  }

  lemma DivMulUnique(y: nat, m: nat, a: nat, b: nat)
    requires 0 <= b < m && y == a * m + b
    ensures y / m == a && y % m == b
  {
    var q, r := y / m, y % m;
    assert y == q * m + r;
    if q > a {
      MulLe(a + 1, q, m);
      MulSucc(a, m);
      assert false;
    } else if q < a {
      MulLe(q + 1, a, m);
      MulSucc(q, m);
      assert false;
    }
  }

  lemma MulLe(x: nat, y: nat, m: nat)
    requires x <= y
    ensures x * m <= y * m
  {
  }

  lemma MulSucc(x: nat, m: nat)
    ensures (x + 1) * m == x * m + m
  {
  }

  lemma MulSplit(m: nat, n: nat, q2: nat, r2: nat)
    ensures m * (n * q2 + r2) == q2 * (m * n) + m * r2
  {
  }

  lemma MulBelow(m: nat, n: nat, r2: nat, r1: nat)
    requires r2 < n && r1 < m
    ensures m * r2 + r1 < m * n
  {
    MulLe(r2 + 1, n, m);
    MulSucc(r2, m);
    assert r2 * m == m * r2 && n * m == m * n;
  }

  lemma DivIsNat(x: nat, m: nat)
    requires m > 0
    ensures x / m >= 0
  {
  }

  lemma DivDiv(x: nat, m: nat, n: nat)
    requires m > 0 && n > 0
    ensures x / (m * n) == (x / m) / n
  {
    var q, r1 := x / m, x % m;
    var q2, r2 := q / n, q % n;
    assert x == m * q + r1;
    assert q == n * q2 + r2;
    MulSplit(m, n, q2, r2);
    MulBelow(m, n, r2, r1);
    DivMulUnique(x, m * n, q2, m * r2 + r1);
  }

  lemma Pow2Add(a: nat, b: nat)
    ensures Pow2(a + b) == Pow2(a) * Pow2(b)
  {
    if b > 0 {
      Pow2Add(a, b - 1);
      assert Pow2(a + b) == 2 * Pow2(a + b - 1);
    }
  }

  /** y mod 2^d splits into the last bit and the bits above it. */
  lemma ModPow2Step(y: nat, d: nat)
    requires d >= 1
    ensures y % Pow2(d) == 2 * ((y / 2) % Pow2(d - 1)) + y % 2
  {
    var q := y / 2;
    var m := Pow2(d - 1);
    var hi := q / m;
    var lo := q % m;
    var p := Pow2(d);
    assert y == 2 * q + y % 2;
    assert q == hi * m + lo;
    assert p == 2 * m;
    assert 2 * q == hi * p + 2 * lo by {
      assert 2 * (hi * m) == hi * (2 * m);
    }
    assert 2 * lo + y % 2 < p;
    DivMulUnique(y, p, hi, 2 * lo + y % 2);
  }

  lemma LastBitJoins(v: nat, y: nat, d: nat)
    requires d >= 1 && v == 2 * ((y / 2) % Pow2(d - 1)) + y % 2
    ensures v == y % Pow2(d)
  {
    ModPow2Step(y, d);
  }

  /** The first d directions of x spell the top d bits of its low `size` bits. */
  lemma {:induction false} PathBitsValue(x: nat, size: nat, d: nat)
    requires d <= size
    ensures BitsValue(PathBits(x, size, d)) == (x / Pow2(size - d)) % Pow2(d)
  {
    if d > 0 {
      var path := PathBits(x, size, d);
      var m := Pow2(size - d);
      DivIsNat(x, m);
      var y: nat := x / m;
      var prev := BitsValue(PathBits(x, size, d - 1));
      assert prev == (y / 2) % Pow2(d - 1) by {
        PathBitsValue(x, size, d - 1);
        assert Pow2(size - (d - 1)) == m * 2;
        DivDiv(x, m, 2);
      }
      assert BitsValue(path) == 2 * prev + y % 2 by {
        assert path[..d - 1] == PathBits(x, size, d - 1);
      }
      LastBitJoins(BitsValue(path), y, d);
    }
  }

  lemma {:induction false} BitsValueBound(bits: seq<nat>)
    requires Binary(bits)
    ensures BitsValue(bits) < Pow2(|bits|)
  {
    if |bits| > 0 {
      BitsValueBound(bits[..|bits| - 1]);
    }
  }

  lemma {:induction false} BitsValueInjective(s: seq<nat>, t: seq<nat>)
    requires Binary(s) && Binary(t) && |s| == |t| && BitsValue(s) == BitsValue(t)
    ensures s == t
  {
    if |s| > 0 {
      var n := |s| - 1;
      assert s[n] == t[n];
      BitsValueInjective(s[..n], t[..n]);
      assert s == s[..n] + [s[n]] && t == t[..n] + [t[n]];
    }
  }

  lemma SmallMod(y: nat, m: nat)
    requires y < m
    ensures y % m == y
  {
  }

  /** Two indices take the same path through a depth-`size` tree exactly when they agree modulo 2^size. */
  lemma SamePath(x: nat, y: nat, size: nat)
    ensures PathBits(x, size, size) == PathBits(y, size, size) <==> x % Pow2(size) == y % Pow2(size)
  {
    var px, py := PathBits(x, size, size), PathBits(y, size, size);
    PathBitsValue(x, size, size);
    PathBitsValue(y, size, size);
    assert Pow2(size - size) == 1;
    assert BitsValue(px) == x % Pow2(size) && BitsValue(py) == y % Pow2(size);
    if x % Pow2(size) == y % Pow2(size) {
      assert Binary(px) && Binary(py);
      BitsValueInjective(px, py);
    }
  }

  /** A node's path is its parent's path followed by its own last bit. */
  lemma ChildPath(i: nat, d: nat)
    requires d >= 1
    ensures PathBits(i, d, d) == PathBits(i / 2, d - 1, d - 1) + [i % 2]
  {
    forall k | 1 <= k < d
      ensures GetBit(i, d, k) == GetBit(i / 2, d - 1, k)
    {
      DivDiv(i, 2, Pow2(d - 1 - k));
      assert Pow2(d - k) == 2 * Pow2(d - 1 - k);
    }
  }

  /** The cache index of batchEvalDPF spells the same first `cached` directions as x itself. */
  lemma CachePath(x: nat, size: nat, cached: nat)
    requires cached <= size
    ensures PathBits((x / Pow2(size - cached)) % Pow2(cached), cached, cached) == PathBits(x, size, cached)
  {
    var idx := (x / Pow2(size - cached)) % Pow2(cached);
    PathBitsValue(x, size, cached);
    PathBitsValue(idx, cached, cached);
    assert Pow2(cached - cached) == 1;
    SmallMod(idx, Pow2(cached));
    BitsValueInjective(PathBits(idx, cached, cached), PathBits(x, size, cached));
  }
}
