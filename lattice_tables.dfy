/**
 * The integer precomputation of the Leech lattice decoder of
 * hash/lattice_hash.go, after Conway and Sloane's tables IV to VII:
 * TableVi lists the 256 sums a + t of a Table IV(a) row and a Table IV(t)
 * row, and TableVii lists, for every t, a and b, the TableVi indices of
 * a + t, b + t and c + t, where c is the first Table IV(a) row that makes
 * a + b + c a point of 4E8. Every entry stays within -12..12, so the int8
 * arithmetic of the source never wraps and is plain integer arithmetic here.
 */
module LatticeTables {
  import opened Wrappers
  import DpfBlock

  /** Table IV(a): coset representatives, as the source lists them. */
  const TableIVa: seq<seq<int>> := [
    [0, 0, 0, 0, 0, 0, 0, 0],
    [4, 0, 0, 0, 0, 0, 0, 0],
    [2, 2, 2, 2, 0, 0, 0, 0],
    [-2, 2, 2, 2, 0, 0, 0, 0],
    [2, 2, 0, 0, 2, 2, 0, 0],
    [-2, 2, 0, 0, 2, 2, 0, 0],
    [2, 2, 0, 0, 0, 0, 2, 2],
    [-2, 2, 0, 0, 0, 0, 2, 2],
    [2, 0, 2, 0, 2, 0, 2, 0],
    [-2, 0, 2, 0, 2, 0, 2, 0],
    [2, 0, 2, 0, 0, 2, 0, 2],
    [-2, 0, 2, 0, 0, 2, 0, 2],
    [2, 0, 0, 2, 2, 0, 0, 2],
    [-2, 0, 0, 2, 2, 0, 0, 2],
    [2, 0, 0, 2, 0, 2, 2, 0],
    [-2, 0, 0, 2, 0, 2, 2, 0]
  ]

  /** Table IV(t): declared with 18 rows of which the source initialises 16; the last two are zero. */
  const TableIVt: seq<seq<int>> := [
    [0, 0, 0, 0, 0, 0, 0, 0],
    [2, 2, 2, 0, 0, 2, 0, 0],
    [2, 2, 0, 2, 0, 0, 0, 2],
    [2, 0, 2, 2, 0, 0, 2, 0],
    [0, 2, 2, 2, 2, 0, 0, 0],
    [2, 2, 0, 0, 2, 0, 2, 0],
    [2, 0, 2, 0, 2, 0, 0, 2],
    [2, 0, 0, 2, 2, 2, 0, 0],
    [-3, 1, 1, 1, 1, 1, 1, 1],
    [3, -1, -1, 1, 1, -1, 1, 1],
    [3, -1, 1, -1, 1, 1, 1, -1],
    [3, 1, -1, -1, 1, 1, -1, 1],
    [3, 1, 1, 1, 1, -1, -1, -1],
    [3, -1, 1, 1, -1, 1, -1, 1],
    [3, 1, -1, 1, -1, 1, 1, -1],
    [3, 1, 1, -1, -1, -1, 1, 1],
    [0, 0, 0, 0, 0, 0, 0, 0],
    [0, 0, 0, 0, 0, 0, 0, 0]
  ]

  /** Sixteen Table IV(a) rows and at least sixteen Table IV(t) rows, each of 8 coordinates. */
  predicate Shaped(ta: seq<seq<int>>, tt: seq<seq<int>>)
  {
    |ta| == 16 && |tt| >= 16 && forall i :: 0 <= i < 16 ==> |ta[i]| == 8 && |tt[i]| == 8
  }

  lemma TablesShaped()
    ensures Shaped(TableIVa, TableIVt)
  {
  }

  /** Coordinate-wise sum of two 8-vectors. */
  function Add8(x: seq<int>, y: seq<int>): (r: seq<int>)
    requires |x| == 8 && |y| == 8
    ensures |r| == 8
  {
    seq(8, k requires 0 <= k < 8 => x[k] + y[k])
  }

  /** The loop that adds two rows coordinate by coordinate. */
  method AddRows(x: seq<int>, y: seq<int>) returns (r: seq<int>)
    requires |x| == 8 && |y| == 8
    ensures r == Add8(x, y)
  {
    r := [0, 0, 0, 0, 0, 0, 0, 0];
    for k := 0 to 8
      invariant |r| == 8 && forall l :: 0 <= l < k ==> r[l] == x[l] + y[l]
    {
      r := r[k := x[k] + y[k]];
    }
  }

  /** Table VI as Precompute fills it: row 16i + j is a_i + t_j. */
  function TableViSpec(ta: seq<seq<int>>, tt: seq<seq<int>>): (r: seq<seq<int>>)
    requires Shaped(ta, tt)
    ensures |r| == 256
  {
    seq(256, n requires 0 <= n < 256 => Add8(ta[n / 16], tt[n % 16]))
  }

  lemma TableViEntry(ta: seq<seq<int>>, tt: seq<seq<int>>, i: nat, j: nat)
    requires Shaped(ta, tt) && i < 16 && j < 16
    ensures 16 * i + j < 256 && TableViSpec(ta, tt)[16 * i + j] == Add8(ta[i], tt[j])
  {
    DpfBlock.DivMulUnique(16 * i + j, 16, i, j);
  }

  // ---------------------------------------------------------------------
  // Is4E8Point
  // ---------------------------------------------------------------------

  /** Go's remainder: truncated toward zero, so it takes the sign of a. */
  function GoRem(a: int, b: int): int
    requires b > 0
  {
    if a >= 0 then a % b else -((-a) % b)
  }

  function Total(v: seq<int>): int
  {
    if |v| == 0 then 0 else Total(v[..|v| - 1]) + v[|v| - 1]
  }

  /** The membership test as the source writes it, with Go's remainder. */
  predicate Is4E8(v: seq<int>)
  {
    GoRem(Total(v), 8) == 0
    && ((forall i :: 0 <= i < |v| ==> GoRem(v[i], 4) == 0)
        || (forall i :: 0 <= i < |v| ==> GoRem(v[i], 4) == 2 || GoRem(v[i], 4) == -2))
  }

  /**
   * Is4E8Point: the coordinate sum is a multiple of 8, and the coordinates
   * are all 0 modulo 4 or all 2 modulo 4 (the "-2" case catches negative
   * coordinates under the truncated remainder).
   */
  method Is4E8Point(v: seq<int>) returns (b: bool)
    ensures b == Is4E8(v)
  {
    var sum := 0;
    for i := 0 to |v|
      invariant sum == Total(v[..i])
    {
      assert v[..i + 1][..i] == v[..i];
      sum := sum + v[i];
    }
    assert v[..|v|] == v;
    if GoRem(sum, 8) != 0 {
      return false;
    }
    var ok := true;
    var i := 0;
    while i < |v| && ok
      invariant 0 <= i <= |v|
      decreases |v| - i, ok
      invariant ok ==> forall k :: 0 <= k < i ==> GoRem(v[k], 4) == 0
      invariant !ok ==> i < |v| && GoRem(v[i], 4) != 0
    {
      if GoRem(v[i], 4) != 0 {
        ok := false;
      } else {
        i := i + 1;
      }
    }
    if ok {
      return true;
    }
    for j := 0 to |v|
      invariant forall k :: 0 <= k < j ==> GoRem(v[k], 4) == 2 || GoRem(v[k], 4) == -2
    {
      var m := GoRem(v[j], 4);
      if m != 2 && m != -2 {
        return false;
      }
    }
    return true;
  }

  lemma GoRemZero(a: int)
    ensures GoRem(a, 4) == 0 <==> a % 4 == 0
    ensures GoRem(a, 8) == 0 <==> a % 8 == 0
  {
  }

  lemma GoRemTwo(a: int)
    ensures GoRem(a, 4) == 2 || GoRem(a, 4) == -2 <==> a % 4 == 2
  {
  }

  /**
   * The test agrees with the Euclidean statement of 4E8 membership: the sum
   * is 0 modulo 8 and the coordinates are all 0 or all 2 modulo 4.
   */
  lemma Is4E8Euclidean(v: seq<int>)
    ensures Is4E8(v) <==>
      Total(v) % 8 == 0
      && ((forall i :: 0 <= i < |v| ==> v[i] % 4 == 0) || (forall i :: 0 <= i < |v| ==> v[i] % 4 == 2))
  {
    GoRemZero(Total(v));
    forall i | 0 <= i < |v|
      ensures GoRem(v[i], 4) == 0 <==> v[i] % 4 == 0
      ensures GoRem(v[i], 4) == 2 || GoRem(v[i], 4) == -2 <==> v[i] % 4 == 2
    {
      GoRemZero(v[i]);
      GoRemTwo(v[i]);
    }
  }

  // ---------------------------------------------------------------------
  // FindTableIndex and the tables
  // ---------------------------------------------------------------------

  /** The least index of v in table, or None when v is absent. */
  function FirstIndex(table: seq<seq<int>>, v: seq<int>): (r: Option<nat>)
    ensures r.Some? ==> r.value < |table| && table[r.value] == v
    ensures r.Some? ==> forall k :: 0 <= k < r.value ==> table[k] != v
    ensures r.None? ==> forall k :: 0 <= k < |table| ==> table[k] != v
  {
    if |table| == 0 then None
    else if table[0] == v then Some(0)
    else match FirstIndex(table[1..], v)
      case None => None
      case Some(i) => Some(i + 1)
  }

  /** The TableVi index FindTableIndex returns for a_ai + t_ti: it always exists. */
  function TableIndex(ta: seq<seq<int>>, tt: seq<seq<int>>, ai: nat, ti: nat): (r: nat)
    requires Shaped(ta, tt) && ai < 16 && ti < 16
    ensures r < 256 && TableViSpec(ta, tt)[r] == Add8(ta[ai], tt[ti])
    ensures forall k :: 0 <= k < r ==> TableViSpec(ta, tt)[k] != Add8(ta[ai], tt[ti])
  {
    TableViEntry(ta, tt, ai, ti);
    FirstIndex(TableViSpec(ta, tt), Add8(ta[ai], tt[ti])).value
  }

  /** The first Table IV(a) row c, from `from` on, that makes sum + c a point of 4E8. */
  function FirstC(ta: seq<seq<int>>, tt: seq<seq<int>>, sum: seq<int>, from: nat): (r: Option<nat>)
    requires Shaped(ta, tt) && |sum| == 8 && from <= 16
    ensures r.Some? ==> from <= r.value < 16 && Is4E8(Add8(sum, ta[r.value]))
    ensures r.Some? ==> forall c :: from <= c < r.value ==> !Is4E8(Add8(sum, ta[c]))
    ensures r.None? ==> forall c :: from <= c < 16 ==> !Is4E8(Add8(sum, ta[c]))
    decreases 16 - from
  {
    if from == 16 then None
    else if Is4E8(Add8(sum, ta[from])) then Some(from)
    else FirstC(ta, tt, sum, from + 1)
  }

  /** The TableVii row for t_ti, a_ai and b_bi, or None when no row c completes a + b. */
  function Row(ta: seq<seq<int>>, tt: seq<seq<int>>, ti: nat, ai: nat, bi: nat): Option<seq<nat>>
    requires Shaped(ta, tt) && ti < 16 && ai < 16 && bi < 16
  {
    match FirstC(ta, tt, Add8(ta[ai], ta[bi]), 0)
    case None => None
    case Some(ci) => Some([TableIndex(ta, tt, ai, ti), TableIndex(ta, tt, bi, ti), TableIndex(ta, tt, ci, ti)])
  }

  /** The number of the triple (ti, ai, bi) in the loop order of Precompute. */
  function Triple(ti: nat, ai: nat, bi: nat): nat
  {
    256 * ti + 16 * ai + bi
  }

  /** The row of triple number p. */
  function RowAt(ta: seq<seq<int>>, tt: seq<seq<int>>, p: nat): Option<seq<nat>>
    requires Shaped(ta, tt) && p < 4096
  {
    Row(ta, tt, p / 256, (p / 16) % 16, p % 16)
  }

  lemma TripleRow(ta: seq<seq<int>>, tt: seq<seq<int>>, ti: nat, ai: nat, bi: nat)
    requires Shaped(ta, tt) && ti < 16 && ai < 16 && bi < 16
    ensures Triple(ti, ai, bi) < 4096 && RowAt(ta, tt, Triple(ti, ai, bi)) == Row(ta, tt, ti, ai, bi)
  {
    var p := Triple(ti, ai, bi);
    DpfBlock.DivMulUnique(p, 256, ti, 16 * ai + bi);
    DpfBlock.DivMulUnique(p, 16, 16 * ti + ai, bi);
    DpfBlock.DivMulUnique(16 * ti + ai, 16, ti, ai);
  }

  /** The rows of all 4096 triples, in loop order, None where no c completes a + b. */
  function AllRows(ta: seq<seq<int>>, tt: seq<seq<int>>): (r: seq<Option<seq<nat>>>)
    requires Shaped(ta, tt)
    ensures |r| == 4096
  {
    seq(4096, p requires 0 <= p < 4096 => RowAt(ta, tt, p))
  }

  /** The rows written for the first q triples: one for each triple that has a row. */
  function Rows(ta: seq<seq<int>>, tt: seq<seq<int>>, q: nat): (r: seq<seq<nat>>)
    requires Shaped(ta, tt) && q <= 4096
    ensures |r| <= q
  {
    Present(AllRows(ta, tt), q)
  }

  /** The values present among the first q entries of s, in order. */
  function Present<T>(s: seq<Option<T>>, q: nat): (r: seq<T>)
    requires q <= |s|
    ensures |r| <= q
  {
    if q == 0 then [] else Present(s, q - 1) + (match s[q - 1] case None => [] case Some(x) => [x])
  }

  /** q values among q entries: every entry is present, at its own position. */
  lemma {:induction false} PresentFull<T>(s: seq<Option<T>>, q: nat)
    requires q <= |s| && |Present(s, q)| == q
    ensures forall p :: 0 <= p < q ==> s[p].Some? && Present(s, q)[p] == s[p].value
  {
    if q > 0 {
      assert s[q - 1].Some? && |Present(s, q - 1)| == q - 1;
      PresentFull(s, q - 1);
    }
  }

  /** A full TableVii holds the row of (t, a, b) at number 256t + 16a + b. */
  lemma TableViiRows(ta: seq<seq<int>>, tt: seq<seq<int>>)
    requires Shaped(ta, tt) && |Rows(ta, tt, 4096)| == 4096
    ensures forall ti, ai, bi :: 0 <= ti < 16 && 0 <= ai < 16 && 0 <= bi < 16 ==>
      Row(ta, tt, ti, ai, bi).Some? && Rows(ta, tt, 4096)[Triple(ti, ai, bi)] == Row(ta, tt, ti, ai, bi).value
  {
    forall ti, ai, bi | 0 <= ti < 16 && 0 <= ai < 16 && 0 <= bi < 16
      ensures Row(ta, tt, ti, ai, bi).Some? && Rows(ta, tt, 4096)[Triple(ti, ai, bi)] == Row(ta, tt, ti, ai, bi).value
    {
      FullRowAt(ta, tt, ti, ai, bi);
    }
  }

  lemma FullRowAt(ta: seq<seq<int>>, tt: seq<seq<int>>, ti: nat, ai: nat, bi: nat)
    requires Shaped(ta, tt) && |Rows(ta, tt, 4096)| == 4096 && ti < 16 && ai < 16 && bi < 16
    ensures Row(ta, tt, ti, ai, bi).Some? && Rows(ta, tt, 4096)[Triple(ti, ai, bi)] == Row(ta, tt, ti, ai, bi).value
  {
    var all := AllRows(ta, tt);
    PresentFull(all, 4096);
    TripleRow(ta, tt, ti, ai, bi);
    assert all[Triple(ti, ai, bi)] == Row(ta, tt, ti, ai, bi);
  }

  /** Entry Triple(ti, ai, bi) of AllRows is the row of that triple. */
  lemma AllRowsAt(ta: seq<seq<int>>, tt: seq<seq<int>>, ti: nat, ai: nat, bi: nat)
    requires Shaped(ta, tt) && ti < 16 && ai < 16 && bi < 16
    ensures Triple(ti, ai, bi) < 4096 && AllRows(ta, tt)[Triple(ti, ai, bi)] == Row(ta, tt, ti, ai, bi)
  {
    TripleRow(ta, tt, ti, ai, bi);
  }

  /** How far the TableVii loop has come: `index` rows written for the first q triples. */
  ghost predicate FillState(all: seq<Option<seq<nat>>>, cur: seq<seq<nat>>, base: seq<seq<nat>>, index: int, q: nat)
  {
    |all| == 4096 && q <= 4096 && |base| == 4096 && index == |Present(all, q)|
    && cur == Present(all, q) + base[index..]
  }

  /** A finished fill holds the rows of all triples over the untouched rest of the table. */
  lemma FilledRows(ta: seq<seq<int>>, tt: seq<seq<int>>, cur: seq<seq<nat>>, base: seq<seq<nat>>, index: int, q: nat)
    requires Shaped(ta, tt) && q == 4096 && FillState(AllRows(ta, tt), cur, base, index, q)
    ensures index == 4096 <==> |Rows(ta, tt, 4096)| == 4096
    ensures cur == Rows(ta, tt, 4096) + base[|Rows(ta, tt, 4096)|..]
  {
  }

  /** Writing the next row over the untouched rest of the table. */
  lemma WriteAt(cur: seq<seq<nat>>, base: seq<seq<nat>>, rows: seq<seq<nat>>, row: seq<nat>)
    requires |rows| < |base| && cur == rows + base[|rows|..]
    ensures cur[|rows| := row] == rows + [row] + base[|rows| + 1..]
  {
  }

  /** The global TableVi and TableVii. */
  class Tables {
    var tableVi: array<seq<int>>
    var tableVii: array<seq<nat>>

    /** TableVi holds the sums of Table IV(a) and Table IV(t) rows. */
    ghost predicate ViFilled(ta: seq<seq<int>>, tt: seq<seq<int>>)
      requires Shaped(ta, tt)
      reads this, tableVi
    {
      tableVi.Length == 256 && tableVi[..] == TableViSpec(ta, tt)
    }

    /** Zero-initialised tables, as the globals start. */
    constructor ()
      ensures tableVi.Length == 256 && tableVii.Length == 4096
      ensures forall n :: 0 <= n < 256 ==> tableVi[n] == [0, 0, 0, 0, 0, 0, 0, 0]
      ensures forall n :: 0 <= n < 4096 ==> tableVii[n] == [0, 0, 0]
    {
      tableVi := new seq<int>[256](_ => [0, 0, 0, 0, 0, 0, 0, 0]);
      tableVii := new seq<nat>[4096](_ => [0, 0, 0]);
    }

    /**
     * FindTableIndex: the first TableVi row equal to v. The source panics
     * when there is none, here None.
     */
    method FindTableIndex(v: seq<int>) returns (r: Option<nat>)
      requires tableVi.Length == 256
      ensures r == FirstIndex(tableVi[..], v)
    {
      for i := 0 to 256
        invariant forall k :: 0 <= k < i ==> tableVi[k] != v
      {
        if tableVi[i] == v {
          FirstIndexIs(tableVi[..], v, i);
          return Some(i);
        }
      }
      FirstIndexIs(tableVi[..], v, 256);
      return None;
    }

    /**
     * Precompute: fills TableVi from Tables IV(a) and IV(t), then TableVii
     * row by row in the order of t, a, b. `ok` is false where the source
     * panics because the row count is not 4096; the rows written stay.
     */
    method Precompute() returns (ok: bool)
      requires tableVi.Length == 256 && tableVii.Length == 4096
      modifies tableVi, tableVii
      ensures Shaped(TableIVa, TableIVt)
      ensures tableVi[..] == TableViSpec(TableIVa, TableIVt)
      ensures ok <==> |Rows(TableIVa, TableIVt, 4096)| == 4096
      ensures tableVii[..] == Rows(TableIVa, TableIVt, 4096) + old(tableVii[..])[|Rows(TableIVa, TableIVt, 4096)|..]
    {
      TablesShaped();
      FillVi(TableIVa, TableIVt);
      ok := FillVii(TableIVa, TableIVt);
    }

    /** The second phase: TableVii row by row in the order of t, a, b; `ok` when 4096 rows were written. */
    method FillVii(ta: seq<seq<int>>, tt: seq<seq<int>>) returns (ok: bool)
      requires Shaped(ta, tt) && tableVi.Length == 256 && tableVii.Length == 4096
      requires tableVi[..] == TableViSpec(ta, tt)
      modifies tableVii
      ensures ok <==> |Rows(ta, tt, 4096)| == 4096
      ensures tableVii[..] == Rows(ta, tt, 4096) + old(tableVii[..])[|Rows(ta, tt, 4096)|..]
    {
      ghost var all := AllRows(ta, tt);
      ghost var base := tableVii[..];
      assert base[0..] == base;
      var index := FillAll(ta, tt, all, base);
      FilledRows(ta, tt, tableVii[..], base, index, |all|);
      ok := index == 4096;
    }

    /** The loop over t, from an empty fill to one covering every triple. */
    method FillAll(ta: seq<seq<int>>, tt: seq<seq<int>>, ghost all: seq<Option<seq<nat>>>, ghost base: seq<seq<nat>>)
      returns (index: nat)
      requires Shaped(ta, tt) && all == AllRows(ta, tt)
      requires tableVii.Length == 4096 && ViFilled(ta, tt)
      requires FillState(all, tableVii[..], base, 0, 0)
      modifies tableVii
      ensures FillState(all, tableVii[..], base, index, |all|)
    {
      index := 0;
      for ti := 0 to 16
        invariant FillState(all, tableVii[..], base, index, 256 * ti)
      {
        index := FillForT(ta, tt, ti, index, all, base);
      }
    }

    /** The loop over a for fixed t. */
    method FillForT(ta: seq<seq<int>>, tt: seq<seq<int>>, ti: nat, index: nat, ghost all: seq<Option<seq<nat>>>, ghost base: seq<seq<nat>>)
      returns (next: nat)
      requires Shaped(ta, tt) && ti < 16 && all == AllRows(ta, tt)
      requires tableVii.Length == 4096 && ViFilled(ta, tt)
      requires FillState(all, tableVii[..], base, index, 256 * ti)
      modifies tableVii
      ensures FillState(all, tableVii[..], base, next, 256 * ti + 256)
    {
      next := index;
      for ai := 0 to 16
        invariant FillState(all, tableVii[..], base, next, Triple(ti, ai, 0))
      {
        next := FillForA(ta, tt, ti, ai, next, all, base);
        assert Triple(ti, ai, 16) == Triple(ti, ai + 1, 0);
      }
      assert Triple(ti, 16, 0) == Triple(ti + 1, 0, 0);
    }

    /** The first phase: TableVi[16i + j] = a_i + t_j. */
    method FillVi(ta: seq<seq<int>>, tt: seq<seq<int>>)
      requires Shaped(ta, tt) && tableVi.Length == 256
      modifies tableVi
      ensures tableVi[..] == TableViSpec(ta, tt)
    {
      var index := 0;
      for i := 0 to 16
        invariant index == 16 * i
        invariant forall n :: 0 <= n < index ==> tableVi[n] == TableViSpec(ta, tt)[n]
      {
        for j := 0 to 16
          invariant index == 16 * i + j
          invariant forall n :: 0 <= n < index ==> tableVi[n] == TableViSpec(ta, tt)[n]
        {
          var row := AddRows(ta[i], tt[j]);
          TableViEntry(ta, tt, i, j);
          tableVi[index] := row;
          index := index + 1;
        }
      }
    }

    /** The loop over b for fixed t and a, with the TableVi index of a + t found once. */
    method FillForA(ta: seq<seq<int>>, tt: seq<seq<int>>, ti: nat, ai: nat, index: nat, ghost all: seq<Option<seq<nat>>>, ghost base: seq<seq<nat>>)
      returns (next: nat)
      requires Shaped(ta, tt) && ti < 16 && ai < 16 && all == AllRows(ta, tt)
      requires tableVii.Length == 4096 && ViFilled(ta, tt)
      requires FillState(all, tableVii[..], base, index, Triple(ti, ai, 0))
      modifies tableVii
      ensures FillState(all, tableVii[..], base, next, Triple(ti, ai, 16))
    {
      var at := AddRows(ta[ai], tt[ti]);
      var atIndex := FindTableIndex(at);
      TableIndexFound(ta, tt, ai, ti);
      next := index;
      for bi := 0 to 16
        invariant FillState(all, tableVii[..], base, next, Triple(ti, ai, bi))
      {
        var row := RowFor(ta, tt, ti, ai, bi, atIndex.value);
        AllRowsAt(ta, tt, ti, ai, bi);
        next := WriteRow(all, Triple(ti, ai, bi), row, next, base);
      }
    }

    /** The row of one triple, if it has one, written at `index`. */
    method WriteRow(ghost all: seq<Option<seq<nat>>>, ghost q: nat, row: Option<seq<nat>>, index: nat, ghost base: seq<seq<nat>>)
      returns (next: nat)
      requires tableVii.Length == 4096 && q < 4096
      requires FillState(all, tableVii[..], base, index, q) && row == all[q]
      modifies tableVii
      ensures FillState(all, tableVii[..], base, next, q + 1)
    {
      if row.None? {
        next := index;
      } else {
        ghost var before := tableVii[..];
        WriteAt(before, base, Present(all, q), row.value);
        tableVii[index] := row.value;
        assert tableVii[..] == before[index := row.value];
        next := index + 1;
      }
    }

    /** The search over c for one b, and the TableVi indices of b + t and c + t. */
    method RowFor(ta: seq<seq<int>>, tt: seq<seq<int>>, ti: nat, ai: nat, bi: nat, atIndex: nat) returns (row: Option<seq<nat>>)
      requires Shaped(ta, tt) && ti < 16 && ai < 16 && bi < 16 && atIndex == TableIndex(ta, tt, ai, ti)
      requires tableVi.Length == 256 && tableVi[..] == TableViSpec(ta, tt)
      ensures row == Row(ta, tt, ti, ai, bi)
    {
      var bt := AddRows(ta[bi], tt[ti]);
      var sum := AddRows(ta[ai], ta[bi]);
      var btIndex := FindTableIndex(bt);
      TableIndexFound(ta, tt, bi, ti);
      var c := FindC(ta, tt, sum);
      if c.None? {
        return None;
      }
      var ct := AddRows(ta[c.value], tt[ti]);
      var ctIndex := FindTableIndex(ct);
      TableIndexFound(ta, tt, c.value, ti);
      return Some([atIndex, btIndex.value, ctIndex.value]);
    }
  }

  /** The loop over c, which stops at the first row that completes sum to a 4E8 point. */
  method FindC(ta: seq<seq<int>>, tt: seq<seq<int>>, sum: seq<int>) returns (c: Option<nat>)
    requires Shaped(ta, tt) && |sum| == 8
    ensures c == FirstC(ta, tt, sum, 0)
  {
    for ci := 0 to 16
      invariant FirstC(ta, tt, sum, 0) == FirstC(ta, tt, sum, ci)
    {
      var s := AddRows(sum, ta[ci]);
      var in4E8 := Is4E8Point(s);
      if in4E8 {
        return Some(ci);
      }
    }
    return None;
  }

  /** FindTableIndex finds a + t in the filled table: the panic never fires in Precompute. */
  lemma TableIndexFound(ta: seq<seq<int>>, tt: seq<seq<int>>, ai: nat, ti: nat)
    requires Shaped(ta, tt) && ai < 16 && ti < 16
    ensures FirstIndex(TableViSpec(ta, tt), Add8(ta[ai], tt[ti])) == Some(TableIndex(ta, tt, ai, ti))
  {
    FirstIndexIs(TableViSpec(ta, tt), Add8(ta[ai], tt[ti]), TableIndex(ta, tt, ai, ti));
  }

  /** The characterisation of FirstIndex pins it down. */
  lemma FirstIndexIs(table: seq<seq<int>>, v: seq<int>, i: nat)
    requires i <= |table| && forall k :: 0 <= k < i ==> table[k] != v
    requires i < |table| ==> table[i] == v
    ensures FirstIndex(table, v) == if i < |table| then Some(i) else None
  {
  }
}
