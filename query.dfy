/**
 * Query shares and share recovery of pir/query.go. DPF key generation is not
 * part of this model: the client's key pair and PRF key are supplied by the
 * caller through `generateKeys` and `prfKey`.
 */
module Query {
  import opened Field
  import opened Wrappers

  /** The bytes of one party's DPF key, its range size and its party index. */
  datatype DpfKey = DpfKey(bytes: seq<bv8>, rangeSize: nat, index: nat)

  /** The 16-byte AES key shared by client and servers. */
  type PrfKey = k: seq<bv8> | |k| == 16 witness [0, 0, 0, 0, 0, 0, 0, 0, 0, 0, 0, 0, 0, 0, 0, 0]

  datatype QueryShare = QueryShare(dpfKey: DpfKey, prfKey: PrfKey, shareNumber: nat, isKeywordBased: bool)

  /** One server's additive share of a retrieved slot. */
  datatype SecretSharedQueryResult = SecretSharedQueryResult(share: FP)

  /** Go's uint64(key) conversion of an int. */
  function ToUint64(key: int): (r: nat)
    ensures r < Word && (0 <= key < Word ==> r == key)
  {
    key % Word
  }

  /**
   * newQueryShares: panics (None) unless exactly two shares are asked for;
   * otherwise share i carries number i, the common PRF key, the query kind,
   * and key A for share 0 and key B for share 1.
   */
  method NewQueryShares(key: int, numShares: nat, isIndexQuery: bool,
                        generateKeys: nat -> (DpfKey, DpfKey), prfKey: PrfKey)
    returns (shares: Option<seq<QueryShare>>)
    ensures shares.None? <==> numShares != 2
    ensures shares.Some? ==> |shares.value| == numShares
    ensures shares.Some? ==> forall i :: 0 <= i < |shares.value| ==>
      && shares.value[i].shareNumber == i
      && shares.value[i].prfKey == prfKey
      && shares.value[i].isKeywordBased == !isIndexQuery
      && shares.value[i].dpfKey == (if i == 0 then generateKeys(ToUint64(key)).0 else generateKeys(ToUint64(key)).1)
  {
    if numShares != 2 {
      return None;
    }
    var (keyA, keyB) := generateKeys(ToUint64(key));
    var result: seq<QueryShare> := [];
    var i := 0;
    while i < numShares
      invariant 0 <= i <= numShares && |result| == i
      invariant forall j :: 0 <= j < i ==>
        result[j] == QueryShare(if j == 0 then keyA else keyB, prfKey, j, !isIndexQuery)
    {
      var k := if i == 0 then keyA else keyB;
      result := result + [QueryShare(k, prfKey, i, !isIndexQuery)];
      i := i + 1;
    }
    return Some(result);
  }

  /** newIndexQueryShares: newQueryShares for an index query. */
  method NewIndexQueryShares(index: int, numShares: nat, generateKeys: nat -> (DpfKey, DpfKey), prfKey: PrfKey)
    returns (shares: Option<seq<QueryShare>>)
    ensures shares.None? <==> numShares != 2
    ensures shares.Some? ==> |shares.value| == 2
    ensures shares.Some? ==> forall i :: 0 <= i < 2 ==>
      !shares.value[i].isKeywordBased && shares.value[i].shareNumber == i && shares.value[i].prfKey == prfKey
    ensures shares.Some? ==>
      shares.value[0].dpfKey == generateKeys(ToUint64(index)).0 && shares.value[1].dpfKey == generateKeys(ToUint64(index)).1
  {
    shares := NewQueryShares(index, numShares, true, generateKeys, prfKey);
  }

  /** newKeywordQueryShares: newQueryShares for a keyword query. */
  method NewKeywordQueryShares(keyword: int, numShares: nat, generateKeys: nat -> (DpfKey, DpfKey), prfKey: PrfKey)
    returns (shares: Option<seq<QueryShare>>)
    ensures shares.None? <==> numShares != 2
    ensures shares.Some? ==> |shares.value| == 2
    ensures shares.Some? ==> forall i :: 0 <= i < 2 ==>
      shares.value[i].isKeywordBased && shares.value[i].shareNumber == i && shares.value[i].prfKey == prfKey
    ensures shares.Some? ==>
      shares.value[0].dpfKey == generateKeys(ToUint64(keyword)).0 && shares.value[1].dpfKey == generateKeys(ToUint64(keyword)).1
  {
    shares := NewQueryShares(keyword, numShares, false, generateKeys, prfKey);
  }

  /** The integer sum of the shares. */
  function SumShares(s: seq<SecretSharedQueryResult>): nat
  {
    if |s| == 0 then 0 else SumShares(s[..|s| - 1]) + s[|s| - 1].share
  }

  /** Recover's accumulation: a left fold of field addition starting from 0. */
  function FoldAdd(s: seq<SecretSharedQueryResult>): FP
  {
    if |s| == 0 then 0 else Add(FoldAdd(s[..|s| - 1]), s[|s| - 1].share)
  }

  predicate AllInField(s: seq<SecretSharedQueryResult>)
  {
    forall i :: 0 <= i < |s| ==> s[i].share < FieldPrime
  }

  /** With every share in [0, p), the fold is the sum of the shares reduced modulo p. */
  lemma {:induction false} FoldAddIsSumMod(s: seq<SecretSharedQueryResult>)
    requires AllInField(s)
    ensures FoldAdd(s) == SumShares(s) % FieldPrime
  {
    if |s| > 0 {
      var init := s[..|s| - 1];
      assert AllInField(init);
      FoldAddIsSumMod(init);
      var last := s[|s| - 1].share;
      assert FoldAdd(s) == (SumShares(init) % FieldPrime + last) % FieldPrime;
      ModSumLeft(SumShares(init), last);
    }
  }

  lemma ModSumLeft(a: nat, b: nat)
    ensures (a % FieldPrime + b) % FieldPrime == (a + b) % FieldPrime
  {
    var q := a / FieldPrime;
    assert a == q * FieldPrime + a % FieldPrime;
    ModAddMultiple(a % FieldPrime + b, q);
  }

  /** Recover adds up the servers' shares in the field. */
  method Recover(resShares: seq<SecretSharedQueryResult>) returns (res: FP)
    ensures res == FoldAdd(resShares)
    ensures AllInField(resShares) ==> res == SumShares(resShares) % FieldPrime && res < FieldPrime
  {
    res := 0;
    var i := 0;
    while i < |resShares|
      invariant 0 <= i <= |resShares|
      invariant res == FoldAdd(resShares[..i])
    {
      assert resShares[..i + 1][..i] == resShares[..i];
      res := Add(res, resShares[i].share);
      i := i + 1;
    }
    assert resShares[..i] == resShares;
    if AllInField(resShares) {
      FoldAddIsSumMod(resShares);
    }
  }

  /** Recover([]) is 0 and, for a first share already in the field, Recover([a, b]) is Add(a, b). */
  lemma RecoverSmallCases(a: SecretSharedQueryResult, b: SecretSharedQueryResult)
    requires a.share < FieldPrime
    ensures FoldAdd([]) == 0
    ensures FoldAdd([a, b]) == Add(a.share, b.share)
  {
    assert [a, b][..1] == [a];
    assert [a][..0] == [];
  }
}
