/**
 * The server's oblivious masking of batched answer slots (server/server.go):
 * every slot after the first non-zero one is blinded by a random multiple of
 * the sum of the slots before it, so only the first non-zero slot survives.
 * The random field elements are an input, one per slot.
 */
module Masking {
  import opened Field
  import opened Query

  /** Slot i after masking: slot i plus rands[i] times the field sum of the slots before it. */
  function MaskedAt(slots: seq<SecretSharedQueryResult>, rands: seq<FP>, i: nat): FP
    requires i < |slots| && i < |rands|
  {
    Add(slots[i].share, Multiply(rands[i], FoldAdd(slots[..i])))
  }

  predicate ZeroBefore(slots: seq<SecretSharedQueryResult>, index: nat)
    requires index <= |slots|
  {
    forall j :: 0 <= j < index ==> slots[j].share == 0
  }

  lemma {:induction false} FoldAddZeros(slots: seq<SecretSharedQueryResult>, n: nat)
    requires n <= |slots| && ZeroBefore(slots, n)
    ensures FoldAdd(slots[..n]) == 0
  {
    if n > 0 {
      assert slots[..n][..n - 1] == slots[..n - 1];
      FoldAddZeros(slots, n - 1);
    }
  }

  /**
   * What masking promises: when every slot before `index` is zero, the
   * masked slots before it are zero and slot `index` comes out unchanged,
   * whatever the random elements.
   */
  lemma MaskingKeepsFirstNonZero(slots: seq<SecretSharedQueryResult>, rands: seq<FP>, index: nat)
    requires index < |slots| && |rands| == |slots| && ZeroBefore(slots, index)
    requires slots[index].share < FieldPrime
    requires forall i :: 0 <= i < |rands| ==> rands[i] < FieldPrime
    ensures forall i :: 0 <= i < index ==> MaskedAt(slots, rands, i) == 0
    ensures MaskedAt(slots, rands, index) == slots[index].share
  {
    forall i | 0 <= i < index
      ensures MaskedAt(slots, rands, i) == 0
    {
      FoldAddZeros(slots, i);
    }
    FoldAddZeros(slots, index);
  }

  /**
   * The general form: a slot whose prefix sum is zero in the field is output
   * unchanged, whatever its random element; a slot whose prefix sum is not
   * zero is blinded by rands[i] times that sum.
   */
  lemma ZeroPrefixSumKeepsSlot(slots: seq<SecretSharedQueryResult>, rands: seq<FP>, i: nat)
    requires i < |slots| && i < |rands| && slots[i].share < FieldPrime && rands[i] < FieldPrime
    requires FoldAdd(slots[..i]) == 0
    ensures MaskedAt(slots, rands, i) == slots[i].share
  {
  }

  /**
   * obliviousMasking: one pass keeping the running field sum of the slots
   * seen so far.
   */
  method ObliviousMasking(slots: seq<SecretSharedQueryResult>, rands: seq<FP>) returns (res: seq<SecretSharedQueryResult>)
    requires |rands| == |slots|
    ensures |res| == |slots|
    ensures forall i :: 0 <= i < |slots| ==> res[i].share == MaskedAt(slots, rands, i)
  {
    res := [];
    var sum: FP := 0;
    var i := 0;
    while i < |slots|
      invariant 0 <= i <= |slots| && |res| == i
      invariant sum == FoldAdd(slots[..i])
      invariant forall j :: 0 <= j < i ==> res[j].share == MaskedAt(slots, rands, j)
    {
      var randSum := Multiply(rands[i], sum);
      res := res + [SecretSharedQueryResult(Add(slots[i].share, randSum))];
      assert slots[..i + 1][..i] == slots[..i];
      sum := Add(sum, slots[i].share);
      i := i + 1;
    }
  }
}
