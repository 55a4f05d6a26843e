/**
 * Arithmetic modulo the Mersenne prime p = 2^31 - 1 on the 64-bit unsigned
 * field elements of pir/field/field.go. The Go type FP is a uint64, so every
 * operation here takes naturals below 2^64 and wraps sums and products
 * modulo 2^64 exactly where the Go code would.
 */
module Field {
  const FieldPrime: nat := 2147483647
  const Word: nat := 0x1_0000_0000_0000_0000

  /** The Go type FP: a uint64. */
  type FP = x: nat | x < Word

  /** Add: one conditional subtraction of p from the wrapped 64-bit sum. */
  function Add(a: FP, b: FP): (r: FP)
    ensures a + b < 2 * FieldPrime ==> r == (a + b) % FieldPrime && r < FieldPrime
  {
    var out := (a + b) % Word;
    if out >= FieldPrime then out - FieldPrime else out
  }

  function Negate(a: FP): (r: FP)
    ensures a <= FieldPrime ==> r <= FieldPrime
    ensures 0 < a < FieldPrime ==> 0 < r < FieldPrime && (a + r) % FieldPrime == 0
  {
    if a != 0 then (FieldPrime - a) % Word else 0
  }

  /**
   * fieldMod folds the high bits onto the low 31 bits: a>>31 is a / 2^31 and,
   * because p = 2^31 - 1 is all ones, a & p is a % 2^31.
   */
  function FieldMod(a: FP): (r: FP)
    ensures a <= FieldPrime * FieldPrime ==> r == a % FieldPrime
  {
    FoldCorrect(a);
    Add(a / 0x8000_0000, a % 0x8000_0000)
  }

  lemma FoldCorrect(a: nat)
    ensures a <= FieldPrime * FieldPrime ==>
      a / 0x8000_0000 + a % 0x8000_0000 < 2 * FieldPrime &&
      (a / 0x8000_0000 + a % 0x8000_0000) % FieldPrime == a % FieldPrime
  {
    var hi, lo := a / 0x8000_0000, a % 0x8000_0000;
    assert a == hi * (FieldPrime + 1) + lo;
    if a <= FieldPrime * FieldPrime {
      assert hi * (FieldPrime + 1) < FieldPrime * (FieldPrime + 1);
      MulCancel(hi, FieldPrime, FieldPrime + 1);
      assert a == hi * FieldPrime + (hi + lo);
      ModAddMultiple(hi + lo, hi);
    }
  }

  lemma MulCancel(x: nat, y: nat, c: nat)
    requires x * c < y * c
    ensures x < y
  {
  }

  lemma MulMono(x: nat, y: nat, c: nat)
    requires x <= y
    ensures x * c <= y * c
  {
  }

  /** A residue is its own reduction. */
  lemma SmallMod(x: nat)
    requires x < FieldPrime
    ensures x % FieldPrime == x
  {
  }

  lemma ModAddMultiple(x: nat, k: nat)
    ensures (k * FieldPrime + x) % FieldPrime == x % FieldPrime
  {
  }

  /** Multiply reduces the wrapped 64-bit product. */
  function Multiply(a: FP, b: FP): (r: FP)
    ensures a < FieldPrime && b < FieldPrime ==> r == (a * b) % FieldPrime && r < FieldPrime
  {
    var m := a * b;
    ProductBound(a, b);
    FieldMod(m % Word)
  }

  /** Below p, a product never reaches 2^62, so the 64-bit multiplication cannot wrap. */
  lemma ProductBound(a: nat, b: nat)
    ensures a < FieldPrime && b < FieldPrime ==> a * b <= FieldPrime * FieldPrime < Word && (a * b) % Word == a * b
  {
    if a < FieldPrime && b < FieldPrime {
      var m := a * b;
      MulMono(a, FieldPrime, b);
      assert m <= FieldPrime * b;
      MulMono(b, FieldPrime, FieldPrime);
      assert FieldPrime * b <= FieldPrime * FieldPrime;
      assert FieldPrime * FieldPrime == 4611686014132420609;
      assert m < Word;
    }
  }

  /** The unit tests of pir/field/field_test.go, as facts about the model. */
  lemma AddTests()
    ensures Add(3, 5) == 8
    ensures Add(FieldPrime - 1, FieldPrime - 1) == FieldPrime - 2
  {
  }

  lemma AddOverflowTests(x: nat)
    requires x < 10
    ensures Add(x, FieldPrime - x) == 0
    ensures Add(x, FieldPrime + 5 - x) == 5
  {
  }

  lemma ModulusTests()
    ensures FieldMod(FieldPrime) == 0 && FieldMod(FieldPrime + 1) == 1
    ensures FieldMod(0) == 0 && FieldMod(1) == 1
    ensures FieldMod(FieldPrime * FieldPrime - 1) == FieldPrime - 1
    ensures FieldMod(FieldPrime * FieldPrime) == 0
  {
  }

  /** Negation is the additive inverse inside the field. */
  lemma NegateInverse(a: FP)
    requires a < FieldPrime
    ensures Add(a, Negate(a)) == 0
  {
  }
}
