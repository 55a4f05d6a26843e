# private-ann, modelled in Dafny

This project models the core of private-ann. private-ann is a private
approximate-nearest-neighbour search system: it answers a query without
the servers learning which point was asked for. The model covers these parts:

- **Field arithmetic.** The prime field of `pir/field`, with p = 2^31 − 1, over Go's 64-bit words.
- **Two-server PIR.**
  - The query shares of `pir/query.go` and `Recover`.
  - The database of `pir/db.go`: its setters, the expansion of a query into per-row field elements, and the inner-product answer, unbatched and batched.
  - The oblivious masking of `server/server.go`.
- **The distributed point function of `pir/dpfc/src/dpf.c`.**
  - The 128-bit block helpers.
  - Key generation, the key layout, and key parsing.
  - Full-domain and batched evaluation over arrays.
  - Correctness: the two parties' outputs add up to the indicator of the point, for any pseudo-random generator.
- **The locality-sensitive hashes of `hash/`.**
  - The universal hash.
  - The lattice tables and `Precompute`, with `FindTableIndex` and `Is4E8Point`.
  - The multi-lattice hash: spans, permutation, multi-probe assembly.
  - The distance search queue that enumerates probe combinations in order of distance.
  - The `Candidates` sorter.
- **The ANN layer of `ann/`.**
  - The hash table and its merge.
  - `convertAndCap`.
  - The partition-by-range buckets, bucket divisions and probes of `ann/pbr.go`.
- **The experiment tools.**
  - The accuracy simulation and tally of `ann/cmd/accuracy/accuracy.go`.
  - The neighbour bookkeeping of `ann/cmd/parameters/mean_and_std.go`.
  - The results summariser `ann/cmd/accuracy/res.py`.
  - The partition-by-range success simulation `scripts/pbrsim.py`.

How the model treats the source:

- **Randomness, AES and OS calls are parameters.** This covers `rand`, `crypto/rand`, the AES-based pseudo-random generator, Go's map iteration order, and Python's `float`/`repr`. Every result is stated for all values they can take.
- **Floating-point values are reals.** NaN and the infinities are explicit where the source can produce them: the quotients of `accuracy.go` and the values `res.py` parses. The quotient of `pbrsim.py` divides by a Python `int`, so a zero divisor raises `ZeroDivisionError`, modelled as `None`.
- **Integers are unbounded.** Where the source depends on a machine width, the wrap-around is written out: 64-bit field words, the 128-bit blocks of the DPF, Go's truncating `%`. The search-queue ids are the exception, listed under "## Left out".
- **Stateful Go types are classes.** Their methods update fields in place. Pure helpers are functions, and loops are methods with invariants.

## Model

| member | source | states |
|---|---|---|
| Field.Add | pir/field/field.go:20-26 | when a + b < 2p the result is (a + b) mod p, in [0, p) |
| Field.Negate | pir/field/field.go:28-33 | for 0 < a < p the result is in (0, p) and a + result ≡ 0 (mod p); inputs up to p stay at most p |
| Field.FieldMod | pir/field/field.go:40-47 | the high-bits fold equals a mod p for every a ≤ p² |
| Field.FoldCorrect | pir/field/field.go:40-47 | a/2^31 + a mod 2^31 is below 2p and congruent to a modulo p, for a ≤ p² |
| Field.Multiply | pir/field/field.go:35-37 | for operands in the field the result is (a·b) mod p, in [0, p) |
| Field.ProductBound | pir/field/field.go:35-37 | a product of two field elements is at most p² < 2^64, so the 64-bit multiplication never wraps |
| Field.AddTests | pir/field/field_test.go:5-9 | Add(3, 5) = 8 and Add(p−1, p−1) = p−2 |
| Field.AddOverflowTests | pir/field/field_test.go:10-23 | for x < 10, Add(x, p−x) = 0 and Add(x, p+5−x) = 5 |
| Field.ModulusTests | pir/field/field_test.go:29-48 | fieldMod of p, p+1, 0, 1, p²−1 and p² are 0, 1, 0, 1, p−1 and 0 |
| Field.NegateInverse | pir/field/field.go:20-33 | Add(a, Negate(a)) = 0 for every field element a |
| Query.ToUint64 | pir/query.go:42 | uint64(key) is below 2^64 and is the key itself when the key is in range |
| Query.NewQueryShares | pir/query.go:34-59 | None exactly when numShares ≠ 2; otherwise share i has number i, the shared PRF key, kind = not isIndexQuery, and key A for share 0, key B for share 1 |
| Query.NewIndexQueryShares | pir/query.go:24-26 | two index (not keyword) shares numbered 0 and 1, holding key A and key B of generateKeys(uint64(index)) and the common PRF key, or None when numShares ≠ 2 |
| Query.NewKeywordQueryShares | pir/query.go:29-31 | two keyword shares numbered 0 and 1, holding key A and key B of generateKeys(uint64(keyword)) and the common PRF key, or None when numShares ≠ 2 |
| Query.FoldAddIsSumMod | pir/query.go:62-70 | with every share in the field, the left fold of field Add is the sum of the shares mod p |
| Query.Recover | pir/query.go:62-70 | the result is the fold of Add over the shares; with shares in the field it is their sum mod p, below p |
| Query.RecoverSmallCases | pir/query.go:62-70 | Recover of no shares is 0, and of two shares [a, b] is Add(a, b) |
| Database.FieldDotIsDotMod | pir/db.go:104-115 | the field accumulation Σ Add(Multiply(x, y)) equals the integer inner product mod p |
| Database.DotLinear | pir/db.go:104-115 | when two bit vectors add up row by row to the indicator of row q, the two inner products add up to Data[q] (0 beyond the rows) mod p |
| Database.AnswersAdd | pir/db.go:104-115 | adding two answers in the field is adding their integer inner products mod p |
| Database.QueryLinearity | pir/db.go:104-115 | two answers over bit vectors that share the indicator of row q recover Data[q] exactly |
| Database.Expanded | pir/db.go:120-142 | DBSize entries; entry i is the evaluation at row i's key inside [start, stop), 0 elsewhere |
| Database.BatchAnswerRecovers | pir/db.go:71-99 | with corrected indexing, two point-function shares recover Data[q] in the bucket that contains q and 0 in every other bucket |
| Database.WindowShares | pir/db.go:88-92 | the bucket's window of two expanded point-function shares adds up to the indicator of q's position in the window |
| Database.BatchAnswerAgreesFromRowZero | pir/db.go:88-92 | for a bucket that starts at row 0, the as-written and corrected batch answers agree |
| Database.FieldDotPrefix | pir/db.go:109-111 | the answer reads only the first stop − start bits |
| Database.FullQueryRecovers | pir/db.go:64-68 | the unbatched query answers of two point-function shares recover Data[q] (0 beyond the database) |
| Database.BatchAnswerAsWrittenLosesRow | pir/db.go:88-92 | for data [5, 7] and buckets [0,1), [1,2), the index query of row 1 recovers 0 from bucket 1, not 7 |
| Database.Database.SetBatchingParameters | pir/db.go:38-61 | a zero size, a size that disagrees with a list, and unsorted keywords are each rejected with their own error, leaving the object unchanged; on success only the three batching fields change |
| Database.Database.BuildForData | pir/db.go:150-154 | Data is the new data and DBSize its length; nothing else changes |
| Database.Database.SetKeywords | pir/db.go:156-165 | succeeds exactly when there are DBSize keywords; on error nothing changes |
| Database.Database.BuildForKeysAndValues | pir/db.go:144-148 | the data is always replaced; the keywords only when their count matches, which is also when no error is returned; otherwise the error is the keyword-count mismatch; the batching parameters are kept |
| Database.Database.ExpandSharedQuery | pir/db.go:120-142 | bits[i] is the share evaluated at row i's keyword (keyword query) or at i (index query) for i in [start, stop), 0 elsewhere |
| Database.Database.PrivateSecretSharedQueryWithExpandedBits | pir/db.go:104-115 | the share is Σ Data[start+k]·bits[k] in the field, i.e. the inner product of the rows with bits mod p; 0 for an empty range |
| Database.Database.PrivateSecretSharedQuery | pir/db.go:63-68 | the answer over all rows of the query expanded over all rows |
| Database.Database.PrivateSecretSharedBatchQuery | pir/db.go:70-99 | None exactly when the source panics (BatchSize 0, BatchSize not the length of the starts or stops, more queries than buckets, or a queried bucket's range outside the rows or keywords); otherwise BatchSize results, bucket b < the number of queries holding the as-written answer and the rest nil |
| Database.Database.PrivateSecretSharedBatchQueryCorrected | pir/db.go:70-99 | as above, the same panics as None, with each bucket answered from its own positions of the expanded bits |
| Database.Database.constructor | pir/db.go:34-36 | NewDatabase: every field at its zero value |
| Masking.FoldAddZeros | server/server.go:104-109 | the running field sum over a prefix of zero slots is 0 |
| Masking.MaskingKeepsFirstNonZero | server/server.go:96-113 | when every slot before `index` is zero, the masked slots before it are zero and slot `index` comes out unchanged, for any random elements |
| Masking.ZeroPrefixSumKeepsSlot | server/server.go:105-110 | a slot whose preceding slots sum to 0 in the field is output unchanged, whatever its random element |
| Masking.ObliviousMasking | server/server.go:96-113 | one result per slot; slot i is slot i plus rand_i times the field sum of the slots before it |
| DpfBlock.BytesOfValue | pir/dpfc/src/dpf.c:185 | writing n < 256^len as len little-endian bytes and reading them back gives n |
| DpfBlock.ValueOfBytes | pir/dpfc/src/dpf.c:185 | reading bytes as a number and writing it back gives the same bytes |
| DpfBlock.BytesValueBound | pir/dpfc/src/dpf.c:185 | len bytes stand for a number below 256^len |
| DpfBlock.BlockValue | pir/dpfc/include/dpf.h:29 | a 16-byte block stands for a number below 2^128 |
| DpfBlock.ToBlock | pir/dpfc/src/dpf.c:192 | memcpy of a uint128_t: the block whose value is n |
| DpfBlock.BlockRoundTrip | pir/dpfc/src/dpf.c:192 | a block stored from its own value is the same block |
| DpfBlock.XorBlock | pir/dpfc/src/dpf.c:104-105 | the block XOR is byte by byte |
| DpfBlock.XorCancel | pir/dpfc/src/dpf.c:148-154 | XOR with the same block twice gives the original block back, from either side |
| DpfBlock.Lsb | pir/dpfc/src/dpf.c:21-23 | lsb is 0 or 1 |
| DpfBlock.ReverseLsb | pir/dpfc/src/dpf.c:17-19 | only bit 0 flips, so lsb changes and all other bytes stay |
| DpfBlock.SetLsbZero | pir/dpfc/src/dpf.c:25-32 | lsb becomes 0; only bit 0 of byte 0 is cleared |
| DpfBlock.Low31 | pir/dpfc/src/dpf.c:13 | raw & FIELDMASK is below 2^31 |
| DpfBlock.Low31IsLowBits | pir/dpfc/src/dpf.c:13 | the masked value is the block's value mod 2^31 |
| DpfBlock.LowBitsSplit | pir/dpfc/src/dpf.c:13 | a block's value is its low 31 bits plus a multiple of 2^31 |
| DpfBlock.Convert | pir/dpfc/src/dpf.c:12-15 | the converted value is in [0, FIELDSIZE) |
| DpfBlock.ConvertIsLowBitsMod | pir/dpfc/src/dpf.c:12-15 | convert(raw) = (raw mod 2^31) mod FIELDSIZE |
| DpfBlock.Negate | pir/dpfc/src/dpf.c:38-40 | 0 stays 0; a field element maps to its additive inverse in the field; the result fits 128 bits |
| DpfBlock.ModAfterAdd | pir/dpfc/src/dpf.c:42-44 | a value below 2·FIELDSIZE is reduced to its residue |
| DpfBlock.GetBit | pir/dpfc/src/dpf.c:34-36 | getbit is 0 or 1 |
| DpfBlock.PathBits | pir/dpfc/src/dpf.c:139 | the d directions genDPF follows are getbit at levels 1..d |
| DpfBlock.PathBitsSnoc | pir/dpfc/src/dpf.c:134-139 | the directions to depth d are those to depth d−1 followed by bit d |
| DpfBlock.PathBitsValue | pir/dpfc/src/dpf.c:34-36 | the first d directions of x spell the top d of its low `size` bits |
| DpfBlock.BitsValueBound | pir/dpfc/src/dpf.c:34-36 | d directions spell a number below 2^d |
| DpfBlock.BitsValueInjective | pir/dpfc/src/dpf.c:34-36 | equal values of 0/1 direction sequences of the same length mean equal sequences |
| DpfBlock.SamePath | pir/dpfc/src/dpf.c:252 | x and y take the same path through a depth-size tree iff they agree mod 2^size |
| DpfBlock.ChildPath | pir/dpfc/src/dpf.c:312-332 | a heap node's path is its parent's path followed by its own last bit |
| DpfBlock.CachePath | pir/dpfc/src/dpf.c:236 | the cache index (x >> (size − 12)) & (2^12 − 1) spells the same first 12 directions as x |
| DpfTree.Prg | pir/dpfc/src/dpf.c:91-113 | dpfPRG clears bit 0 of both output seeds, and both control bits are 0 or 1 |
| DpfTree.PrgOfBitsAreBits | pir/dpfc/src/dpf.c:108-109 | under any AES key, dpfPRG's control bits are 0 or 1 |
| DpfTree.WalkUsesPrefix | pir/dpfc/src/dpf.c:242-257 | a walk of depth d reads only the first d correction words |
| DpfTree.WalkPathStep | pir/dpfc/src/dpf.c:242-257 | one more level of x's path is the child, in the direction of x's next bit, of the node before it |
| DpfTree.GenRun | pir/dpfc/src/dpf.c:134-174 | after i levels there are i correction words |
| DpfTree.GenStepCorrects | pir/dpfc/src/dpf.c:134-174 | one level of genDPF: on the index's side each party's expansion gives its path node and the control bits still differ; on the other side both parties' expansions coincide |
| DpfTree.GenRunPrefix | pir/dpfc/src/dpf.c:134-174 | the first i correction words do not depend on the levels below i |
| DpfTree.WalkPair | pir/dpfc/src/dpf.c:134-174 | walking both keys along x: on the index path the walks meet genDPF's nodes with differing control bits; once x leaves it, both parties hold the same node |
| DpfTree.OnPathStep | pir/dpfc/src/dpf.c:134-174 | one level below the two parties' path nodes: in the index's direction each party reaches its next path node, control bits still differing; in the other direction both reach the same node |
| DpfTree.LastCw | pir/dpfc/src/dpf.c:176-182 | the last correction word is a field element |
| DpfTree.LastWord | pir/dpfc/src/dpf.c:178-182 | on the converted final seeds, the last correction word is a field element |
| DpfTree.CwBytes | pir/dpfc/src/dpf.c:187-191 | 18 bytes per level |
| DpfTree.CwBytesSnoc | pir/dpfc/src/dpf.c:187-191 | level i's 18 bytes follow those of the levels before it: sCW, tCW0, tCW1 |
| DpfTree.KeyBytes | pir/dpfc/src/dpf.c:184-192 | a key is 18·size + 34 bytes |
| DpfTree.KeyCws | pir/dpfc/src/dpf.c:218-222 | parsing yields `size` correction words |
| DpfTree.KeyLast | pir/dpfc/src/dpf.c:264 | the last correction word read from INDEX_LASTCW fits 128 bits |
| DpfTree.CwBytesLayout | pir/dpfc/src/dpf.c:187-191 | word i's seed is at bytes 18i..18i+15, tCW0 at 18i+16 and tCW1 at 18i+17 |
| DpfTree.KeyWordAt | pir/dpfc/src/dpf.c:184-191 | correction word j of a written key reads back from bytes 18(j+1) to 18(j+1)+17 |
| DpfTree.KeyRoundTrip | pir/dpfc/src/dpf.c:184-192 | parsing a written key gives back its party byte, root seed, root bit, correction words and last word |
| DpfTree.GenKeys | pir/dpfc/src/dpf.c:116-197 | both keys are 18·size + 34 bytes |
| DpfTree.GenKeysLayout | pir/dpfc/src/dpf.c:184-196 | the keys differ only in the party byte (0/1), the root seed (r0/r1) and the root control bit (0/1); bytes from 18 on are shared |
| DpfTree.OtherKeyFromFirst | pir/dpfc/src/dpf.c:193-196 | k1 is k0 with its first 18 bytes replaced by 1, r1, 1 |
| DpfTree.KeyBytesTail | pir/dpfc/src/dpf.c:187-192 | from byte 18 on, a key is its correction words followed by the last word |
| DpfTree.Output | pir/dpfc/src/dpf.c:259-271 | a leaf's output fits 128 bits and is a field element when the last word is |
| DpfTree.Share | pir/dpfc/src/dpf.c:261-272 | on a converted seed, the corrected and possibly negated share fits 128 bits and is a field element when the last word is |
| DpfTree.EvalAt | pir/dpfc/src/dpf.c:234-275 | a key's share at x fits 128 bits |
| DpfTree.OffPathCancels | pir/dpfc/src/dpf.c:259-271 | two parties holding the same leaf produce shares that add up to 0 mod FIELDSIZE |
| DpfTree.OnPathSumsToOne | pir/dpfc/src/dpf.c:176-182 | on the index path, the last correction word makes the two shares add up to 1 mod FIELDSIZE |
| DpfTree.FieldOps | pir/dpfc/src/dpf.c:38-44 | negate and modAfterAdd on field inputs, spelled out |
| DpfTree.OnPathArithmetic | pir/dpfc/src/dpf.c:176-182 | on the converted final seeds, whichever party has control bit 1 adds the last word, and the outputs add up to 1 |
| DpfTree.PartyOneArithmetic | pir/dpfc/src/dpf.c:180-182 | when party 1 has control bit 1, the shares add up to 1 |
| DpfTree.PartyZeroArithmetic | pir/dpfc/src/dpf.c:176-178 | when party 0 has control bit 1, the shares add up to 1 |
| DpfTree.DpfCorrect | pir/dpfc/src/dpf.c:116-279 | for any PRG with 0/1 control bits and any root seeds, the shares are field elements that add up to 1 mod FIELDSIZE when x agrees with the index in its low `size` bits, and to 0 otherwise |
| DpfTree.LeafShares | pir/dpfc/src/dpf.c:259-271 | the indicator property on the two leaves the walks along x reach |
| DpfTree.LeafPair | pir/dpfc/src/dpf.c:259-271 | leaves that are the last path nodes with different control bits give shares adding to 1; equal leaves give shares adding to 0 |
| DpfTree.DpfCorrectForCipher | pir/dpfc/src/dpf.c:91-279 | the same correctness for dpfPRG under any AES key |
| DpfTree.HeapLevelRange | pir/dpfc/src/dpf.c:289-339 | heap node j lies within its level's range 2^l − 1 .. 2^(l+1) − 2 |
| DpfTree.HeapLevelOf | pir/dpfc/src/dpf.c:289-339 | level d holds exactly the nodes 2^d − 1 .. 2^(d+1) − 2 |
| DpfTree.HeapPair | pir/dpfc/src/dpf.c:312-332 | the nodes at positions 2h and 2h+1 of level l+1 are the two children of position h of level l |
| DpfTree.HeapLeafIsWalk | pir/dpfc/src/dpf.c:342-346 | leaf i (node 2^d − 1 + i) is the walk along i's d bits, most significant first |
| Dpf.CopyBlock | pir/dpfc/src/dpf.c:185 | memcpy: bytes at..at+15 become the block and nothing else changes |
| Dpf.WriteKey | pir/dpfc/src/dpf.c:184-192 | the buffer holds exactly KeyBytes of the party, root, root bit, correction words and last word |
| Dpf.WriteCws | pir/dpfc/src/dpf.c:187-191 | the correction-word region holds CwBytes; the header and the tail are untouched |
| Dpf.CwStep | pir/dpfc/src/dpf.c:187-191 | writing one more word at its 18 bytes extends the correction-word layout by that word and keeps the header and the tail |
| Dpf.WriteCw | pir/dpfc/src/dpf.c:188-190 | one level's 18 bytes, with everything else untouched |
| Dpf.GenLevel | pir/dpfc/src/dpf.c:135-173 | one level of genDPF computes GenStep |
| Dpf.GenLevels | pir/dpfc/src/dpf.c:117-174 | the level loop computes GenRun to depth `size` |
| Dpf.GenDpf | pir/dpfc/src/dpf.c:116-197 | genDPF returns GenKeys for the PRG and the random root seeds |
| Dpf.LastCorrectionWord | pir/dpfc/src/dpf.c:176-182 | the last correction word is LastCw of the final nodes |
| Dpf.OtherPartyKey | pir/dpfc/src/dpf.c:193-196 | k1 is 1, r1, 1, then k0 from byte 18 |
| Dpf.ParseCws | pir/dpfc/src/dpf.c:218-222 | the parsed correction words are KeyCws |
| Dpf.ExpandNode | pir/dpfc/src/dpf.c:243-250 | dpfPRG on the node, corrected by the level's word when its control bit is 1 |
| Dpf.ParentIndex | pir/dpfc/src/dpf.c:313-316 | the loop's parentIndex formula gives the parent of the pair |
| Dpf.NextPair | pir/dpfc/src/dpf.c:334-339 | the level bookkeeping: each pair is inside the tree, and after a level's last pair that is not the tree's last, a deeper level follows |
| Dpf.HeapPrefixExtend | pir/dpfc/src/dpf.c:327-332 | writing the next two nodes extends the heap-ordered prefix by two |
| Dpf.ExpandPair | pir/dpfc/src/dpf.c:313-339 | one round of the main loop keeps the first i + 2 entries heap-correct |
| Dpf.ExpandTree | pir/dpfc/src/dpf.c:286-340 | a tree of 2^(size+1) − 1 nodes, each the heap node at its index |
| Dpf.FullDomainDpf | pir/dpfc/src/dpf.c:283-350 | 2^size leaves; leaf i is the walk from the key's root along i's bits |
| Dpf.CopyLeaves | pir/dpfc/src/dpf.c:342-346 | the last numLeaves nodes, in order |
| Dpf.Blocks | pir/dpfc/src/dpf.c:274 | 16 bytes per point |
| Dpf.BlocksSnoc | pir/dpfc/src/dpf.c:234-275 | the output for l + 1 points extends that for l points by the block of point l |
| Dpf.BlocksAt | pir/dpfc/src/dpf.c:274 | block l of the output is point l's block |
| Dpf.BatchEvalDpf | pir/dpfc/src/dpf.c:199-279 | bytes 16l..16l+15 of the output are the key's share at xs[l], for every l |
| Dpf.EvalAll | pir/dpfc/src/dpf.c:234-275 | the outer loop writes every point's share block |
| Dpf.EvalInto | pir/dpfc/src/dpf.c:234-275 | one outer iteration extends the written prefix by point l's block |
| Dpf.CachedNode | pir/dpfc/src/dpf.c:236-238 | the cached node is the depth-12 node on x's path |
| Dpf.WalkBelowCache | pir/dpfc/src/dpf.c:242-257 | the inner loop reaches the leaf on x's path |
| Dpf.LeafOutput | pir/dpfc/src/dpf.c:259-271 | the leaf's value, converted, corrected and negated, is Output |
| Dpf.EvalPoint | pir/dpfc/src/dpf.c:236-271 | one point's share is EvalAt |
| UniversalHash.Accepted | hash/universal_hash.go:25-35 | the accepted words are at most as many as the draws, and each is below Prime |
| UniversalHash.AcceptedSnoc | hash/universal_hash.go:32-35 | one more draw adds itself when it is below Prime, and nothing otherwise |
| UniversalHash.AcceptedMembers | hash/universal_hash.go:32-35 | every accepted coefficient is one of the draws and is below Prime |
| UniversalHash.AcceptedPrefix | hash/universal_hash.go:25-35 | the accepted words of a prefix of the draws are a prefix of the accepted words |
| UniversalHash.NewUniversalHash | hash/universal_hash.go:22-38 | modulus Prime; dim + 1 coefficients, the first dim + 1 accepted draws, each below Prime |
| UniversalHash.Hash | hash/universal_hash.go:40-52 | None (the panic) exactly when the vector size + 1 differs from the coefficient count; otherwise (a_0 + Σ a_(i+1)·x_i) mod Prime, below Prime |
| UniversalHash.PolyDifference | hash/universal_hash.go:44-50 | the polynomials of x and y differ by Σ a_(i+1)·(x_i − y_i), so a collision is a multiple of Prime |
| EvenSplit.EvenRanges | hash/multilattice_hash.go:45-60 | n ranges |
| EvenSplit.LastRangeEnd | hash/multilattice_hash.go:45-60 | the last range ends at total |
| EvenSplit.RangeWidth | hash/multilattice_hash.go:51-55 | range i is one wider than total / n exactly when i < total % n |
| EvenSplit.RangeStartMonotone | hash/multilattice_hash.go:50-58 | range starts never decrease |
| EvenSplit.EvenRangesShape | hash/multilattice_hash.go:45-60 | the first range starts at 0, the last ends at total, each starts where the previous ended, and range i has width total / n, plus one when i < total % n |
| EvenSplit.Split | ann/pbr.go:19-31 | the loop shared by Spans and NewPBRBuckets computes EvenRanges |
| Partition.NewPBRBuckets | ann/pbr.go:18-38 | numBuckets contiguous ranges from 0 to max, range i of width max / numBuckets plus one when i < max % numBuckets; Size = max / numBuckets |
| Partition.FindBucket | ann/pbr.go:40-48 | the guess lies in [0, hash / Size + 1] |
| Partition.FindBucketCorrect | ann/pbr.go:40-48 | for a hash below max, with max % numBuckets ≤ Size, the returned bucket's range holds the hash |
| Partition.GuessFits | ann/pbr.go:44 | a guess inside the buckets whose start is at most the hash also ends above it |
| Partition.GuessPastEnd | ann/pbr.go:42-43 | a guess past the buckets is exactly numBuckets, and the last bucket holds the hash |
| Partition.GuessAbove | ann/pbr.go:42-43 | a guess whose bucket starts above the hash is positive and one too high |
| Partition.StartBounds | ann/pbr.go:21-30 | with max % n ≤ max / n, range i starts between i·Size and i·Size + Size |
| Partition.FindBucketNeedsSmallRemainder | ann/pbr.go:40-48 | for 5 hashes in 3 buckets [0,2), [2,4), [4,5), hash 3 is reported in bucket 2, which does not hold it |
| Partition.Pairs | ann/pbr.go:50-53 | one (key, value) pair per position |
| Partition.SwapKeepsMultiset | ann/pbr.go:85-88 | exchanging two positions keeps the multiset |
| Partition.Sorter.constructor | ann/pbr.go:56 | a sorter over the caller's two slices, shared rather than copied |
| Partition.Sorter.Len | ann/pbr.go:77-79 | the number of keys |
| Partition.Sorter.Swap | ann/pbr.go:85-88 | positions i and j are exchanged in both slices, and the (key, value) pairs keep their multiset |
| Partition.Sorter.Sort | ann/pbr.go:57-58 | the keys end ascending and the (key, value) pairs are a permutation of the original ones |
| Partition.Sorter.MinFrom | ann/pbr.go:81-83 | a position in keys[i..] whose key is least |
| Partition.ScanAsWritten | ann/pbr.go:65-72 | the scan ends inside the buckets, with one start and one stop per bucket |
| Partition.SortPairs | ann/pbr.go:56-58 | sorted keys, a permutation of the pairs, and every key still below the bound |
| Partition.PermutedKeyBound | ann/pbr.go:56-58 | a permutation of the pairs takes every key from the original keys |
| Partition.ComputeBucketDivisionsAsWritten | ann/pbr.go:55-75 | the keys end sorted with the pairs permuted, and the result is the as-written scan followed by the last stop |
| Partition.DivisionsAsWrittenLoseTrailingBuckets | ann/pbr.go:65-73 | keys [0] in buckets [0,2), [2,4) come out as starts [0,0], stops [0,1], which is not a division; starts [0,1], stops [1,1] is |
| Partition.DivisionsAsWrittenSkipOneBucketOnly | ann/pbr.go:66-72 | keys [0,3] in buckets [0,2), [2,3), [3,4) come out as starts [0,1,0], stops [1,0,2], which is not a division; starts [0,1,1], stops [1,1,2] is |
| Partition.ComputeBucketDivisions | ann/pbr.go:55-75 | the corrected divisions: the keys end sorted with the pairs permuted, and every start and stop is the cut of the sorted keys at its bucket's bounds |
| Partition.DivideSorted | ann/pbr.go:64-74 | the corrected scan over sorted keys yields a division |
| Partition.EndsMonotone | ann/pbr.go:19-31 | the range ends of the even buckets ascend |
| Partition.AdvancePast | ann/pbr.go:66-72 | the corrected inner step keeps the scan state after key i |
| Partition.CloseAt | ann/pbr.go:67-70 | closing the current bucket at position i keeps the scan state |
| Partition.ScanStateIsDivision | ann/pbr.go:73 | a finished scan, with its last bucket stopped at the number of keys, is a division |
| Partition.ScanStep | ann/pbr.go:66-67 | a key below the current bucket's end extends the scan state by one |
| Partition.DivisionsPartition | ann/pbr.go:55-75 | a division of sorted keys starts at 0, stops at the number of keys, has each run starting where the previous stopped, and puts every key of run b in bucket b's range |
| Partition.CutUnique | ann/pbr.go:55-75 | the cut at a bound is unique |
| Partition.CutAt | ann/pbr.go:55-75 | the key at a cut reaches the bound, and keys before a later cut are below it |
| Partition.FirstProbeIsFirst | ann/pbr.go:98-104 | a slot holds the hash at the first position whose bucket is b; an unused slot means no hash maps to b |
| Partition.FirstProbeStable | ann/pbr.go:100-103 | later hashes never change a bucket that is already used |
| Partition.ComputeProbes | ann/pbr.go:90-106 | numPartitions slots; slot b holds the first hash, in probe order, whose bucket is b, and 0 when there is none |
| Partition.ProbeBucketsExact | ann/pbr.go:95-99 | for fewer than 2^32 partitions, every hash below Prime maps to the bucket whose range holds it |
| SearchQueue.ElementId | hash/distance_search_queue.go:97-104 | the loop computes the coordinates read as base-domainSize digits, most significant first |
| SearchQueue.IdNonNegative | hash/distance_search_queue.go:97-104 | the id of non-negative digits is non-negative |
| SearchQueue.IdInjective | hash/distance_search_queue.go:97-104 | two coordinate lists of the same length with digits below the base have different ids, so `inserted` never confuses two combinations |
| SearchQueue.DistanceMonotone | hash/distance_search_queue.go:111-125 | with sources sorted by distance, a combination pointwise below another is no farther |
| SearchQueue.BaseElement | hash/distance_search_queue.go:46-49 | the base element has all-zero coordinates and its distance is the sum of the first candidates |
| SearchQueue.IncrementCopy | hash/distance_search_queue.go:111-125 | None exactly when coordinate pos would run off its source; otherwise the copy with that coordinate one higher, its distance summed afresh |
| SearchQueue.DistanceSnoc | hash/distance_search_queue.go:122 | one more coordinate adds its candidate's distance |
| SearchQueue.StepNotCloser | hash/distance_search_queue.go:111-125 | with sorted sources, an incremented copy is never closer |
| SearchQueue.LeastExists | hash/distance_search_queue.go:66 | a non-empty queue has an element of least distance for heap.Pop to return |
| SearchQueue.IdsSnoc | hash/distance_search_queue.go:36-41 | pushing an element adds its id to the queued ids |
| SearchQueue.IdsRemove | hash/distance_search_queue.go:90-94 | popping an element removes its id from the queued ids |
| SearchQueue.InsertKeepsIds | hash/distance_search_queue.go:31-43 | inserting a fresh id keeps the inserted ids equal to those queued or popped |
| SearchQueue.InsertKeepsOrder | hash/distance_search_queue.go:31-43 | pushing an element no closer than the last pop keeps the pop order |
| SearchQueue.InsertKeeps | hash/distance_search_queue.go:31-43 | inserting a fresh well-formed element no closer than the last pop keeps the search invariant |
| SearchQueue.PopKeepsIds | hash/distance_search_queue.go:90-94 | a pop moves an element from queue to final and keeps the ids tracked |
| SearchQueue.PopKeepsOrder | hash/distance_search_queue.go:62-67 | popping a least element keeps the pops ascending with nothing queued closer than the last pop |
| SearchQueue.PopKeeps | hash/distance_search_queue.go:62-67 | popping a least element, while fewer than length were popped, keeps the search invariant |
| SearchQueue.PopKeepsWellFormed | hash/distance_search_queue.go:90-94 | queue and final stay well-formed combinations after a pop |
| SearchQueue.InsertedIsPresent | hash/distance_search_queue.go:36-41 | a combination whose id was inserted is queued or popped |
| SearchQueue.SumStepDown | hash/distance_search_queue.go:111-125 | lowering one coordinate lowers the coordinate sum by one |
| SearchQueue.SumNonNegative | hash/distance_search_queue.go:111-125 | non-negative coordinates have a non-negative sum |
| SearchQueue.Frontier | hash/distance_search_queue.go:45-60 | a combination never popped lies pointwise above some queued element |
| SearchQueue.StepDown | hash/distance_search_queue.go:111-125 | lowering a non-zero coordinate gives a combination one step below, with a smaller sum |
| SearchQueue.PredecessorPopped | hash/distance_search_queue.go:56-58 | a combination one step above a popped element is inserted, so something queued lies below it |
| SearchQueue.PresentInQueue | hash/distance_search_queue.go:36-41 | an inserted combination never popped is queued |
| SearchQueue.DistanceSearchQueue.constructor | hash/distance_search_queue.go:21-29 | empty inserted set, queue and final; the given sources and length |
| SearchQueue.DistanceSearchQueue.Insert | hash/distance_search_queue.go:31-43 | true exactly for a present element whose id is new; then the id is recorded and the element queued, otherwise nothing changes |
| SearchQueue.DistanceSearchQueue.Pop | hash/distance_search_queue.go:90-94 | the popped element leaves the queue and is appended to final |
| SearchQueue.DistanceSearchQueue.GetNextCandidateToExpand | hash/distance_search_queue.go:62-67 | None exactly when length elements were popped or the queue is empty; otherwise a least element, moved to final |
| SearchQueue.DistanceSearchQueue.Search | hash/distance_search_queue.go:45-60 | at most length distinct well-formed combinations; with sorted sources they ascend and none left out is closer; fewer than length means every combination was found |
| SearchQueue.DistanceSearchQueue.InsertBase | hash/distance_search_queue.go:46-50 | after the base insert, the search invariant holds |
| SearchQueue.DistanceSearchQueue.Expand | hash/distance_search_queue.go:56-58 | inserting every successor of the popped element restores the search invariant |
| SearchQueue.DistanceSearchQueue.ExpandAt | hash/distance_search_queue.go:57 | one successor inserted, the expansion state advances by one source |
| SearchQueue.SearchStart | hash/distance_search_queue.go:46-50 | the base alone inserted and queued satisfies the invariant |
| SearchQueue.PopStartsExpansion | hash/distance_search_queue.go:52-56 | a pop starts the expansion of the popped element |
| SearchQueue.ExpandedGrow | hash/distance_search_queue.go:56-58 | inserting the successor at position s extends what is expanded to s + 1 |
| SearchQueue.AllExpandedGrow | hash/distance_search_queue.go:56-58 | more inserted ids keep every pop expanded |
| SearchQueue.AllExpandedLast | hash/distance_search_queue.go:56-58 | once the last pop is fully expanded, every pop is |
| SearchQueue.AllExpandedSnoc | hash/distance_search_queue.go:52 | a new pop keeps the earlier pops expanded |
| SearchQueue.SearchResult | hash/distance_search_queue.go:52-55 | when the search stops, final has the properties Search promises |
| HashCommon.Swapped | hash/hash_common.go:61-68 | exchanging two positions keeps the length |
| HashCommon.SwapTwice | hash/hash_common.go:61-68 | swapping the same positions twice restores the slice |
| HashCommon.SwapPermutes | hash/hash_common.go:61-68 | a swap keeps the multiset of elements |
| HashCommon.SwappedAt | hash/hash_common.go:61-68 | positions i and j are exchanged and every other position is kept |
| HashCommon.ZipSwapped | hash/hash_common.go:61-68 | swapping both slices swaps their (index, distance) pairs |
| HashCommon.Candidates.constructor | hash/hash_common.go:50-53 | Candidates over the given index and distance slices |
| HashCommon.Candidates.Len | hash/hash_common.go:55-57 | the number of indexes |
| HashCommon.Candidates.Swap | hash/hash_common.go:61-68 | both slices have positions i and j exchanged; the pairs are swapped and keep their multiset |
| MultiLattice.Spans | hash/multilattice_hash.go:45-60 | numSpans contiguous spans from 0 to total, the first total % numSpans of them one longer than total / numSpans, equal to the even split |
| MultiLattice.NewMultiLatticeHash | hash/multilattice_hash.go:32-42 | the permutation is kept, one lattice hash per span of that span's dimension, and a universal hash modulo the prime over copies * 24 coordinates whose coefficients are the first copies * 24 + 1 draws below the prime |
| MultiLattice.Permute | hash/multilattice_hash.go:68-71 | permuted[i] is v[Permutation[i]] for every i |
| MultiLattice.HashWithDist | hash/multilattice_hash.go:67-80 | the decoded lattice points of the permuted blocks concatenated in copy order, and the sum of their distances |
| MultiLattice.JoinedBlocks | hash/multilattice_hash.go:74-79 | with 24-coordinate lattice points, the hash has 24 coordinates per copy and copy i's point sits at [24i, 24i + 24) |
| MultiLattice.PermutedCoversAll | hash/multilattice_hash.go:68-71 | every coordinate of v appears in the permuted vector at exactly one place |
| MultiLattice.PermutationOnto | hash/multilattice_hash.go:34 | a permutation of [0, n) takes every value below n |
| MultiLattice.Hash | hash/multilattice_hash.go:62-65 | the universal hash modulo the prime of the concatenated lattice point, defined exactly when the coordinate count matches the hash's |
| MultiLattice.HashDefined | hash/multilattice_hash.go:32-42 | a hash built by NewMultiLatticeHash over 24-coordinate lattice points always has the right input length |
| MultiLattice.MultiProbeHashWithDist | hash/multilattice_hash.go:83-111 | probes slots; slot k holds the concatenation of the k-th combination the search returns with its distance; unused slots are nil with distance 0; combinations are distinct, ascending in distance for sorted candidates, and complete when fewer than probes exist |
| MultiLattice.CollectProbes | hash/multilattice_hash.go:88-97 | each copy's probe points and a search source whose candidate j has coordinates [j] and the j-th distance |
| MultiLattice.Assemble | hash/multilattice_hash.go:100-110 | slot k holds combination k's concatenated points and distance, the rest nil and 0 |
| MultiLattice.Concat | hash/multilattice_hash.go:103-106 | the picked lattice point of every copy appended in copy order |
| MultiLattice.FirstProbeIsHash | hash/multilattice_hash.go:67-111 | when each copy's first probe is its closest point, the all-zeros combination equals HashWithDist's hash at its distance |
| LatticeTables.TablesShaped | hash/lattice_hash.go:279-360 | Table IV(a) has sixteen rows and Table IV(t) at least sixteen, all of 8 coordinates |
| LatticeTables.AddRows | hash/lattice_hash.go:369-371 | the coordinate-wise sum of two 8-vectors |
| LatticeTables.TableViEntry | hash/lattice_hash.go:366-374 | row 16i + j of Table VI is a_i + t_j |
| LatticeTables.Is4E8Point | hash/lattice_hash.go:435-465 | the membership test with Go's truncated remainder |
| LatticeTables.GoRemZero | hash/lattice_hash.go:441-448 | Go's remainder is zero exactly when the Euclidean one is |
| LatticeTables.GoRemTwo | hash/lattice_hash.go:457-461 | a Go remainder of 2 or -2 modulo 4 is exactly a Euclidean remainder of 2 |
| LatticeTables.Is4E8Euclidean | hash/lattice_hash.go:435-465 | the test accepts exactly the vectors whose sum is 0 modulo 8 and whose coordinates are all 0 or all 2 modulo 4 |
| LatticeTables.FirstIndex | hash/lattice_hash.go:425-432 | the least index of v in the table, or none when v is absent |
| LatticeTables.Tables.constructor | hash/lattice_hash.go:359-360 | Table VI of 256 zero rows and Table VII of 4096 zero rows, as the globals start |
| LatticeTables.Tables.FindTableIndex | hash/lattice_hash.go:425-432 | the first row of Table VI equal to v, none where the source panics |
| LatticeTables.TableIndex | hash/lattice_hash.go:384-387 | a_a + t_t is always in Table VI, at its least index |
| LatticeTables.TableIndexFound | hash/lattice_hash.go:387-410 | FindTableIndex never panics inside Precompute |
| LatticeTables.FirstIndexIs | hash/lattice_hash.go:425-432 | an index before which v is absent and at which it occurs is the first index |
| LatticeTables.FirstC | hash/lattice_hash.go:397-416 | the first Table IV(a) row c that makes a + b + c a 4E8 point, and no earlier row does; none when no row does |
| LatticeTables.FindC | hash/lattice_hash.go:397-416 | the loop over c stops at that first row |
| LatticeTables.TripleRow | hash/lattice_hash.go:379-419 | triple (t, a, b) is number 256t + 16a + b in the loop order |
| LatticeTables.AllRowsAt | hash/lattice_hash.go:379-419 | entry 256t + 16a + b of the row list is the row of that triple |
| LatticeTables.PresentFull | hash/lattice_hash.go:411-414 | when every triple wrote a row, row p is the p-th triple's |
| LatticeTables.TableViiRows | hash/lattice_hash.go:378-422 | a full Table VII holds the row of (t, a, b) at 256t + 16a + b |
| LatticeTables.FullRowAt | hash/lattice_hash.go:378-422 | the same for one triple |
| LatticeTables.Tables.Precompute | hash/lattice_hash.go:365-423 | Table VI is a_i + t_j row by row; Table VII holds the rows written in loop order over the old contents; ok exactly when 4096 rows were written |
| LatticeTables.Tables.FillVi | hash/lattice_hash.go:366-377 | Table VI filled with a_i + t_j |
| LatticeTables.Tables.FillVii | hash/lattice_hash.go:378-422 | Table VII holds the rows written in loop order over its old contents; ok exactly when 4096 rows were written |
| LatticeTables.Tables.FillAll | hash/lattice_hash.go:379-418 | after the loop over t, the rows of all 4096 triples with a row are written in order from index 0 |
| LatticeTables.Tables.FillForT | hash/lattice_hash.go:381-417 | the loop over a writes the rows of the 256 triples (t, ·, ·) in order |
| LatticeTables.Tables.FillForA | hash/lattice_hash.go:388-417 | the loop over b writes the rows of the sixteen triples (t, a, ·) in order |
| LatticeTables.Tables.WriteRow | hash/lattice_hash.go:411-415 | a triple's row, when it has one, is written at the next index |
| LatticeTables.Tables.RowFor | hash/lattice_hash.go:389-416 | the indexes of a + t, b + t and c + t for the first completing c, or none |
| LatticeTables.WriteAt | hash/lattice_hash.go:411-414 | writing at the next index extends the written rows by one and leaves the rest |
| Construct.Restrict | ann/construct.go:141-150 | the part of a map whose keys lie in a set |
| Construct.MergedBuckets | ann/construct.go:141-150 | after Merge, keys of either side are present; keys only in the table keep their rows; a key of other has the old rows followed by other's, so no row is lost and old rows keep their places |
| Construct.MergeEmpty | ann/construct.go:141-150 | merging an empty map changes nothing |
| Construct.MergedStep | ann/construct.go:142-149 | handling one more key of other extends that key's bucket by other's rows |
| Construct.HashTable.constructor | ann/construct.go:103-105 | an empty table with its number |
| Construct.HashTable.Merge | ann/construct.go:141-150 | the table becomes the merge of the old table and other; its number is kept |
| Construct.HashTable.Len | ann/construct.go:152-154 | the number of distinct hash values |
| Construct.HashTable.Get | ann/construct.go:171-173 | the rows under h, empty when none |
| Construct.Pick | ann/construct.go:160-166 | the kept row is a member of its bucket, the only one when it has one row |
| Construct.OrderVisitsAll | ann/construct.go:159 | a visiting order of distinct keys as long as the map reaches every key |
| Construct.ConvertAndCap | ann/construct.go:157-169 | keys in visiting order and, for each, a member of its bucket: the only member for one-row buckets, the draw for larger ones, drawn with rand.Intn calls counted only for buckets of more than one row |
| Accuracy.QueryKey | ann/cmd/accuracy/accuracy.go:353-359 | uint32(queryId): below 2^32, the id itself when it fits, and 2^32 - 1 for the test queries' -1 |
| Accuracy.Kept | ann/cmd/accuracy/accuracy.go:350-357 | the row kept from a bucket of several rows is a member of that bucket |
| Accuracy.KeptAvoidsQuery | ann/cmd/accuracy/accuracy.go:353-356 | with two or more distinct rows the kept row is never the query |
| Accuracy.ScanOnePerPartition | ann/cmd/accuracy/accuracy.go:338-349 | within one table the partitions looked up are pairwise distinct and are exactly the flagged ones; no more rows than lookups and at most one draw per lookup |
| Accuracy.VisitOnePerPartition | ann/cmd/accuracy/accuracy.go:343-362 | one probe keeps that bookkeeping: a used partition is skipped, a new one is flagged and looked up once |
| Accuracy.ScanEmpty | ann/cmd/accuracy/accuracy.go:343-363 | a table keeps nothing exactly when every bucket it looked up was empty or held only the query, and then draws nothing |
| Accuracy.SimulateFirstHit | ann/cmd/accuracy/accuracy.go:337-368 | the reported table is the first whose probes keep a row, earlier tables kept none, and the result is that table's; no result exactly when the table is len(tables) |
| Accuracy.SimulateQuery | ann/cmd/accuracy/accuracy.go:335-369 | the rows, table and draws of the table-by-table simulation; nil cache slots up to the reported table are filled with the multi-hash and later slots are untouched |
| Accuracy.FillSlot | ann/cmd/accuracy/accuracy.go:339-342 | a nil cache slot is filled with the multi-hash and the slot's hashes are used; earlier slots stay filled and later ones untouched |
| Accuracy.ProbeTable | ann/cmd/accuracy/accuracy.go:338-363 | one table's probing: a flag per partition and a lookup for every probe whose partition is not yet flagged |
| Floats.Divide | ann/cmd/accuracy/accuracy.go:210-211 | a float quotient is finite exactly for a non-zero divisor, and then times the divisor gives the numerator back; 0/0 is NaN and a positive number over 0 is +Inf |
| Tally.Classify | ann/cmd/accuracy/accuracy.go:195-225 | neither exactly without collisions, a hit exactly when the float ratio is at most c, a miss otherwise, so a NaN or +Inf ratio is a miss |
| Tally.RatioEntry | ann/cmd/accuracy/accuracy.go:198-217 | NaN exactly without collisions; otherwise the ratio when it is below 5, and 5 for a larger, infinite or NaN ratio |
| Tally.NaNs | ann/cmd/accuracy/accuracy.go:198 | the NaN entries are at most all entries, and there are none exactly when no entry is NaN |
| Tally.NaNsSnoc | ann/cmd/accuracy/accuracy.go:198 | appending an entry adds one NaN exactly when it is NaN |
| Tally.NextFiles | ann/cmd/accuracy/accuracy.go:193-228 | recording a query, for any float ratios including NaN and the infinities, bumps exactly the counter of its verdict, appends its ratio entry, its ideal ratio, table and answer (-1 without collisions), counts the ideal answer exactly when its ratio is at most c, and keeps the bookkeeping consistent |
| Tally.RatioOfDistances | ann/cmd/accuracy/accuracy.go:206-219 | with a zero best distance the ratio is NaN or +Inf, its entry 5 and the query a miss; with a positive one it is the real quotient and a hit exactly when that is at most c |
| Tally.ThreadRes.constructor | ann/cmd/accuracy/accuracy.go:40-53 | all counters zero and all lists empty |
| Tally.ThreadRes.Record | ann/cmd/accuracy/accuracy.go:193-228 | the worker body for one query, in place, with both ratios the float quotients of the distances by the best distance |
| Tally.ThreadRes.RecordNeither | ann/cmd/accuracy/accuracy.go:195-200 | neither bumped, NaN and -1 appended |
| Tally.ThreadRes.RecordAnswer | ann/cmd/accuracy/accuracy.go:202-228 | the answer and capped ratio appended, the ideal ratio appended as it is and counted when at most c, hit or miss with its radius by the ratio, NaN and +Inf being misses |
| Tally.CountOf | ann/cmd/accuracy/accuracy.go:195-225 | at most one per query, and none exactly when no query has that verdict |
| Tally.CountsPartition | ann/cmd/accuracy/accuracy.go:195-225 | the three verdict counts add up to the number of queries |
| Tally.RecordedCounts | ann/cmd/accuracy/accuracy.go:174-229 | after a worker's section the bookkeeping is consistent, holds one entry per query, and each counter is the number of queries with its verdict |
| Tally.RecordAll | ann/cmd/accuracy/accuracy.go:174-229 | the worker's loop records its queries in order |
| Neighbors.Initial | ann/cmd/parameters/mean_and_std.go:246-259 | four slices of the given size |
| Neighbors.StepEntry | ann/cmd/parameters/mean_and_std.go:261-273 | an offer touches only its own point; there the closest distance and neighbour change exactly on a strictly smaller distance and the farthest exactly on a strictly larger one |
| Neighbors.RunExtremes | ann/cmd/parameters/mean_and_std.go:261-273 | after any offers, a point's closest distance is at most its start and every distance offered for it, and is its start or one of those offers with that offer's neighbour; the farthest likewise with the order reversed |
| Neighbors.Neighbors.constructor | ann/cmd/parameters/mean_and_std.go:246-259 | no neighbour (-1) yet, closest distances at math.MaxFloat64, farthest at 0 |
| Neighbors.Neighbors.CheckAndUpdate | ann/cmd/parameters/mean_and_std.go:261-273 | the table after one offer, in place |
| Neighbors.Neighbors.CheckAll | ann/cmd/parameters/mean_and_std.go:187-206 | the table after the offers in order |
| Results.Split | ann/cmd/accuracy/res.py:12 | str.split on one character yields at least one piece |
| Results.SplitJoin | ann/cmd/accuracy/res.py:12-21 | joining the pieces of a split gives the string back, and no piece holds the separator |
| Results.Remove | ann/cmd/accuracy/res.py:15-24 | str.replace(c, "") is no longer than its input |
| Results.RemoveExactly | ann/cmd/accuracy/res.py:15-24 | replace drops exactly the c's and keeps every other character with its count |
| Results.LeadingSpaces | ann/cmd/accuracy/res.py:17-25 | the stripped prefix is all whitespace and stops at a non-whitespace character |
| Results.TrailingSpaces | ann/cmd/accuracy/res.py:17-25 | the stripped suffix is all whitespace and stops at a non-whitespace character |
| Results.StripSlice | ann/cmd/accuracy/res.py:17-25 | strip() returns a slice of its input with only whitespace outside it, neither starting nor ending with whitespace |
| Results.BuildSucceeds | ann/cmd/accuracy/res.py:14-17 | ReadDic raises exactly when some token has no ':' |
| Results.BuildKeys | ann/cmd/accuracy/res.py:14-17 | the dictionary's keys are exactly the tokens' stripped keys |
| Results.BuildLastWins | ann/cmd/accuracy/res.py:17 | a key maps to the value of the last token carrying it |
| Results.ReadDic | ann/cmd/accuracy/res.py:11-18 | the loop builds the dictionary of the space-separated tokens, or raises |
| Results.DicNonEmpty | ann/cmd/accuracy/res.py:11-18 | a dictionary read from a line is never empty, so `not cur` is false once cur is set |
| Results.KeepValues | ann/cmd/accuracy/res.py:20-28 | ReadArr raises exactly when some token is not a number, and otherwise returns the values with exactly the zeros dropped |
| Results.NonZerosMembers | ann/cmd/accuracy/res.py:26-27 | the kept values are exactly the non-zero ones |
| Results.ReadArr | ann/cmd/accuracy/res.py:20-28 | the loop computes what ReadArr returns |
| Results.Positives | ann/cmd/accuracy/res.py:49 | only positive values are kept, never more than given |
| Results.HitsLines | ann/cmd/accuracy/res.py:44 | the number of lines starting with "Hits" is at most the number of lines |
| Results.GatheredShape | ann/cmd/accuracy/res.py:37-50 | distances are positive and no more than r; one hit rate per `Hits` line; the configuration is empty exactly when no `{` line was read |
| Results.CurIsFirst | ann/cmd/accuracy/res.py:38-43 | the configuration is the dictionary of the first `{` line; later ones only give a message |
| Results.GatherFailurePersists | ann/cmd/accuracy/res.py:31-61 | once a line raises, the rest of the file does not matter and nothing more is printed |
| Results.RaisedKeepsMessages | ann/cmd/accuracy/res.py:37-46 | a line that raises ends the file with exactly the messages printed for the lines before it |
| Results.ReadConfig | ann/cmd/accuracy/res.py:38-43 | the `{` test on one line |
| Results.ReadHits | ann/cmd/accuracy/res.py:44-46 | the `Hits` test on one line: an IndexError without ':' |
| Results.ReadDistances | ann/cmd/accuracy/res.py:47-50 | the `[` test on one line |
| Results.GatherFile | ann/cmd/accuracy/res.py:37-50 | the loop over a file's lines computes what the lines gather, or the exception together with the messages already printed |
| Results.InsertPermutes | ann/cmd/accuracy/res.py:52 | inserting adds x and keeps every other element |
| Results.SortPermutes | ann/cmd/accuracy/res.py:52 | sort only rearranges |
| Results.InsertFrom | ann/cmd/accuracy/res.py:52 | every inserted element is x or from the list |
| Results.InsertSorted | ann/cmd/accuracy/res.py:52 | inserting a positive value into sorted positive values keeps them sorted |
| Results.SortSorted | ann/cmd/accuracy/res.py:52 | the sorted distances are in order and positive |
| Results.CentileIndexInBounds | ann/cmd/accuracy/res.py:54-55 | whenever the script indexes the distances, int(0.95 r - 1) is in bounds and not negative |
| Results.CentileRank | ann/cmd/accuracy/res.py:52-55 | the centile never raises; it is 0 unless more than 95% of the r values are positive, and then a positive distance with the right number of sorted distances at or below it and at or above it |
| Results.Padded | ann/cmd/accuracy/res.py:57-58 | hits padded with "" to at least three entries, the original ones first |
| Results.Pad | ann/cmd/accuracy/res.py:57-58 | the while loop pads to that |
| Results.Cells | ann/cmd/accuracy/res.py:56 | one cell per column |
| Results.WriteRow | ann/cmd/accuracy/res.py:52-59 | the sort, the centile and the writes of one directory, or the IndexError or KeyError |
| Results.SplitNoSeparator | ann/cmd/accuracy/res.py:56-59 | a string without the separator splits into itself |
| Results.SplitAtFirst | ann/cmd/accuracy/res.py:56-59 | splitting at the first separator |
| Results.JoinAppend | ann/cmd/accuracy/res.py:56-59 | joining two non-empty lists, with the separator between, joins their concatenation |
| Results.SplitJoinFields | ann/cmd/accuracy/res.py:56-59 | splitting a ", "-joined line on ',' gives back the pieces, each but the first after a space |
| Results.RowFields | ann/cmd/accuracy/res.py:56-59 | a row ends with a newline and, when no value holds a comma, has one field per column, the centile and each hit rate; with at most three hit lines as many fields as the header |
| Results.Opened | ann/cmd/accuracy/res.py:30-32 | the number of directories that open is at most the number of directories |
| Results.SummaryHeader | ann/cmd/accuracy/res.py:5-9 | every run has written the header first |
| Results.DirStepAppends | ann/cmd/accuracy/res.py:30-61 | a directory only appends to res.csv |
| Results.SummaryRows | ann/cmd/accuracy/res.py:30-61 | the run completes exactly when every directory that opens goes through, and then res.csv holds the header and one row per such directory |
| Results.DirStepOutcome | ann/cmd/accuracy/res.py:30-61 | one directory: the run goes on exactly when it was going and the directory is skipped or goes through, adding one row when it opened; a file whose lines raise ends the run with its earlier messages printed and no row |
| Results.SummaryStops | ann/cmd/accuracy/res.py:30-61 | once a directory raises anything but IOError, later directories are never reached |
| Results.Summarise | ann/cmd/accuracy/res.py:1-61 | the script's loop over the directories computes the summary, keeping every message printed before an exception ends it |
| PbrSim.OccupiedStep | scripts/pbrsim.py:11-13 | the closed form m(1 - (1 - 1/m)^x) is the occupancy process: zero for no items, and each item adds a bucket with the chance of landing in an empty one |
| PbrSim.PowUnit | scripts/pbrsim.py:12 | powers of a number in [0, 1) stay in [0, 1], below 1 for a positive exponent |
| PbrSim.Bernoulli | scripts/pbrsim.py:12 | (1 - t)^e is at least 1 - e t |
| PbrSim.PbrSuccessBounds | scripts/pbrsim.py:11-13 | pbr_success(x, m) is a fraction in (0, 1] for positive x and m, and 1 for a batch of one |
| PbrSim.HashedBuckets | scripts/pbrsim.py:16-21 | each bucket holds exactly the weight of the items drawn into it |
| PbrSim.SumUpdate | scripts/pbrsim.py:20 | adding v to one bucket adds v to the total |
| PbrSim.HashedTotal | scripts/pbrsim.py:16-21 | hashing neither loses nor adds weight |
| PbrSim.RandomHash | scripts/pbrsim.py:16-21 | counts is the bucket totals for the drawn buckets, and y_buckets is the draws |
| PbrSim.NonzeroUpdate | scripts/pbrsim.py:36 | count_nonzero changes by one exactly when one entry moves between zero and non-zero |
| PbrSim.UnitOccupancy | scripts/pbrsim.py:34-36 | with unit weights the counts are non-negative, at most one bucket per item is non-empty, and some bucket is once there is an item |
| PbrSim.TrialRaises | scripts/pbrsim.py:36-41 | a trial raises ZeroDivisionError exactly when the factor is not 1 and every bucket is occupied, which needs no more buckets than items |
| PbrSim.RaisesJustAboveOne | scripts/pbrsim.py:36-41 | factor 1.25 with two items leaves two buckets, and draws 0 and 1 make the trial raise |
| PbrSim.TrialSuccessBounds | scripts/pbrsim.py:34-41 | a trial does not raise and its success is a fraction in (0, 1] for factor 1 or more buckets than items; for factor 1 the share of occupied buckets |
| PbrSim.SuccessAtOne | scripts/pbrsim.py:38-39 | for factor 1, success is 1 - num_empty / n, the share of occupied buckets, in (0, 1] |
| PbrSim.SuccessAbove | scripts/pbrsim.py:40-41 | for more buckets than items, num_empty is at least k - n, so the division does not raise and the quotient is in (0, 1] |
| PbrSim.TotalBounds | scripts/pbrsim.py:43 | successes in (0, 1] add up to a total between 0 and their number |
| PbrSim.MeanBounds | scripts/pbrsim.py:46 | the mean of successes in (0, 1] is in (0, 1] |
| PbrSim.Trial | scripts/pbrsim.py:34-44 | one trial computes its success from the draws, or raises when the divisor num_empty is 0 |
| PbrSim.Experiment | scripts/pbrsim.py:28-46 | it raises exactly when some trial does, at the first such trial with all_trials holding the earlier successes; otherwise all_trials holds each trial's success and the expected fraction is their mean |
| PbrSim.ExperimentBounds | scripts/pbrsim.py:26-46 | no factor the script tries raises in any trial, and each gives an expected fraction in (0, 1] |
| PbrSim.Probabilities | scripts/pbrsim.py:24-49 | the script does not raise, and probs holds the mean success of every factor, each in (0, 1] |

## Left out

- Network and RPC plumbing: the client, the server binaries, sessions and the fan-out in `server.PrivateANNQuery` are outside the modelled core.
- Concurrency: the worker goroutines of `HashTable.AddAll` and the thread pools and locks of the accuracy and parameter tools. `CheckAndUpdate` and the accuracy worker are modelled sequentially, one worker at a time.
- Floating-point rounding: the D8, E8 and Leech decoders, `DistSquared`, `Project`, `hash/randomness.go` and the normal and geometric sequences. The lattice decoder and prober are function parameters of the multi-lattice hash. Other floats are exact reals, and 0.95 in `res.py` is taken exactly.
- OpenSSL AES in `dpfPRG` and `getRandomBlock`: the PRG is a function parameter and the random root seeds are inputs. Every DPF property holds for any PRG.
- The cgo wrappers `pir/dpfc/wrapper.go` and `pir/dpfc/dpf.go`: they are foreign-call glue whose signatures do not match `dpf.h`.
- Randomness (`rand.Intn`, `rand.Perm`, `RandomFieldElement`, `crypto/rand`, `np.random.choice`): each is an input. Results are stated for every value the input can take.
- Go's map iteration order: it is an input (`order` in `convertAndCap`). `Merge` visits keys in an arbitrary order, and its result does not depend on it.
- Plotting and file I/O: the plot scripts, `histPlot`, the dataset readers, `ReadTrainingTestData`, `test.py`, and the std and error-bar computations of `pbrsim.py` and `accuracy.go`. File contents and directory listings are inputs of the `res.py` model.
- Python's `float()` and `str()` of a float: both are parameters of the `res.py` model.
- The in-place `distances.sort()` of `res.py`: it is modelled as a function (insertion sort) over the list's value. Aliasing does not arise there.
- `MultiHash` (hash/multilattice_hash.go:113-120): it only composes `MultiProbeHashWithDist` with the universal hash, and the accuracy model takes its output as the input `multiHash`. Its nil slots, which the source would dereference, are not modelled.
- `ComputeHashes`, `HashTable.AddAll` and the `sort.Sort` call on `Candidates`: they are callers of the modelled helpers and need randomness, floats or goroutines. `Candidates.Less` is modelled as a predicate and has no contract to state.
- The inconsistent call sites (`cmd/server/main.go` and `client/client.go` against `ann/pbr.go`, `ann/construct.go` and `pir/query.go`): the definitions are modelled, not the callers.
- LatticeTables: coordinates are unbounded integers, not `int8`. The sums of table rows formed by `Precompute` stay far inside the `int8` range for these tables, but the model does not prove it.
- LatticeTables.Tables.Precompute: `ok` states exactly when 4096 rows are written (where the source does not panic). The model does not prove that this always happens for the shipped tables.
- Partition.FindBucketCorrect: requires max % numBuckets ≤ Size. The source's ±1 correction only covers that case, and `FindBucketNeedsSmallRemainder` shows a hash reported in the wrong bucket without it. `ComputeProbes` partitions the universal hash's range below Prime into fewer than 2^32 buckets, where it holds (`ProbeBucketsExact`).
- UniversalHash.NewUniversalHash: the source samples until it has dim + 1 words below Prime. The model takes a finite list of draws and requires enough of them to be accepted.
- SearchQueue.DistanceSearchQueue.Search: the heap is a sequence from which `Pop` removes some element of least distance, so heap layout and tie-breaking are not modelled. Completeness and the "none left out is closer" property are stated when every source is at most `length` long, where ids are injective.
- SearchQueue.ElementId: ids are unbounded integers, not Go's 64-bit `int`, which wraps once length^|sources| reaches 2^63. `IdInjective` relies on this. The caller in hash/multilattice_hash.go:98 uses `probes` as the base and one source per lattice copy, so it stays in range while probes^copies < 2^63. The test uses base 100 with three sources.
- Dpf.FullDomainDpf: requires size ≤ 29, so that every `int` index of the C tree fits in 32 bits.
- Dpf.BatchEvalDpf: requires 12 ≤ size < 76, because the C shift `in[l] >> (size - 12)` on a 64-bit word is undefined outside that range.
- Database.Database.ExpandSharedQuery: requires start, stop and the keywords to be in range, standing for the index-out-of-range panics of pir/db.go:131 and 138. The batch queries model the same panics as `None`.
- Database.Database.PrivateSecretSharedQueryWithExpandedBits: requires the rows and bits to cover [start, stop), standing for the index-out-of-range panic of pir/db.go:109.
- Database.Database.PrivateSecretSharedQuery: requires DBSize rows of data and, for a keyword query, DBSize keywords, standing for the same panics.
- Partition.FindBucket: requires `p.size > 0`, because `hash / p.Size` panics on a zero Size.
- Construct.ConvertAndCap: requires every bucket to be non-empty, because `v[0]` panics on an empty one.
- MultiLattice.MultiProbeHashWithDist: requires every copy to have at least one candidate, and a lattice point for each distance. The search's base element indexes each source's first candidate.
- Accuracy.SimulateQuery: requires at least `probes` hashes per table, and every hash to map to a partition index, because `cache[i][:probes]` and `bucketsUsed[bucket]` panic otherwise.
- PbrSim.PbrSuccessBounds: it is stated for positive x and m. `pbr_success` divides by both.

## Findings

| source | as written | input that shows it | evidently intended | confidence | as-written member | corrected member |
|---|---|---|---|---|---|---|
| pir/db.go:88-92 | the batch query expands each bucket's bits at absolute row positions but reads them relative to the bucket's start | data [5, 7], buckets [0,1) and [1,2), index query of row 1: bucket 1 recovers 0, not 7 | read the bits at the rows' own positions, so the bucket holding q recovers Data[q] | not executed | Database.BatchAnswerAsWrittenLosesRow | Database.BatchAnswerRecovers |
| ann/pbr.go:66-73 | the division scan advances at most one bucket per key and never sets the stops of buckets after the last key's | keys [0, 3], 3 buckets, hashKeyBits 2: starts [0,1,0], stops [1,0,2]; keys [0], 2 buckets, hashKeyBits 2: starts [0,0], stops [0,1] | close every bucket whose upper bound the key has passed, so the runs partition the sorted keys by bucket | not executed | Partition.DivisionsAsWrittenSkipOneBucketOnly | Partition.DivisionsPartition |
