# MASS core, modelled in Dafny

This project models the parts of the MASS full node whose correctness the rest of the node leans on,
and proves what they promise, for all inputs, runs and reachable states. `dafny verify dfyconfig.toml`
checks everything.

| component | modules |
|---|---|
| secp256k1 arithmetic (`pocec/`) | `Congruence`, `Limbs`, `LimbProduct`, `Field`, `BigEndian`, `FieldBytes`, `FieldPower`, `Curve`, `CurveGroup`, `JacobianFormulas`, `Jacobian`, `JacobianAdd`, `Naf`, `Scalar`, `ScalarMult`, `BasePoints`, `PubKey`, `Endomorphism` |
| Merkle trie (`trie/`) | `HexKey`, `ProtoWire`, `TrieNode`, `TrieTree`, `TrieLaws`, `TrieUnique`, `Merkle`, `TrieMemory`, `Hasher`, `Committer`, `TrieUpdate`, `MerkleTrie`, `StackTrie` |
| chain selection and the transaction store | `BlockTree`, `Reorganize`, `Ledger`, `TxStore`, `TxLookup` |
| money | `Worth`, `Money`, `BlockMoney`, `Conservation`, `Reward`, `Supply`, `Coinbase` |
| binding state | `Binding`, `BindingLaws` |
| schedulers and pools | `TxSelect`, `TxRelease`, `ScriptPool`, `Mempool` |
| shared | `Wrappers`, `MachineTypes`, `Hashes` |

## Main results

- **Field and curve.** On every operand of magnitude at most 8 the ten-word multiplication and squaring
  give the product modulo p with no 32- or 64-bit wrap (`Field.Mul2`, `Field.SquareVal`). All addition
  and doubling routines represent the chord-and-tangent result, with outputs that may alias inputs
  (`JacobianAdd.AddJacobian`, `Jacobian.DoubleJacobian`). `ScalarMult.ScalarMult` gives k times P for a
  scalar of any length, through the endomorphism split, the non-adjacent form and the interleaved loop,
  and `BasePoints.BaseMult` gives k times the base point from the table that the generator builds.
- **Tries.** The contents determine the trie and its root, whatever the history
  (`MerkleTrie.ContentsDecide`). Marshalling writes the canonical one of all the byte strings that read
  back (`ProtoWire.MarshalUnmarshal`). The hasher, the committer and the decoder agree on every node
  (`Hasher.HashMeans`, `Committer.CommitNode`, `TrieMemory.Reload`). The streaming trie gives the root of
  the ordinary one (`StackTrie.StackRoot`, `StackTrie.SameRoot`).
- **Chain.** Whatever blocks arrive in whatever order, the best node has the largest capacity, then the
  earliest time, the best quality and the smallest hash (`BlockTree.BlockTree.BestIsHeaviest`), the main
  chain is exactly its ancestors, capacities are sums from the root, and a reorganisation never meets a
  failing tip test (`Reorganize.Run`, `Reorganize.Blockchain.ReorganizeChain`). Looking up transactions
  by undoing and redoing blocks shows what replaying shows (`TxLookup.FetchTxStore`).
- **Money.** The checks on a block pass exactly the blocks that are in order (`Conservation.CheckConnectBlock`).
  Along every chain of accepted blocks the unspent total grows by at most the rewards, and the rewards add
  up to at most the supply cap, which the undivided subsidies reach exactly across the change of schedule
  (`Conservation.ChainConserves`, `Reward.SumIsCap`, `Supply.SupplyWithinCap`). A coinbase that is built is
  accepted exactly under a stated condition (`Coinbase.BuiltPasses`).
- **Binding.** The index and the block template end in the same trie (`BindingLaws.IndexedAsBuilt`). For
  every block that can be applied, the trial of a reorganisation reaches that state if and only if no
  new-style binding is spent (`BindingLaws.ConnectAgrees`, `BindingLaws.ConnectsAsBuilt`). The entry of a
  pool is always that of the last payload that took effect (`BindingLaws.PoolsAfter`).
- **Schedulers and pools.** The template loop ends and keeps parents first (`TxSelect.SelectTxs`); who waits
  is released, queued twice, lost or chosen exactly as `TxRelease` says. The pool
  of script checkers answers correctly in every interleaving and always winds down
  (`ScriptPool.RunEnds`), and the memory pool removes exactly a transaction and all that relies on it
  (`Mempool.TxPool.RemoveTransaction`).

## Hypotheses

The results name what they take from outside the code.

- `FieldPower.Fermat`: Fermat's little theorem for the prime. `CurveGroup.Associative`: associativity of
  the group law. `Scalar.CurveFacts`: the order of the points, and that the endomorphism multiplies by
  lambda. These are predicates in `requires` clauses, and only where they are used.
- `Merkle.SHA3` is an arbitrary function to 32 bytes. Only `MerkleTrie.Trie.Commit` and the committer below
  it need that the byte strings at hand have different hashes (`Committer.Apart`).
- `Ledger.TxFits` and `Conservation.Sane` include that no transaction refers to its own hash, and
  `Mempool.Acyclic` that no pooled transaction relies on itself: both would be cycles of hashes.

## Where the code falls short of a promise

- A compressed public key is not checked for an abscissa below p: `PubKey.UnreducedAbscissa` shows one that
  is accepted, `PubKey.ReducedAbscissa` says exactly when the result is an ordinary key.
- `connectState` ignores spent inputs: `BindingLaws.SpentStaysBound` is an example, `BindingLaws.ConnectAgrees`
  the exact condition, and `BindingLaws.ConnectsAsBuilt` what it means for a reorganisation.
- A transaction with two inputs from one pooled transaction can be released twice by the template loop:
  `TxSelect.TwiceInBlock` is an example. `TxRelease.TakenReleases` is the exact condition: it is queued as
  often as the transaction it waits for last occurs among its inputs.
- A transaction that goes back to the queue when the order changes loses those who wait for it:
  `TxRelease.PutBackExample` is an example. They are released exactly if the transaction is taken the first
  time (`TxRelease.TakenIff`, `TxRelease.TakenReleases`), and if it is put back they are never chosen, even
  if it is (`TxRelease.PutBackLoses`, `TxRelease.LostForever`).
- A coinbase that ends before the staking rewards do makes `checkCoinbase` index out of range:
  `Coinbase.PanicExample` is an example, and the contract of `Coinbase.CheckCoinbase` the exact condition.
- A built coinbase can be refused. `Coinbase.BuiltPasses` is the exact condition. `Coinbase.TooManyFees` is an
  example where the reward and the fees together are no amount. `Coinbase.NoWeights` is one where the block
  mints nothing and the weights are all zero; the ranking of `database/sort.go` does not give this, as a
  stake and its period are positive.
- A block whose coinbase refers to a transaction of the block that another one spends is refused, though it
  fits: `Conservation.ClashFits` is an example, and `Conservation.ApartUpTo` in the contract of
  `Conservation.CheckConnectBlock` the exact condition.
- A pool can lose the possibility to change its coinbase, because the sum in the test of the nonce wraps:
  `BindingLaws.FrozenAtOnce` is an example, `BindingLaws.CanFollow` the exact condition.
- `compactToHex` accepts strings that `hexToCompact` never makes: `HexKey.LooseByte` is an example,
  `HexKey.CompactExpand` the exact condition.

## Model

| member | source | states |
|---|---|---|
| `Limbs.CompactUnique` | pocec/field.go:465-475 | two carried word vectors have the same value exactly if they are the same words |
| `Limbs.NormalUnique` | pocec/field.go:465-475 | normalized words decide field equality |
| `LimbProduct.MulColumns` | pocec/field.go:640-815 | the 19 column sums weigh to the product of the values and leave room for every carry in 64 bits |
| `LimbProduct.SquareColumns` | pocec/field.go:920-1048 | the doubled products are the columns of multiplying by itself |
| `LimbProduct.CarryColumns` | pocec/field.go:640-815 | carrying the columns into digits keeps the value, without wrap-around |
| `LimbProduct.FoldHigh` | pocec/field.go:845-865 | folding the digits above 2^260 by 68719492368, with the carries, keeps that weighted value |
| `LimbProduct.FoldOverflow` | pocec/field.go:881-894 | folding what is above 2^256 leaves a value of magnitude 1, with the slack in word 2 |
| `LimbProduct.FoldsAreCongruent` | pocec/field.go:820-843 | both folds together change the value by a multiple of the prime |
| `LimbProduct.ReduceColumns` | pocec/field.go:817-894 | the shared tail gives magnitude 1 and the residue of the columns |
| `Field.Mul2` | pocec/field.go:635-895 | product of factors of magnitude at most 8: magnitude 1, right residue, no wrap |
| `Field.SquareVal` | pocec/field.go:915-1128 | the same for squaring, so it agrees with the product by itself |
| `Field.CarryPass` | pocec/field.go:292-313 | the first pass subtracts the right multiple of the prime and carries every word |
| `Field.AddComplement` | pocec/field.go:348-367 | the final pass adds the complement and drops a multiple of 2^256 |
| `Field.NormalizedValue` | pocec/field.go:315-348 | the two passes together give the residue in [0, p) |
| `Field.Normalize` | pocec/field.go:262-381 | the unique representation in [0, p) of the residue, for every vector within the overflow budget |
| `Field.NormalTests` | pocec/field.go:444-475 | on normalized values `Equals`, `IsZero` and `IsOdd` decide equality, zero and parity of the residue |
| `Field.NegateVal` | pocec/field.go:482-513 | the negated residue, at magnitude plus one, without underflow of a word |
| `Field.Add2` | pocec/field.go:567-584 | the sum of the residues; magnitudes add |
| `Field.AddInt` | pocec/field.go:530-537 | adds a small integer to the residue |
| `Field.MulInt` | pocec/field.go:593-613 | a small multiple of the residue; the magnitude is multiplied |
| `BigEndian.Padded` | pocec/pubkey.go:189-194 | a number padded to k bytes has k bytes and the same value |
| `BigEndian.Injective` | pocec/pubkey.go:189-194 | byte strings of one length are determined by their number |
| `FieldBytes.SetBytes` | pocec/field.go:202-227 | the words hold the number of the 32 bytes, with every word in range |
| `FieldBytes.PutBytes` | pocec/field.go:391-428 | the 32 bytes hold the number of the words |
| `FieldBytes.PutThenSet` | pocec/field.go:202-428 | packing after unpacking gives the same words |
| `FieldPower.Inverse` | pocec/field.go:1135-1237 | the addition chain computes exactly the power p-2 |
| `FieldPower.SqrtByte` | pocec/field.go:1284-1335 | one byte of the exponent, by the cases of the switch |
| `FieldPower.SqrtVal` | pocec/field.go:1250-1337 | the byte-wise loop computes exactly the power (p+1)/4 |
| `FieldPower.SqrtOfSquare` | pocec/field.go:1240-1337 | the power of a square is one of its two roots |
| `Curve.AddOnCurve` | pocec/pocec.go:461-482 | the curve is closed under chord and tangent |
| `Curve.SameAbscissa` | pocec/pocec.go:154-169 | points with one abscissa are equal or opposite, so infinity is the right answer in that branch |
| `Curve.NotOrigin` | pocec/pocec.go:92-113 | (0, 0) is not on the curve, so it can stand for infinity |
| `JacobianFormulas.DoubleValue` | pocec/pocec.go:489-582 | the doubling polynomials give the tangent point, scaled by powers of 2yz |
| `JacobianFormulas.ChordExact` | pocec/pocec.go:268-413 | the mixed and generic polynomials give the chord point over the common denominator |
| `JacobianFormulas.SameZExact` | pocec/pocec.go:199-260 | the equal-z polynomials give the chord point |
| `Jacobian.DoubleZ1EqualsOne` | pocec/pocec.go:489-533 | the doubling polynomials for z = 1, in place |
| `Jacobian.DoubleGeneric` | pocec/pocec.go:539-582 | the doubling polynomials for any z, in place |
| `Jacobian.DoubleTail` | pocec/pocec.go:513-532 | the tail that both doublings share, with outputs that may alias inputs |
| `Jacobian.DoubledRepresents` | pocec/pocec.go:489-582 | the doubled coordinates represent the doubled point |
| `Jacobian.DoubleJacobian` | pocec/pocec.go:586-607 | for every point of the curve, infinity and y = 0 included, the output represents its double |
| `JacobianAdd.AddZ1AndZ2EqualsOne` | pocec/pocec.go:133-192 | both z = 1: the output represents the sum, operands not overwritten keep their residue |
| `JacobianAdd.AddZ1EqualsZ2` | pocec/pocec.go:199-260 | equal z: the output represents the sum |
| `JacobianAdd.AddZ2EqualsOne` | pocec/pocec.go:268-338 | second z = 1: the output represents the sum |
| `JacobianAdd.AddGeneric` | pocec/pocec.go:344-413 | any z: the output represents the sum |
| `JacobianAdd.ChordOfOnes` | pocec/pocec.go:171-191 | the formulas for both z = 1, on normalized operands |
| `JacobianAdd.ChordOfSameZ` | pocec/pocec.go:238-259 | the formulas for equal z |
| `JacobianAdd.ChordOfMixed` | pocec/pocec.go:313-337 | the formulas for second z = 1 |
| `JacobianAdd.ChordOfGeneric` | pocec/pocec.go:389-412 | the formulas for any z |
| `JacobianAdd.AddAffine` | pocec/pocec.go:433-456 | the choice of the routine by the z values |
| `JacobianAdd.AddJacobian` | pocec/pocec.go:417-457 | for every pair of points in every z-case, with aliasing, the output represents the chord-and-tangent sum |
| `CurveGroup.AddSame` | pocec/pocec.go:417-457 | the sum does not depend on the representatives of the coordinates |
| `CurveGroup.TimesSum` | pocec/pocec.go:765-865 | multiples of a point add up |
| `CurveGroup.TimesCong` | pocec/pocec.go:673-684 | scalars that agree modulo the order give the same multiple |
| `Naf.NafByte` | pocec/pocec.go:705-755 | eight bits become eight digits, none adjacent, with the right value and carry |
| `Naf.NAF` | pocec/pocec.go:693-761 | the digits are -1, 0, 1, never two non-zero in a row, and positive minus negative is the input |
| `Scalar.VectorsInKernel` | pocec/pocec.go:955-962 | the constants are kernel vectors of determinant N, with a2 below 2^129 |
| `Scalar.SplitBound` | pocec/pocec.go:635-668 | with floored quotients both parts stay below a2 in absolute value |
| `Scalar.SplitCong` | pocec/pocec.go:635-668 | k1 + k2 lambda is k modulo N |
| `Scalar.SplitK` | pocec/pocec.go:635-668 | signs and magnitudes of two parts below a2 whose combination is the scalar modulo N |
| `Scalar.ModuloReduce` | pocec/pocec.go:673-684 | the reduced scalar is congruent to the given one |
| `ScalarMult.AddDigit` | pocec/pocec.go:841-847 | one signed digit adds the point, its opposite or nothing |
| `ScalarMult.DigitStep` | pocec/pocec.go:837-856 | one doubling and a digit of both scalars |
| `ScalarMult.ByteLoop` | pocec/pocec.go:837-857 | the inner loop adds the value of eight digits of both scalars |
| `ScalarMult.Interleave` | pocec/pocec.go:820-858 | the double loop accumulates both signed-digit scalars |
| `ScalarMult.OperandPoints` | pocec/pocec.go:773-800 | P and its image under the endomorphism, each with its opposite |
| `ScalarMult.OperandMultiples` | pocec/pocec.go:773-800 | the operands are multiples of P by plus or minus one and lambda |
| `ScalarMult.FinalScalar` | pocec/pocec.go:771-862 | what the loop has read is congruent to the scalar |
| `ScalarMult.FieldJacobianToBigAffine` | pocec/pocec.go:92-113 | the affine integers of a represented point, (0, 0) for infinity |
| `ScalarMult.SetByteSlice` | pocec/field.go:236-244 | pads at the front to 32 bytes |
| `ScalarMult.ScalarMult` | pocec/pocec.go:765-865 | k times P, for every scalar string and every affine point of the curve, in coordinates of 256 bits |
| `ScalarMult.ScalarBaseMult` | pocec/pocec.go:870-887 | k times the base point, from any window table that holds its multiples |
| `BasePoints.BaseOnCurve` | pocec/pocec.go:930-936 | the base point is on the curve |
| `BasePoints.GetDoublingPoints` | pocec/gensecp256k1.go:26-38 | the 256 doublings of the base point |
| `BasePoints.WindowPoint` | pocec/gensecp256k1.go:57-64 | the sum at the bits of i is i times the window unit, and the doublings keep their meaning |
| `BasePoints.BytePoints` | pocec/gensecp256k1.go:43-79 | the generated table is the one that the base multiplication needs |
| `BasePoints.BaseMult` | pocec/pocec.go:870-887 | k times the base point with the generated table, no table assumed |
| `PubKey.DecompressPoint` | pocec/pubkey.go:27-59 | the root of the wanted parity, exactly if the abscissa has one |
| `PubKey.IsOnCurve` | pocec/pocec.go:118-126 | decides the curve equation for all coordinates of 256 bits |
| `PubKey.ParsePubKey` | pocec/pubkey.go:79-135 | a key is returned exactly for the accepted strings, and it is that key |
| `PubKey.CompressedRoundTrip` | pocec/pubkey.go:79-164 | the compressed form, which starts with 2 or 3 by the parity, is accepted as that key and no other |
| `PubKey.LongRoundTrip` | pocec/pubkey.go:79-176 | the same for the uncompressed form, which starts with 4, and the hybrid form, which starts with 6 or 7 |
| `PubKey.UnreducedAbscissa` | pocec/pubkey.go:115-127 | a compressed string with an abscissa above p is accepted |
| `PubKey.ReducedAbscissa` | pocec/pubkey.go:115-127 | a compressed string gives an ordinary key exactly if its number is below p |
| `Endomorphism.RowDeterminant` | pocec/gensecp256k1.go:109-203 | consecutive rows of the extended Euclid loop have determinant plus or minus n |
| `Endomorphism.NextFacts` | pocec/gensecp256k1.go:128-150 | one round keeps the row equations, the alternating signs and the greatest common divisor |
| `Endomorphism.ShortRow` | pocec/gensecp256k1.go:152-171 | the coefficient is small while the remainder before it is large |
| `Endomorphism.CurveCoprime` | pocec/gensecp256k1.go:116-118 | lambda and the order have no common divisor, and lambda is above the root of the order |
| `Endomorphism.EndomorphismVectors` | pocec/gensecp256k1.go:109-203 | both vectors are in the kernel; they span it if and only if lambda is at least the root and the greatest common divisor is below it; then the first is short |
| `Endomorphism.CurveVectors` | pocec/gensecp256k1.go:109-203 | for the constants of the curve the vectors are a basis of the kernel |
| `HexKey.ExpandCompact` | trie/encoding.go:21-50 | `compactToHex` undoes `hexToCompact` for both parities, with and without terminator |
| `HexKey.CompactExpand` | trie/encoding.go:21-50 | the other direction holds exactly on strings of the compact form |
| `HexKey.CompactShort` | trie/encoding.go:21-36 | the compact form of keys of two and three nibbles, byte by byte |
| `HexKey.LooseByte` | trie/encoding.go:38-50 | a byte that expands, and that compaction never makes |
| `HexKey.CompactInjective` | trie/encoding.go:21-36 | different hex keys have different compact forms |
| `HexKey.DecodeNibbles` | trie/encoding.go:77-81 | pairs of nibbles are packed at their place, the rest of the buffer is untouched |
| `HexKey.HexToCompact` | trie/encoding.go:21-36 | the buffer holds the compact form |
| `HexKey.KeybytesToHex` | trie/encoding.go:52-61 | the buffer holds the nibbles and the terminator |
| `HexKey.HexToCompactInPlace` | trie/encoding.go:104-129 | in place, the front of the buffer holds the compact form |
| `HexKey.PackInPlace` | trie/encoding.go:124-127 | the overlapping loop never overwrites a nibble that is still to be read |
| `HexKey.PrefixLenUnique` | trie/encoding.go:84-95 | only one number is the length of the longest common prefix |
| `HexKey.CommonPrefix` | trie/encoding.go:84-95 | the loop finds it |
| `ProtoWire.UnmarshalMarshal` | trie/pb/trie.proto:4-11 | unmarshalling undoes marshalling for every list of children |
| `ProtoWire.MarshalUnmarshal` | trie/node.go:148-198 | which bytes are written: a string that unmarshals is what marshalling its children gives if and only if it is canonical (type before value, each at most once, nothing zero or empty, shortest numbers), and every canonical string unmarshals |
| `ProtoWire.ValueFirst` | trie/node.go:148-198 | a child with its value before its type reads as the same child and is not what is written |
| `ProtoWire.ChildBytes` | trie/pb/trie.proto:4-7 | the bytes of a child, tags and lengths included |
| `ProtoWire.MarshalLength` | trie/hasher.go:174-184 | every child costs two bytes, so a full node always reaches the size of a hash |
| `TrieLaws.SetSolid` | trie/trie.go:160-227 | `insert` keeps the minimal form |
| `TrieLaws.GetSet` | trie/trie.go:85-227 | reading after an insertion: the new value at its key, the old one elsewhere |
| `TrieLaws.GetBranch` | trie/trie.go:179-195 | what is read from the branch made where two keys part |
| `TrieLaws.RemoveTrie` | trie/trie.go:252-359 | `delete` keeps the minimal form |
| `TrieLaws.GetRemove` | trie/trie.go:85-359 | reading after a deletion: nothing at its key, the old value elsewhere |
| `TrieUnique.Unique` | trie/trie.go:160-359 | two tries in minimal form with the same contents are the same |
| `Merkle.SmallIsLeaf` | trie/hasher.go:174-184 | only a leaf can be small enough to stay inside its parent |
| `Merkle.KidBytes` | trie/node.go:153-178 | the bytes that stand for a child of a full node: the encoded short node with type 2, or the hash with type 0 |
| `Merkle.SlotBytes` | trie/node.go:158-163 | the bytes that stand for a value, or for nothing |
| `Merkle.ExtensionBytes` | trie/node.go:132-146 | the encoding of an extension, byte by byte |
| `Merkle.LeafBytes` | trie/node.go:132-198 | the fifteen bytes that are hashed for the trie with the one key 0x12 and value 7 |
| `TrieMemory.DecodeLeaf` | trie/node.go:201-258 | a short node decodes to itself |
| `TrieMemory.Reload` | trie/node.go:201-258 | what a stored node decodes to denotes the same tree |
| `Hasher.HashMeans` | trie/hasher.go:52-184 | for every trie in memory the hasher gives the hash of the tree's encoding and meets no encoding error |
| `Hasher.Fold` | trie/hasher.go:174-184 | a collapsed node becomes a hash exactly if its encoding is large or it is the root |
| `Committer.StoreNode` | trie/committer.go:207-225 | the bytes written are the encoding that was hashed, under its hash |
| `Committer.CommitNode` | trie/committer.go:66-113 | afterwards every node not kept in its parent is stored, and nothing is lost |
| `Committer.CommitShort` | trie/committer.go:75-93 | the same for a short node |
| `Committer.CommitFull` | trie/committer.go:94-106 | the same for a full node |
| `Committer.CommitChildren` | trie/committer.go:116-144 | the same for the children of a full node |
| `Committer.Agree` | trie/committer.go:207-225 | two stores keyed by hash agree wherever both have an entry |
| `TrieUpdate.Resolves` | trie/trie.go:375-382 | a hash node of a trie always resolves, to a node for the same tree |
| `TrieUpdate.GetNode` | trie/trie.go:85-119 | reads what the tree holds; the loaded nodes denote the same tree |
| `TrieUpdate.InsertNode` | trie/trie.go:160-227 | the new nodes denote the tree with the value inserted; `dirty` is honest |
| `TrieUpdate.SplitShort` | trie/trie.go:179-195 | a short node becomes a branch, with the common prefix in front |
| `TrieUpdate.OnlyChild` | trie/trie.go:301-311 | finds the only child, or that there are none or several |
| `TrieUpdate.ReduceFull` | trie/trie.go:292-334 | a full node with one child left becomes a short node, merged with a short child |
| `TrieUpdate.DeleteNode` | trie/trie.go:252-359 | the new nodes denote the tree with the key removed |
| `TrieUpdate.LeadShort` | trie/trie.go:262-280 | two short nodes in a row are merged |
| `MerkleTrie.ContentsDecide` | trie/trie.go:386-433 | equal contents give equal roots, whatever the history |
| `MerkleTrie.UpdatedAt` | trie/trie.go:141-158 | an update changes what is read at its key and nothing else |
| `MerkleTrie.Trie.constructor` | trie/trie.go:41-56 | a trie opened at a root denotes the stored tree |
| `MerkleTrie.Trie.TryGet` | trie/trie.go:77-83 | returns the value of the tree and keeps it |
| `MerkleTrie.Trie.TryUpdate` | trie/trie.go:141-158 | the tree is updated at the key, an empty value deletes |
| `MerkleTrie.Trie.TryDelete` | trie/trie.go:238-247 | the key is removed |
| `MerkleTrie.Trie.HashRoot` | trie/trie.go:386-390 | the root hash of the tree; all that `Commit` needs is cached |
| `MerkleTrie.Trie.Commit` | trie/trie.go:394-420 | afterwards the database holds the whole trie under its root hash |
| `StackTrie.StackTrie.GetDiffIndex` | trie/stacktrie.go:205-210 | the first index where the key leaves the node's chunk |
| `StackTrie.StackTrie.Insert` | trie/stacktrie.go:214-346 | a larger key is inserted as in the ordinary trie; the path stays open, no hashed node is entered |
| `StackTrie.StackTrie.InsertBranch` | trie/stacktrie.go:216-232 | insertion below a branch, after the elder sibling was hashed |
| `StackTrie.StackTrie.SealElder` | trie/stacktrie.go:219-226 | hashing the nearest elder child changes no contents |
| `StackTrie.StackTrie.InsertExt` | trie/stacktrie.go:233-288 | insertion at an extension |
| `StackTrie.StackTrie.SplitLeaf` | trie/stacktrie.go:289-336 | insertion at a leaf |
| `StackTrie.StackTrie.Split` | trie/stacktrie.go:253-336 | the branch, with a prefix in front, that replaces a leaf or an extension |
| `StackTrie.StackTrie.Seal` | trie/stacktrie.go:360-510 | hashing a node keeps its contents and never panics |
| `StackTrie.StackTrie.SealBranch` | trie/stacktrie.go:371-423 | hashing a branch |
| `StackTrie.StackTrie.SealExt` | trie/stacktrie.go:424-461 | hashing an extension |
| `StackTrie.StackTrie.Finish` | trie/stacktrie.go:492-510 | the node keeps its encoding if short, else its hash |
| `StackTrie.StackTrie.TryUpdate` | trie/stacktrie.go:176-183 | the key in bytes is inserted |
| `StackTrie.StackTrie.HashRoot` | trie/stacktrie.go:513-529 | the root hash of the contents |
| `StackTrie.NewLeaf` | trie/stacktrie.go:148-155 | a leaf for the rest of a key |
| `StackTrie.NewExt` | trie/stacktrie.go:157-164 | an extension over a child |
| `StackTrie.StackRoot` | trie/stacktrie.go:176-529 | for every ascending sequence of keys of one length, the root of the trie with those entries |
| `StackTrie.SameRoot` | trie/stacktrie.go:513-529 | that root is the root of any trie with the same entries |
| `BlockTree.BlockNode.constructor` | blockchain/blocktree.go:45-75 | a new node carries its own target and is not in the main chain |
| `BlockTree.PreferredChain` | blockchain/chain.go:705-738 | preference is a strict order |
| `BlockTree.BlockTree.BestLeads` | blockchain/chain.go:705-738 | no node is preferred to the best one if and only if, in the fields, none has more capacity, none of equal capacity is earlier, none as early has a better quality, and none as good has a smaller hash |
| `BlockTree.BlockTree.BestIsHeaviest` | blockchain/chain.go:705-738 | the best node ends the chain with the largest sum of targets, and beats every other node by target sum, time, quality and hash, in this order |
| `BlockTree.BlockTree.SetRoot` | blockchain/blocktree.go:213-225 | a root is set once; then the tree is valid |
| `BlockTree.BlockTree.Attach` | blockchain/blocktree.go:252-266 | attaches below a known parent and adds its capacity, else changes nothing |
| `BlockTree.BlockTree.AttachNew` | blockchain/blocktree.go:252-266 | a new node keeps the tree linked and its children listed once |
| `BlockTree.BlockTree.CapSumIsTargetSum` | blockchain/blocktree.go:252-266 | the capacity of a node is the sum of targets from the root |
| `BlockTree.BlockTree.MarkedAreAncestors` | blockchain/chain.go:387-456 | the main-chain mark is on exactly the best node and its ancestors |
| `Reorganize.GetReorganizeNodes` | blockchain/chain.go:217-248 | the lists lead down from the best node and up to the given one, and meet at a node of the main chain |
| `Reorganize.NeitherEmpty` | blockchain/chain.go:475-500 | when a node is preferred to a best node it does not extend, neither list is empty |
| `Reorganize.AttachList` | blockchain/chain.go:229-235 | the first loop |
| `Reorganize.DetachList` | blockchain/chain.go:240-245 | the second loop |
| `Reorganize.Blockchain.ConnectBlock` | blockchain/chain.go:317-417 | the tip test decides, and the node becomes the marked tip |
| `Reorganize.Blockchain.DisconnectBlock` | blockchain/chain.go:427-456 | the tip test decides, and the parent becomes the tip |
| `Reorganize.Blockchain.TakeTip` | blockchain/chain.go:427-456 | taking off the tip keeps one chain; the test passes |
| `Reorganize.Blockchain.PutTip` | blockchain/chain.go:317-417 | putting on a tip keeps one chain; the test passes |
| `Reorganize.Blockchain.ReorganizeChain` | blockchain/chain.go:475-569 | the lists always pass the tip tests, and end at the new best node with one main chain |
| `Reorganize.Blockchain.Extend` | blockchain/chain.go:573-611 | a block on the tip keeps the tree valid and becomes the best |
| `Reorganize.Blockchain.AddSide` | blockchain/chain.go:612-668 | a block on a side chain changes neither best node nor marks |
| `Reorganize.Blockchain.Switch` | blockchain/chain.go:672-700 | a preferred node becomes the best, by lists that are not empty, and the tree is valid |
| `Reorganize.Blockchain.ConnectBestChain` | blockchain/chain.go:571-701 | the node becomes the best exactly if it extends the best chain or its capacity, time, quality and hash are ahead, and afterwards no node leads the best one in these fields |
| `Reorganize.Blockchain.ProcessBlock` | blockchain/process.go:106-217 | a block keeps the tree valid; one that is known or does not connect changes nothing, one that passes is in the tree, and becomes the best exactly if its header extends or is ahead |
| `Reorganize.Run` | blockchain/process.go:106-217 | every run of arriving blocks keeps the tree valid, and no node ahead of the best one in capacity, time, quality and hash |
| `Reorganize.Ancestor` | blockchain/blocktree.go:81-92 | the ancestor of the given height, exactly if there is one |
| `Ledger.UnmarkAll` | blockchain/txlookup.go:35-123 | unspending the same outputs in the same order restores the view |
| `Ledger.BeforeOwn` | blockchain/txlookup.go:35-69 | the other transactions of a block do not replace an older version |
| `Ledger.UndoApply` | blockchain/txlookup.go:74-123 | taking off a transaction that fits restores the view before it |
| `TxStore.Store.MarkInputs` | blockchain/txlookup.go:55-66 | the loop over the inputs marks what the view marks |
| `TxStore.Store.ConnectTransactions` | blockchain/txlookup.go:35-69 | on a block that fits there is no error and the store follows the view |
| `TxStore.Store.ConnectTx` | blockchain/txlookup.go:38-66 | one transaction |
| `TxStore.Store.DisconnectTransactions` | blockchain/txlookup.go:74-123 | from the view after a block back to the view before it |
| `TxStore.Store.DisconnectTx` | blockchain/txlookup.go:78-120 | one transaction |
| `TxLookup.LastBeforeIs` | database/ldb/tx.go:99-136 | the search finds the version that replaying the lower blocks gives |
| `TxLookup.LastBeforeCut` | database/ldb/tx.go:99-136 | blocks at and above the height do not matter |
| `TxLookup.FetchTxStoreMain` | blockchain/txlookup.go:129-181 | every requested transaction is shown as replaying the main chain shows it; one with nothing left to spend is missing unless asked for |
| `TxLookup.UndoAll` | blockchain/txlookup.go:209-232 | undoing the topmost blocks shows the view below them |
| `TxLookup.RedoAll` | blockchain/txlookup.go:234-256 | redoing side blocks shows the view above them |
| `TxLookup.FetchTxStore` | blockchain/txlookup.go:190-259 | for every node of a tree of valid blocks the store shows what replaying to its parent shows |
| `Worth.TotalAt` | blockchain/validate.go:887-989 | the total of the unspent outputs can be taken apart at any transaction |
| `Worth.TxTotal` | blockchain/validate.go:887-989 | a transaction lowers the total by its fee, a coinbase raises it by its outputs |
| `Worth.TxsTotal` | blockchain/validate.go:1053-1082 | a block raises the total by its coinbase less its fees |
| `Money.CheckInput` | blockchain/validate.go:901-956 | on a store that shows what is unspent, an input passes if and only if it is unspent, old enough if of a coinbase, and its value and the new total are amounts; it is counted once |
| `Money.AddOutputs` | blockchain/validate.go:962-986 | the sum of the outputs, exactly if every partial sum is an amount |
| `Money.CheckTransactionInputs` | blockchain/validate.go:887-989 | on such a store, it succeeds if and only if every input is unspent when its turn comes, none is of a young coinbase, all values are amounts and no more goes out than in; the fee is inputs less outputs |
| `BlockMoney.IndexTxs` | blockchain/txlookup.go:268-272 | the last index of every hash in the block |
| `BlockMoney.SortTx` | blockchain/txlookup.go:286-322 | the inputs of one transaction: in flight from earlier in the block, or needed from the chain |
| `BlockMoney.SortInputs` | blockchain/txlookup.go:279-324 | the same for the block |
| `BlockMoney.FetchInputTransactions` | blockchain/txlookup.go:264-330 | every entry is from the view before the block or from a transaction of it used by later ones only; all inputs have an entry; that of a transaction of the block is the transaction, unless an earlier one refers to it |
| `BlockMoney.CheckDupTx` | blockchain/validate.go:790-826 | passes exactly if no transaction replaces one with unspent outputs |
| `Conservation.CheckAllInputs` | blockchain/validate.go:1053-1082 | succeeds if and only if all transactions are in order: the block fits, spends from no young coinbase and from nothing that its coinbase refers to, and all values are amounts; the result is the sum of the fees |
| `Conservation.TrackNext` | blockchain/validate.go:1053-1082 | the marks in the store follow the view from transaction to transaction |
| `Conservation.MirrorNext` | blockchain/validate.go:1053-1082 | the store goes on showing all that can be spent, from transaction to transaction |
| `Conservation.CheckConnectBlock` | blockchain/validate.go:991-1095 | passes if and only if nothing unspent is replaced, all transactions are in order, and the coinbase pays amounts, at most reward and fees, which are an amount |
| `Conservation.ClashFits` | blockchain/txlookup.go:286-322 | a block that fits and is refused, because its coinbase refers to a transaction of the block that another one spends |
| `Conservation.SpentStays` | blockchain/validate.go:790-826 | a spent transaction stays spent until replaced, so a test before the block is enough |
| `Conservation.BlockConserves` | blockchain/validate_coinbase.go:127-156 | an accepted block raises the total by coinbase less fees, at most the reward |
| `Conservation.ChainConserves` | blockchain/validate.go:991-1164 | along a chain the total grows at most by the rewards |
| `Supply.SupplyWithinCap` | consensus/params.go:17-22 | in every chain of accepted blocks the money created stays within the supply cap |
| `Reward.CalcRshNum` | blockchain/reward_logic.go:73-84 | the shifting loop computes the logarithm of the period number |
| `Reward.SharesOf` | blockchain/reward_logic.go:40-207 | the shares never exceed the subsidy; when there is none; when they use all of it |
| `Reward.SharesAre` | blockchain/reward_logic.go:86-207 | the share of each side at every height and for every flag: 81.25% or 18.75% for the miner before the warm-up, 18.75% each in it, a tenth for the staking nodes and the rest for the miner after the fork, with the roundings |
| `Reward.ShareExamples` | blockchain/reward_logic.go:40-207 | the shares at heights 1, 1400000 and 2000000 |
| `Reward.HalvedIs` | blockchain/reward_logic.go:56-84 | the subsidy in each period |
| `Reward.AfterFork` | blockchain/reward_logic.go:155-178 | the sums over the moved heights |
| `Reward.AfterAll` | blockchain/reward_logic.go:155-178 | no subsidy after the last period |
| `Reward.SumBefore` | blockchain/reward_logic.go:56-84 | the exact sum before the change of schedule |
| `Reward.SumAfter` | blockchain/reward_logic.go:155-178 | the exact sum after it |
| `Reward.SumIsCap` | blockchain/reward_logic.go:21-178 | all subsidies sum to exactly the supply cap |
| `Reward.SumWithinCap` | blockchain/reward_logic.go:21-178 | up to any height they stay within it |
| `Reward.PaidWithinCap` | blockchain/reward_logic.go:40-207 | whatever the flags at every height, the rewards stay within it |
| `Coinbase.TotalStakingWeight` | consensus/forks/forks.go:22-38 | the sum of the weights, unless it does not fit in 128 bits |
| `Coinbase.StakingWithin` | blockchain/template.go:441-451 | the rounded rewards never exceed what is divided |
| `Coinbase.StakingPaid` | consensus/forks/forks.go:40-45 | each paid node gets its part, rounded down, by value below height 694000 and by weight from there on, to its own script |
| `Coinbase.StakingDecided` | blockchain/template.go:441-451 | for a ranking in descending order the rewards can be computed exactly if the weights are not all zero and the first product fits in 128 bits |
| `Coinbase.PayStaking` | blockchain/template.go:289-322 | the loop pays the ranking up to the first zero, and keeps the sum |
| `Coinbase.StakingStep` | blockchain/template.go:291-322 | one step of the loops over the ranking |
| `Coinbase.Mint` | blockchain/template.go:271-334 | the subtraction never fails; the rest goes to the miner |
| `Coinbase.ReCreateCoinbaseTx` | blockchain/template.go:200-346 | exactly when it succeeds, and that the outputs are the staking rewards and one with all the rest |
| `Coinbase.CheckCoinbase` | blockchain/validate_coinbase.go:239-327 | exactly which coinbases pass, exactly which make the source index out of range, and the reward they may pay |
| `Coinbase.CheckRewards` | blockchain/validate_coinbase.go:264-315 | the loop compares value and script of each reward; out of range exactly if the coinbase ends before the rewards and is right up to there |
| `Coinbase.PanicExample` | blockchain/validate_coinbase.go:281-282 | a coinbase that ends after the first of two rewards |
| `Coinbase.FrontIsAll` | blockchain/validate_coinbase.go:264-315 | the rewards up to the first error are all of them if there is none |
| `Coinbase.CheckTotal` | blockchain/validate_coinbase.go:127-156 | the outputs may not exceed reward and fees |
| `Coinbase.ValidateCoinbase` | blockchain/validate_coinbase.go:127-158 | exactly which coinbases are accepted |
| `Coinbase.BuiltPasses` | blockchain/validate_coinbase.go:127-327 | a built coinbase sums to reward and fees, and is accepted if and only if the weights can be added up and are not all zero and reward and fees together are an amount |
| `Coinbase.TooManyFees` | blockchain/validate_coinbase.go:131-134 | a coinbase that is built and refused for its fees |
| `Coinbase.NoWeights` | blockchain/validate_coinbase.go:271-274 | a coinbase that is built and refused for its weights |
| `Coinbase.AllPaid` | blockchain/template.go:291-322 | with weights in descending order every non-zero reward is paid |
| `Binding.BindingState.PutNetworkBinding` | blockchain/addrindexer.go:414-418 | the total is stored exactly if it changed |
| `Binding.BindingState.SetPoolCoinbase` | blockchain/utils.go:113-150 | stores nonce and coinbase of the payload exactly if its nonce is above the last one by 1 to 5 with no wrap, or the pool is new and the nonce not zero; refuses only zero for a new pool |
| `Binding.BindingState.Spend` | blockchain/addrindexer_massip2.go:11-62 | a spent binding is deleted and taken off the total |
| `Binding.BindingState.Create` | blockchain/addrindexer_massip2.go:64-120 | a new binding is stored and added to the total |
| `Binding.IndexInputs` | blockchain/addrindexer.go:328-378 | the inputs of a transaction, success decided exactly |
| `Binding.IndexOutputs` | blockchain/addrindexer.go:381-400 | the outputs of a transaction, success decided exactly |
| `Binding.IndexBlockAddrs` | blockchain/addrindexer.go:311-418 | succeeds exactly when the block can be applied and its scripts can be read, and applies it |
| `Binding.Update` | blockchain/process.go:283-311 | the closure binds or unbinds a plot |
| `Binding.TemplateInputs` | blockchain/process.go:314-343 | the inputs of a transaction |
| `Binding.TemplateOutputs` | blockchain/process.go:345-361 | the outputs of a transaction |
| `Binding.BuildTemplateState` | blockchain/process.go:270-394 | succeeds exactly when the block can be applied, and applies it |
| `Binding.ConnectOutputs` | blockchain/chain.go:273-291 | the outputs of a transaction, each with the payload once more |
| `Binding.ConnectState` | blockchain/chain.go:250-312 | succeeds exactly when outputs and payloads can be applied and lead to the root in the header |
| `BindingLaws.IndexedAsBuilt` | blockchain/addrindexer.go:311-418 | from one trie the index succeeds exactly where the template does and the scripts can be read, and both end in one trie |
| `BindingLaws.PayloadAgain` | blockchain/utils.go:113-150 | a payload applied again changes nothing |
| `BindingLaws.OutThenPayload` | blockchain/chain.go:273-290 | outputs and payloads commute |
| `BindingLaws.PoolsAfter` | blockchain/utils.go:113-150 | over any run of transactions the entry of a pool changes if and only if some payload follows it, and is then nonce and coinbase of the last payload that took effect |
| `BindingLaws.TxPools` | blockchain/utils.go:113-150 | one transaction sets the entry of its pool if its payload takes effect, and no other entry |
| `BindingLaws.CanFollow` | blockchain/utils.go:129 | some nonce takes effect if and only if the last one is not within the gap of the end of its range |
| `BindingLaws.PoolFrozen` | blockchain/utils.go:129 | a pool whose last nonce is there keeps its coinbase for ever |
| `BindingLaws.FrozenAtOnce` | blockchain/utils.go:129-141 | one payload brings a new pool there |
| `BindingLaws.ConnectSame` | blockchain/chain.go:250-312 | with no new-style binding spent, the trial reaches the state of the other two |
| `BindingLaws.ConnectAgrees` | blockchain/chain.go:250-312 | for every block that can be applied, the trial reaches the same state if and only if none is spent |
| `BindingLaws.ConnectsAsBuilt` | blockchain/chain.go:250-312 | a block with the root that was built for it passes the trial if and only if it spends no new-style binding and its outputs can be read |
| `BindingLaws.SpentStaysBound` | blockchain/chain.go:250-312 | an example where they differ |
| `BindingLaws.TotalIsBound` | blockchain/addrindexer.go:311-418 | after every block the stored total is the sum of the bound amounts, and the bound plots are those of the live outputs |
| `BindingLaws.SpendsDecided` | blockchain/addrindexer_massip2.go:11-62 | a live binding can always be spent; an input is refused exactly if missing or unreadable |
| `BindingLaws.BindsDecided` | blockchain/addrindexer_massip2.go:64-120 | an output binds exactly if its target has 22 bytes, no live output binds it, and the total stays an amount |
| `TxSelect.PopIndex` | blockchain/template.go:85-147 | what is popped has the largest fee rate and among those the largest priority, or the other way round before the order changes |
| `TxSelect.ListTx` | blockchain/template.go:786-808 | a transaction waits for exactly its parents in the pool, and is on their lists as often as it has inputs from them |
| `TxSelect.ListsMean` | blockchain/template.go:786-808 | who is on a list refers to its transaction, and once only if there is one input from each |
| `TxSelect.Prepare` | blockchain/template.go:778-828 | the queue holds those that wait for nothing |
| `TxSelect.ReleaseAll` | blockchain/template.go:945-956 | those that wait for nothing any more go into the queue |
| `TxSelect.Round` | blockchain/template.go:841-957 | one round of the loop |
| `TxSelect.StepOrdered` | blockchain/template.go:841-957 | each round keeps parents first |
| `TxSelect.StepCounted` | blockchain/template.go:853-935 | each round keeps the counters, within the limits |
| `TxSelect.StepOnce` | blockchain/template.go:841-957 | each round keeps everything chosen at most once |
| `TxSelect.StepMeasure` | blockchain/template.go:841-957 | each round uses up part of the queue and the lists |
| `TxSelect.NoWrap` | blockchain/template.go:853-860 | the test for wrap-around is exact |
| `TxSelect.SelectTxs` | blockchain/template.go:725-957 | the loop ends; parents first, fees and sizes are sums within the limits, nothing twice under the stated condition; each round of the run takes a highest entry of the queue |
| `TxSelect.TwiceInBlock` | blockchain/template.go:945-956 | without it a transaction can be in the block twice |
| `TxRelease.ReleaseCount` | blockchain/template.go:945-956 | releasing queues a transaction as often as it is listed if it waited for nothing else, and not otherwise |
| `TxRelease.StepCases` | blockchain/template.go:841-957 | the three outcomes of a round, and when the order changes |
| `TxRelease.TakenIff` | blockchain/template.go:853-935 | a transaction is added exactly under the stated guard |
| `TxRelease.TakenReleases` | blockchain/template.go:945-956 | a taken transaction releases all who wait for it; one is queued as often as its last parent occurs among its inputs, so twice if and only if it occurs twice |
| `TxRelease.StepListing` | blockchain/template.go:841-957 | the lists that are left stay complete |
| `TxRelease.StepWaiting` | blockchain/template.go:841-957 | who is listed waits, who is queued or chosen does not |
| `TxRelease.PutBackLoses` | blockchain/template.go:891-916 | putting a transaction back loses everyone who waits for it |
| `TxRelease.StepLost` | blockchain/template.go:841-957 | who is lost stays lost |
| `TxRelease.LostForever` | blockchain/template.go:841-957 | in no run is a lost transaction chosen |
| `TxRelease.PutBackExample` | blockchain/template.go:891-916 | a parent that is put back and then chosen, without its child |
| `TxRelease.StepComplete` | blockchain/template.go:841-957 | a round that takes its transaction forgets nobody |
| `TxRelease.AllChosen` | blockchain/template.go:841-957 | in a run in which every round takes its transaction, every transaction of an acyclic pool is chosen |
| `ScriptPool.StartInv` | blockchain/scriptval.go:127-150 | the pool starts in a consistent state, with at least one handler and no more than items |
| `ScriptPool.HandInv` | blockchain/scriptval.go:155-168 | handing out an item keeps it with exactly one handler |
| `ScriptPool.FinishInv` | blockchain/scriptval.go:49-123 | an item is checked by its holder only, once |
| `ScriptPool.ReportInv` | blockchain/scriptval.go:170-176 | a received verdict is counted once; an error ends the run |
| `ScriptPool.QuitInv` | blockchain/scriptval.go:39-44 | leaving after the quit channel is closed disturbs nothing |
| `ScriptPool.NextInv` | blockchain/scriptval.go:39-181 | every step of every party keeps the state consistent |
| `ScriptPool.Answers` | blockchain/scriptval.go:127-181 | in every interleaving nil means that every item was checked valid exactly once, an error that some item is invalid |
| `ScriptPool.Progress` | blockchain/scriptval.go:127-181 | until it returns some step is possible |
| `ScriptPool.CanLeave` | blockchain/scriptval.go:49-123 | after it has returned every handler that has not left can move |
| `ScriptPool.StepsEnd` | blockchain/scriptval.go:39-181 | every step uses up a measure |
| `ScriptPool.RunEnds` | blockchain/scriptval.go:127-181 | every interleaving ends within a bound, all handlers left, answering nil if and only if every item is valid |
| `Mempool.AddKeeps` | blockchain/txpool.go:283-325 | adding keeps the index exact if and only if no pooled transaction spends one of the inputs |
| `Mempool.SpentOnce` | blockchain/txpool.go:435-448 | in an indexed pool no output is spent twice |
| `Mempool.AddAcyclic` | blockchain/txpool.go:283-325 | a new transaction brings a cycle if and only if it relies on itself |
| `Mempool.FreshAcyclic` | blockchain/txpool.go:283-325 | one that nothing spends yet brings none |
| `Mempool.SpendersShrink` | blockchain/txpool.go:154-162 | the recursion goes to strictly fewer dependants |
| `Mempool.TxPool.RemoveTransaction` | blockchain/txpool.go:152-182 | removes exactly the transaction and, with redeemers, all that transitively relies on it; the index stays exact |
| `Mempool.TxPool.RemoveDoubleSpends` | blockchain/txpool.go:268-276 | removes exactly the rivals and all that relies on them; no rival is left |
| `Mempool.TxPool.CheckPoolDoubleSpend` | blockchain/txpool.go:435-448 | passes exactly if no pooled transaction spends one of the inputs |
| `Mempool.TxPool.AddTransaction` | blockchain/txpool.go:283-325 | the transaction and its inputs are entered |
| `Mempool.TxPool.MaybeAcceptTransaction` | blockchain/txpool.go:533-803 | enters exactly the transactions that pass, also when it then reports an error, and keeps the index exact |
| `Mempool.TxPool.SyncAttachBlock` | blockchain/txpool.go:1009-1019 | neither the block's transactions nor a rival of one stays pooled, and nothing else is lost but what relies on a rival |

## Left out

- Failed validation, database errors and `expandRootBlockNode` in a reorganisation: runs consist of steps
  whose blocks pass their checks. The orphan block pool, the double-mining ban cache, time stamps and the
  proof of capacity are not part of this model.
- The staking store (`connectStakingTransactions`, `disconnectStakingTransactions`): the ranking is a parameter.
- Scripts, signatures, sequence locks and the sizes of witnesses: verdicts and sizes are parameters.
- The Newton root of `gensecp256k1.go`: the root is a parameter of `Endomorphism.EndomorphismVectors`, and
  `Endomorphism.CurveVectors` gives it the integer root of the order.
- BasePoints.BytePoints: the table is not put into bytes and read back.
- ScalarMult.ScalarMult: the base is an affine point of the curve. The pair (0, 0), which only stands for
  infinity as a result, and points off the curve are not covered.
- Jacobian and JacobianAdd: coordinates are objects that may be one another, the temporaries are values.
- `Sqrt` with its argument aliased to the receiver.
- PubKey.DecompressPoint: the curve constant 7 is fixed, as the source's one curve has it.
- ProtoWire.UnmarshalMarshal: the wire format is the one of `trie.proto`; reading refuses unknown fields, has
  no limit of ten bytes on a varint, and an empty byte string stands for an absent one.
- Hasher.HashMeans: hashing children in parallel computes what hashing them in order computes, and is not
  modelled; the counter of unhashed nodes, the caches of the database and proofs are left out.
- MerkleTrie.Trie.constructor: the root hash must not be one of the two that mean an empty trie, because the
  source then opens an empty trie.
- StackTrie.StackTrie.Insert: nodes are new objects instead of objects from a pool, and nothing is written to
  a database. The serialisation of a stack trie is left out.
- TxLookup.FetchTxStore: the node has a parent in the tree. What was there before the root is one view.
- Conservation.CheckConnectBlock: the checks that do not concern money are left out, and of the errors it says
  that there is one, not which.
- Coinbase.ReCreateCoinbaseTx: whether the miner has a valid binding is a parameter, the same for both sides.
- Binding.IndexBlockAddrs: the state has typed maps for plots, pools and the total; the byte keys that tell
  them apart, and the index of addresses, are left out. Equal contents stand for equal roots.
- TxSelect.SelectTxs: priorities and fee rates are real numbers, the heap pops some best element, and the size
  of header, coinbase and proposals is a parameter.
- Mempool.TxPool.SyncAttachBlock: orphans that become acceptable are not moved into the pool. The address index,
  the binding targets and rate limits are left out.
- ScriptPool.Answers: what the check of one item does is its verdict.
- Networking, storage formats, wallets, configuration, the command line and floating-point proof quality.
