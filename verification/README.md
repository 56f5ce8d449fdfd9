# Pastel node core: a Dafny model

A model, in Dafny 4.11, of the parts of the Pastel node whose correctness is hardest to see from
the code, with proofs of what they are for. Every statement is about all inputs, all runs or all
reachable states. `dafny verify dfyconfig.toml` checks the whole project.

## Components and main results

- **LegRoast signatures** (`LegRoast*.dfy`, `MersennePrime.dfy`), Legendre variant. The 128-bit
  arithmetic modulo 2^127 - 1, the punctured seed tree and the three-round protocol over shares are
  methods on words and arrays, proved against a definition of the scheme over the integers.
  `LegRoast.SignAndVerify` and `LegRoastExactness.AcceptedExactly`: an honest signature is accepted
  if and only if, in every round, no all-zero seed hides an opened party's seed and no symbol
  degenerates; the "only if" needs that the hash does not collide on two given buffers.
  `LegRoastBinding.ChallengeBinds`: the challenges determine the message and all earlier messages.
  `LegRoastSoundness.Reopened` and `LegRoastSoundness.OneLambda`: two accepted answers to one commitment
  give away shares that pass the check, and wrong outputs pass for one challenge at most. The primality
  of 2^127 - 1 (Lucas-Lehmer, with its sufficiency), Fermat's theorem and Euler's criterion are
  proved, not presupposed.
- **Unspent outputs** (`Coins*.dfy`, `VarIntCodec.dfy`, `AmountCodec.dfy`). A stack of caches over a
  database, of any height. `CoinsCache.CoinsViewCache.Flush`: flushing hands a cache's view down
  exactly and is invisible to its readers. `CoinsChain.ChainState`: through any run of blocks
  connected and disconnected, the coins are exactly those of the active chain, and a block can always
  be disconnected. `CoinsHistory.NoDoubleSpend`, `CoinsHistory.NoNullifierTwice`,
  `CoinsHistory.SpentWasCreated`: over the whole chain nothing is spent twice, or without having been
  created. `CoinsLedger.CoinsExactly`: the coins are exactly the outputs created and not spent since.
  `CoinsHistory.CoinbaseMatures`: coinbases wait a hundred blocks. `CoinsSupply.NoInflation`: there is
  never more money than the subsidies. `CoinsRecord.RecordBack`: the database encoding of a record is
  read back; `CoinsFormat.FirstExample` and `CoinsFormat.SecondExample`: it is the documented one.
- **Address manager** (`Addr*.dfy`). Every operation keeps the conditions `Check_` tests; a manager
  saved and loaded again is the same one under new ids (`AddrFile.SaveAndLoad`), and any file without
  double addresses loads to a consistent one (`AddrLoaded.LoadedConsistent`).
- **Partial merkle trees** (`Merkle*.dfy`). Built, sent and extracted, a tree gives the root and
  exactly the matched transactions; any tree received with the right root lists only transactions of
  the block; an accepted tree has nothing to spare (`MerkleBlock.NothingToSpare`); a list with its last
  transaction repeated has the same root but is refused (`MerkleTwins.RepetitionRefused`); how large a
  tree can be.
- **Check queue** (`CheckQueue.dfy`). The threads as a state machine over their critical sections:
  over every run the master's verdict is about exactly the checks added to the round, and neither the
  master nor the workers sleep through work.
- **Block index** (`BlockTree.dfy`, `SkipWalk.dfy`, `ActiveChain.dfy`, `MedianTime.dfy`). Skip
  pointers, common ancestors, the active chain, locators, and the median time, which never falls.
  `SkipWalk.Documented110` and `SkipWalk.Reached110`: a walk down the skip pointers takes at most 110
  turns up to height 2^18, as a comment reports from simulations, and 110 are taken; in general the
  number grows with the square of the number of bits.
- **Orphan pool** (`OrphanPool.dfy`). The index by parents stays exact, and no orphan is left behind
  if and only if each needs nothing but what is known or what it spends from.

`Numbers.dfy` and `Counting.dfy` hold the arithmetic and the pigeonhole principle the proofs share.

## Conventions

SHAKE-128, the keyed bucket hashes, the merkle hash, curve arithmetic, random numbers, clocks and
admission to the memory pool are parameters. What is needed of them is a named hypothesis:
`MerkleTree.Injective` (no collisions of the merkle hash), `CoinsTip.IdsTell` and
`CoinsHistory.HashedIds` (an id is the hash of its transaction, and coinbases contain their height),
`CoinsCodec.Rebuilds` (a point can be decompressed), `LegRoastExactness.NoCollision`,
`LegRoastBinding.Apart4`, `LegRoastSoundness.Told` (no collision on the named buffers),
`OrphanPool.Once` (nothing is accepted twice) and `OrphanPool.Reports` (an orphan is called missing
inputs only while something it needs is neither known nor accepted).

Integers are unbounded unless the width matters: the 128-bit words of LegRoast, numbers read from the
coins database and compressed amounts wrap, IsTerrible compares unsigned, and the range of amounts is
checked.

A state is described by ghost values a reader would see: `view` and `spent` of a cache, `Tables()` of
the address manager. `limbo` in the address manager is the set of entries that are in neither table
while an operation is under way; `Consistent` with an empty limbo is what `Check_` tests, except for
the times, which are `GoodTimes`, and for a null key, on which `Check_` fails as well
(`src/addrman.cpp:468-469`).

## Where the code and its documentation differ

The model follows the code.

- `src/utils/serialize.h:364` gives 16511 three bytes; the code, and the sizes listed above that line, two:
  `VarIntCodec.DocumentedSizes` and `VarIntCodec.Documented16511`. The claim above it that every integer
  has exactly one encoding holds of what the digits say, not of a type of some width:
  `VarIntCodec.WordExact`.
- `src/merkleblock.h:17-49` promises at most 2 * N - 1 bits for N hashes and a size bound from it. A
  node with a single child costs a bit but no hash: `MerkleSize.MoreBits`, `MerkleSize.PromiseBroken`
  and the exact conditions `MerkleSize.BitsExact` and `MerkleSize.SizeExact`.
- IsTerrible means to allow times up to ten minutes ahead, but its next comparison is unsigned and
  rejects them: `AddrMan.TerribleExact`.
- `src/coins.h:480-488` asks of ModifyNewCoins that no entry with the id exists; what the code needs is
  that the view below has none: `CoinsLayer.NewEntryExact` and `CoinsLayer.ReappearingCoins`.
  ConnectBlock, which asks the view at hand, is right on the new cache ConnectTip gives it:
  `CoinsTip.NothingOverwritten`.
- An undo record with height 0 means "not the last output", so a record used up at height 0 is not
  restored: `CoinsMoves.UndoOneExact`.
- VARINT of a negative version or height keeps seven bits: `CoinsRecord.RecordExact`.
- fill_down takes an all-zero seed for an unknown one: `LegRoastSeedTree.Puncturing`.
- `src/amount.h:32-41` says that MAX_MONEY is a sanity check and not the supply, which it says is less.
  The subsidies of the main network pass it at height 4569576: `CoinsSupply.SubsidiesPassMaxMoney`.
- `src/main.cpp:5603` says that the orphans depending on an accepted transaction are processed. A
  ticket that waits for another ticket (`src/accept_to_mempool.cpp:525-534` and 862-868) is kept as an
  orphan, but the pool finds orphans only by what they spend: `OrphanPool.Overlooked`.

## Model

| member | source | states |
|---|---|---|
| LegRoastField.ReduceModP | src/legroast.h:139-143 | for every 128-bit word the result is its canonical residue modulo p = 2^127 - 1, `a % p`, not merely something below 2^127 |
| LegRoastField.AddModP | src/legroast.h:145-153 | the result is congruent to the sum modulo p although the addition wraps at 2^128 and the correction may wrap again |
| LegRoastField.LimbBounds | src/legroast.h:172-192 | the four limb products of two reduced words, and their shifted sums, stay within 128 bits |
| LegRoastField.WordsFit | src/legroast.h:172-192 | the three partial words lose nothing but the high half of the middle product, which has been carried over |
| LegRoastField.FoldHigh | src/legroast.h:172-192 | low word + middle word + 2 * high word is congruent to the full 256-bit product |
| LegRoastField.SquareModP | src/legroast.h:155-170 | result congruent to a * a; the operand is left reduced |
| LegRoastField.MulAddModP | src/legroast.h:172-192 | result congruent to out + a * b for all words; both operands are left reduced |
| LegRoastField.ShortLink | src/legroast.h:963-1000 | a square and a multiplication lengthen the exponent 2^k - 1 to 2^(k+1) - 1 |
| LegRoastField.LongLink | src/legroast.h:963-1000 | six squarings and a multiplication lengthen the exponent 2^k - 1 to 2^(k+6) - 1 |
| LegRoastField.LegendreSymbolCt | src/legroast.h:963-1000 | the addition chain raises to exactly 2^126 - 1 = (p - 1) / 2, and the returned byte is the 128-bit expression of the code on that power |
| MersennePrime.MersenneIsPrime | src/legroast.h:33 | p = 2^127 - 1, the modulus of the code, is prime; proved from first principles |
| MersennePrime.Fermat | src/legroast.h:963-1000 | Fermat's little theorem for p |
| MersennePrime.Euler | src/legroast.h:963-1000 | every nonzero residue to the (p - 1) / 2 is 1 or -1 |
| LegRoastSymbol.SymIsBit | src/legroast.h:963-1000 | the byte legendre_symbol_ct returns is 0 or 1 for every word, and 1 exactly for the nonzero residues whose half-order power is -1 |
| LegRoastSymbol.SymOfProduct | src/legroast.h:823-840 | the symbol of a product of nonzero residues is the exclusive or of the symbols |
| LegRoastSymbol.VerifierSymbol | src/legroast.h:823-840 | the verifier, from the masked output and the public key, finds the committed symbol if and only if neither key + index nor the mask vanishes modulo p, or both symbols are 0 |
| LegRoastSymbol.DegenerateSymbol | src/legroast.h:823-840 | the concrete failing case: key + index is 0 and the mask is -1 |
| LegRoastSeedTree.GenerateSeedTree | src/legroast.h:1133-1140 | in place, every heap index holds the seed grown from the root |
| LegRoastSeedTree.ReleaseSeeds | src/legroast.h:1142-1152 | one seed per level: the one hanging off the path to the unopened leaf |
| LegRoastSeedTree.HangingIsSibling | src/legroast.h:1142-1152 | on each level the node hanging off the path is the sibling of the path node |
| LegRoastSeedTree.InsertSeeds | src/legroast.h:1154-1171 | the tree is cleared and the revealed seeds stand beside the path |
| LegRoastSeedTree.FillDown | src/legroast.h:1154-1171 | the refilled tree, node by node: zero on the path, the revealed seed where a subtree hangs off, expanded below unless the parent is zero |
| LegRoastSeedTree.Puncturing | src/legroast.h:1126-1171 | the revealed seeds rebuild every node off the path, and leave the path zero, if and only if no zero seed off the path has a nonzero child |
| LegRoastSeedTree.FilledExactly | src/legroast.h:1154-1171 | a node off the path is rebuilt if no seed between it and the path is zero, and zero otherwise |
| LegRoastSeedTree.NonzeroSeedsSuffice | src/legroast.h:1154-1171 | nothing is lost when no seed to be expanded is zero |
| LegRoastSeedTree.LeavesOffPath | src/legroast.h:1126-1171 | among the leaves only the unopened one lies on the path |
| LegRoastSeedTree.PuncturingCanFail | src/legroast.h:1154-1171 | an expansion function and four parties for which a revealed zero seed is taken for an unknown one |
| LegRoastShares.SumsAreLinear | src/legroast.h:705-747 | summing what the parties open is opening the sum of their shares |
| LegRoastShares.Cancellation | src/legroast.h:705-747 | for honest shares the opened values add up to alpha, to beta and to zero |
| LegRoastShares.UnopenedRecovered | src/legroast.h:850-948 | the verifier recovers from the other openings exactly what the unopened party would have opened |
| LegRoastParty.Mask | src/legroast.h:705-747 | one mask: what the shares of beta and z become, for party 0 and for the others |
| LegRoastParty.Masks | src/legroast.h:705-747 | the loop over the masks leaves words congruent to the shares of beta and of z |
| LegRoastParty.ShareOfV | src/legroast.h:705-747 | the party's share of v as a canonical residue, party 0 adding the public part |
| LegRoastParty.ShareOfAlpha | src/legroast.h:705-747 | eps * key share + a share, reduced |
| LegRoastParty.OpenParty | src/legroast.h:705-747 | the opening of one party, as canonical residues, whether the share of beta is reduced at every mask (signer) or once (verifier) |
| LegRoastScheme.DeltasAddUp | src/legroast.h:560-624 | adding the deltas to party 0 adds them to the totals and changes nothing else |
| LegRoastScheme.RoundIsHonest | src/legroast.h:560-624 | the shares and public values of a round satisfy the relations of the protocol: shares of the key, of a product, and of the outputs |
| LegRoastCompleteness.LeafRebuilt | src/legroast.h:1154-1171 | the verifier rebuilds the seed of an opened party if and only if no zero seed lies between it and the path, or it is zero itself |
| LegRoastCompleteness.NonzeroSeedsKeep | src/legroast.h:1154-1171 | if no seed to be expanded is zero, every opened seed is rebuilt |
| LegRoastCompleteness.SymbolsAgree | src/legroast.h:823-840 | the symbols found for a round are the committed ones if and only if none of its symbols degenerates |
| LegRoastCompleteness.OpeningsAgree | src/legroast.h:850-948 | openings of the rebuilt parties together with the recovered one are the openings of all parties |
| LegRoastCompleteness.RoundAgrees | src/legroast.h:771-948 | commitments, symbols and openings a verifier computes for a round are the signed ones |
| LegRoastCompleteness.Completeness | src/legroast.h:386-519 | every signature produced with a secret key, for any message and any root seeds, is accepted under the matching public key unless a zero seed hides an opened one or a symbol degenerates |
| LegRoastExactness.BufferRows | src/legroast.h:771-848 | equal hashed buffers hold equal commitments and equal symbols, round by round |
| LegRoastExactness.RoundIsWell | src/legroast.h:771-848 | a round whose commitments and symbols agree has no hidden seed and no degenerate symbol |
| LegRoastExactness.AcceptedExactly | src/legroast.h:386-519 | the converse too: short of a collision of the hash on two given buffers, an honest signature is accepted if and only if every round is well |
| LegRoastBinding.Digest2Binds | src/legroast.h:404-423 | the first challenge is that of one message and one commitment message, short of a collision on named buffers |
| LegRoastBinding.Digest3Binds | src/legroast.h:428-435 | the second challenge is that of one first challenge and one message of outputs |
| LegRoastBinding.Digest4Binds | src/legroast.h:440-447 | the third challenge is that of one second challenge and one message of alpha, beta and the digest of openings |
| LegRoastBinding.ChallengeBinds | src/legroast.h:404-447 | short of a collision, two signatures of the right size have the same last challenge if and only if message, first, second and third message are the same |
| LegRoastBinding.OtherMessage | src/legroast.h:480-508 | for another message every one of the three challenges of a signature is another one |
| LegRoastBinding.WordRowsPeel | src/legroast.h:78-98 | rows of words of given lengths are told apart by their bytes |
| LegRoastBinding.WholeChallenge | src/legroast.h:666-669 | epsilons and lambdas together are the whole expansion of the digest: no byte is left out or used twice |
| LegRoastBinding.EveryQuery | src/legroast.h:626-638 | any symbols can be queried for one digest and any others for another |
| LegRoastBinding.EveryUnopened | src/legroast.h:753-759 | any parties can be left unopened for one digest and any others for another |
| LegRoastBinding.EveryKey | src/legroast.h:950-954 | any two residues are the keys of two secrets under some expansion |
| LegRoastBinding.EveryIndex | src/legroast.h:956-961 | any two words are the indices of two symbols under some expansion |
| LegRoastBinding.WholeShares | src/legroast.h:580-588 | the shares of a party are the whole expansion of its seed |
| LegRoastBinding.WholePair | src/legroast.h:1133-1140 | the two children of a seed are the two halves of its expansion |
| LegRoastBinding.MessageLayout | src/legroast.h:68-91 | where delta K, delta C, alpha and beta of a round stand in their messages |
| LegRoastBinding.LowByteFirst | src/legroast.h:956-961 | numbers are written low byte first |
| LegRoastBinding.LowBitFirst | src/legroast.h:1119-1124 | public keys hold the symbols from the least significant bit of a byte on |
| LegRoastSoundness.VIsError | src/legroast.h:705-747 | the shares of v add up to the defect of the triple plus epsilon times the errors of the outputs weighted with lambda |
| LegRoastSoundness.PassingExactly | src/legroast.h:850-948 | a round passes its check if and only if that sum vanishes modulo p |
| LegRoastSoundness.OneLambda | src/legroast.h:850-948 | with a wrong output, of all values of the lambda of that output at most one passes |
| LegRoastSoundness.OneEpsilon | src/legroast.h:850-948 | with a triple that is no product, or errors that do not cancel, at most one epsilon passes |
| LegRoastSoundness.KeySymbolTold | src/legroast.h:823-840 | for a right output, the shared key has the symbol of the public key if and only if the true symbol of the mask was committed to |
| LegRoastSoundness.AcceptsPasses | src/legroast.h:468-519 | what verify accepts is what passes for the challenges of the message |
| LegRoastSoundness.Reopened | src/legroast.h:771-948 | two accepted answers that leave different parties of a round unopened give all seeds committed to away, and their shares pass the check of the round |
| LegRoastRounds.CommitParties | src/legroast.h:560-624 | commitments and share words of all parties, and their sums as canonical residues |
| LegRoastRounds.MaskSymbols | src/legroast.h:560-624 | the symbols of the summed masks |
| LegRoastRounds.ComputeDeltas | src/legroast.h:560-624 | the deltas that make the shares add up to the key and to a product |
| LegRoastRounds.AdjustParties | src/legroast.h:560-624 | the deltas go to party 0 and to no other |
| LegRoastRounds.CommitRound | src/legroast.h:560-624 | one round of commit against the scheme: state, commitments, symbols, deltas |
| LegRoastRounds.RespondRound1 | src/legroast.h:639-664 | the masked outputs (key + index) * r |
| LegRoastRounds.RespondRound2 | src/legroast.h:671-751 | alpha, beta and the openings of all parties |
| LegRoastRounds.RespondRound3 | src/legroast.h:761-769 | the seeds beside the path and the commitment of the unopened party |
| LegRoastRounds.CheckParties | src/legroast.h:771-848 | commitments and share words of the opened parties, from the rebuilt tree |
| LegRoastRounds.CheckRound1 | src/legroast.h:771-848 | commitments and symbols of one round as the verifier sees them |
| LegRoastRounds.RecoverOpening | src/legroast.h:850-948 | the missing opening: totals less the sums of the others |
| LegRoastRounds.CheckRound2 | src/legroast.h:850-948 | the openings of one round, the missing one recovered |
| LegRoast.SetBit | src/legroast.h:220-247 | or-ing a bit into the public key sets that bit and no other |
| LegRoast.AddKeyBit | src/legroast.h:220-247 | the next symbol of the public key |
| LegRoast.Signer.Keygen | src/legroast.h:220-247 | bit n of the public key is the symbol of key + index n, for all n |
| LegRoast.Signer.Commit | src/legroast.h:560-624 | the first message, for the root seeds drawn |
| LegRoast.Signer.Respond1 | src/legroast.h:639-664 | the second message, for the first challenge |
| LegRoast.Signer.Respond2 | src/legroast.h:671-751 | the third message, for the second challenge |
| LegRoast.Signer.Respond3 | src/legroast.h:761-769 | the fourth message, for the third challenge |
| LegRoast.HashOnto | src/legroast.h:416-420 | in place, the next hash of the buffer is the hash of the previous one and the hash of a message |
| LegRoast.Challenges | src/legroast.h:478-508 | the digests verify reconstructs in its hash buffer |
| LegRoast.Signer.Sign | src/legroast.h:386-455 | the four messages, with the challenges chained in the hash buffer, are a signature of the message |
| LegRoast.Signer.CheckFirst | src/legroast.h:771-848 | compares the digest of commitments and symbols |
| LegRoast.Signer.CheckSecond | src/legroast.h:850-948 | compares the digest of the openings |
| LegRoast.Signer.Verify | src/legroast.h:468-519 | returns whether both digests agree with the signature, for the challenges of this message |
| LegRoast.SignAndVerify | src/legroast.h:386-519 | key generation, signing and verification run one after the other: accepted if every round is well, and only if, short of a hash collision |
| CoinsLayer.Cleanup | src/coins.cpp:39-45 | the spent outputs at the end, and no others, are dropped |
| CoinsLayer.TrimKeeps | src/coins.cpp:39-45 | cleaning up changes neither availability of any output nor prunedness |
| CoinsLayer.Spend | src/coins.cpp:63-71 | succeeds exactly on an available output |
| CoinsLayer.SpendEffect | src/coins.cpp:63-71 | exactly the spent output becomes unavailable; every other one keeps its content |
| CoinsLayer.CacheEntry | src/coins.cpp:149-167 | caching what the view below shows changes nothing a reader sees |
| CoinsLayer.WriteEntry | src/coins.cpp:390-410 | overwriting a dirty entry changes the view at its key only |
| CoinsLayer.EraseEntry | src/coins.cpp:693-705 | erasing a fresh pruned entry changes nothing a reader sees |
| CoinsLayer.NewEntryExact | src/coins.cpp:412-420 | the entry ModifyNewCoins inserts is right if and only if the view below has no coins at the key |
| CoinsLayer.ReappearingCoins | src/coins.cpp:412-420 | the failing case: spent in the child only, recreated and pruned, the coins of the parent reappear |
| CoinsLayer.MergeShows | src/coins.cpp:529-585 | in each case of the merge the parent then shows the child at the key; dropping a fresh pruned entry loses nothing |
| CoinsLayer.MergeRest | src/coins.cpp:529-585 | the child's entries not merged yet still fit over the changed parent |
| CoinsLayer.MergeLinks | src/coins.cpp:529-585 | merging keeps the link between every two layers that lets the assertion in the code hold |
| CoinsLayer.EmptyLayer | src/coins.cpp:587-596 | with all entries merged, parent and child show the same |
| CoinsCache.CoinsViewDB.WriteCoins | src/txdb/txdb.cpp:166-205 | writing the dirty entries and erasing the pruned ones gives the view of the flushed cache |
| CoinsCache.CoinsViewDB.BatchWrite | src/txdb/txdb.cpp:166-205 | the database then holds exactly the coins and nullifiers the flushed cache showed |
| CoinsCache.CoinsViewCache.constructor | src/coins.cpp:133-137 | a new cache shows the view below it |
| CoinsCache.CoinsViewCache.FetchCoins | src/coins.cpp:149-167 | reading through the stack caches the record and changes no view; not found means no coins |
| CoinsCache.CoinsViewCache.GetCoins | src/coins.cpp:381-388 | a reader gets what the view shows |
| CoinsCache.CoinsViewCache.HaveCoins | src/coins.cpp:431-439 | true exactly for transactions with unspent outputs, on records no modifier holds |
| CoinsCache.CoinsViewCache.GetNullifier | src/coins.cpp:217-242 | true exactly for the spent nullifiers of the stack |
| CoinsCache.CoinsViewCache.ModifyCoins | src/coins.cpp:390-410 | the modifier starts on what the view shows, and nothing changes yet |
| CoinsCache.CoinsViewCache.ModifyNewCoins | src/coins.cpp:412-420 | the record is cleared, provided the view below has none |
| CoinsCache.CoinsViewCache.Assign | src/coins.cpp:688-705 | writing through the modifier sets the record in the view |
| CoinsCache.CoinsViewCache.Release | src/coins.cpp:693-705 | the destructor leaves the cleaned-up record in the view, erased or not |
| CoinsCache.CoinsViewCache.SetNullifiers | src/coins.cpp:371-379 | enters or removes exactly the given nullifiers |
| CoinsCache.CoinsViewCache.MergeEntry | src/coins.cpp:529-585 | one step of the merge, with its assertion |
| CoinsCache.CoinsViewCache.WriteCoins | src/coins.cpp:529-585 | after the loop the parent shows the child's coins, and the stack invariant holds |
| CoinsCache.CoinsViewCache.WriteNullifiers | src/coins.cpp:472-495 | after the loop the parent shows the child's nullifiers |
| CoinsCache.CoinsViewCache.BatchWrite | src/coins.cpp:529-585 | the parent cache shows what the flushed child showed, coins and nullifiers |
| CoinsCache.CoinsViewCache.Flush | src/coins.cpp:587-596 | in a stack of any height: the view below becomes this view, nothing a reader of this cache sees changes, and the cache is empty |
| CoinsMoves.ClearUnspendable | src/coins.cpp:47-55 | outputs nobody can spend are dropped from the record |
| CoinsMoves.ResizeExact | src/main.cpp:1196-1220 | refilling what was left of the outputs after one was spent gives them back |
| CoinsMoves.UndoOneExact | src/main.cpp:1196-1220 | undoing one spent input restores the view if and only if the height is not 0 or the record survived the spending |
| CoinsMoves.SpendAllEffect | src/main.cpp:946-975 | spending distinct available inputs one by one makes exactly them unavailable and keeps the content of every other output |
| CoinsMoves.UndoAllExact | src/main.cpp:1238-1361 | restoring the inputs in reverse order gives the view back |
| CoinsMoves.ConnectProper | src/main.cpp:946-975 | connecting keeps the records as the node keeps them: clean, not pruned, mined at a height other than 0 |
| CoinsMoves.DisconnectExact | src/main.cpp:1238-1361 | clearing the outputs and restoring the inputs undoes connecting a transaction |
| CoinsValue.TotalPut | src/coins.cpp:390-410 | setting a record changes the total value by the difference of the two records |
| CoinsValue.SpendAllValue | src/main.cpp:946-975 | spending the inputs lowers the total by exactly their value |
| CoinsValue.ConnectValue | src/main.cpp:946-975 | conservation: the total changes by the value of the spendable outputs less that of the inputs |
| CoinsBlock.NoDuplicateInputs | src/accept_to_mempool.cpp:768-779 | true exactly if no two inputs are the same |
| CoinsBlock.CheckAmounts | src/accept_to_mempool.cpp:715-766 | stopping at the first bad total decides exactly whether every value, every total and the value balance are money |
| CoinsBlock.HaveInputs | src/coins.cpp:644-657 | true exactly for a coinbase or if every input is available in the view |
| CoinsBlock.GetValueIn | src/coins.cpp:603-622 | the value of the inputs in the view and of the shielded balance; throws exactly if that is out of range |
| CoinsBlock.NullifiersUnspent | src/coins.cpp:624-642 | its half about nullifiers: true exactly if none of the transaction is spent in the view |
| CoinsBlock.SpendInput | src/main.cpp:946-975 | one input spent and its undo record, with the height only if the record is used up |
| CoinsBlock.SpendInputs | src/main.cpp:946-975 | all inputs spent, undo records in order |
| CoinsBlock.UpdateCoins | src/main.cpp:946-975 | the view, the nullifiers and the undo data after a transaction is connected |
| CoinsBlock.ApplyTxInUndo | src/main.cpp:1196-1220 | clean exactly if the undo record fits the view; the input is then back, also where something is overwritten, and no other record changes |
| CoinsBlock.RemoveOutputs | src/main.cpp:1238-1361 | the record is removed; clean exactly if it was what the block wrote |
| CoinsBlock.RestoreInputs | src/main.cpp:1238-1361 | clean exactly if every undo record fits in turn |
| CoinsBlock.DisconnectTx | src/main.cpp:1238-1361 | one transaction disconnected, outputs, nullifiers and inputs; fails exactly if there are not as many undo records as inputs |
| CoinsBlock.DisconnectBlock | src/main.cpp:1238-1361 | fails exactly on undo data of the wrong shape; clean exactly if everything fits, and then what the view and nullifiers are |
| CoinsBlock.DisconnectAllExact | src/main.cpp:1238-1361 | disconnecting a block with the undo data of connecting it gives the view back |
| CoinsTip.CheckTransaction | src/accept_to_mempool.cpp:690-840 | true exactly if something is spent and something created, all amounts are money, nothing is spent twice within the transaction, and it is a proper coinbase or has no null input |
| CoinsTip.CheckBlock | src/main.cpp:2970-3024 | true exactly if exactly the first transaction is a coinbase and each passes CheckTransaction |
| CoinsTip.OverwritesNothing | src/main.cpp:1507-1515 | true exactly if no transaction of the block has unspent outputs in the view before the block |
| CoinsTip.NotAgain | src/main.cpp:1507-1570 | no transaction comes twice in a block that has its inputs: the second time they would be spent |
| CoinsTip.NothingOverwritten | src/main.cpp:1507-1570 | looking at the view before the block suffices: no transaction of the block overwrites an unspent one, not even one of the same block |
| CoinsTip.GetValueOut | src/primitives/transaction.cpp:274-294 | the value created, with what goes into the shielded pool; throws exactly if an amount or a total is out of range |
| CoinsTip.InputValues | src/main.cpp:1009-1033 | true exactly if every input is mature and the values and their total are money |
| CoinsTip.CheckTxInputs | src/main.cpp:997-1053 | true exactly if inputs are available and mature, nullifiers unspent, amounts in range, and no more is created than spent; throws exactly if it comes to an amount of the transaction out of range |
| CoinsTip.ConnectBlock | src/main.cpp:1464-1655 | on a new cache, the block is connected if and only if it is acceptable: sound, overwriting nothing, every input funded after the transactions before it, and the coinbase within fees and subsidy; view, nullifiers and undo data then |
| CoinsChain.ChainProper | src/main.cpp:2001-2086 | the records of every chain are as the node keeps them: clean, not pruned, mined above height 0 |
| CoinsChain.LastUndone | src/main.cpp:1908-1982 | the undo data of the last block fits the coins of the chain and gives those of the chain before it |
| CoinsChain.ChainState.constructor | src/main.cpp:1490-1504 | after the genesis block there are no coins |
| CoinsChain.ChainState.ConnectTip | src/main.cpp:2001-2086 | whatever was connected and disconnected before: the block is connected exactly if it is acceptable after the chain, else nothing changes; the coins stay those of the chain |
| CoinsChain.ChainState.DisconnectTip | src/main.cpp:1908-1982 | always succeeds, and leaves the coins of the chain without its last block |
| CoinsChain.ChainState.FlushStateToDisk | src/main.cpp:1741-1838 | the database then holds the coins and nullifiers of the chain |
| CoinsHistory.HistoryRuns | src/main.cpp:1464-1655 | the coins of the chain are those its transactions leave, connected one by one |
| CoinsHistory.IdsUnique | src/main.cpp:1507-1515 | no transaction comes twice in the chain if coinbases do not |
| CoinsHistory.NoDoubleSpend | src/main.cpp:946-975 | no output is spent twice in the whole chain |
| CoinsHistory.NoNullifierTwice | src/coins.cpp:624-642 | no shielded note is spent twice in the whole chain |
| CoinsHistory.SpentWasCreated | src/main.cpp:946-975 | every input spends an output created earlier in the chain, for its value |
| CoinsHistory.HistoryFunded | src/main.cpp:997-1053 | every transaction of the chain was paid for when it was connected, with mature inputs |
| CoinsHistory.CoinbaseMatures | src/main.cpp:1016-1023 | a transaction in block h spends from the coinbase of block g only if h - g >= 100 |
| CoinsLedger.MatureExactly | src/main.cpp:1016-1023 | an output of a coinbase may be spent exactly from a hundred blocks later on |
| CoinsLedger.EveryTransaction | src/main.cpp:997-1053 | every transaction of the chain creates only amounts of money, spends nothing twice, has real inputs and, unless it is a coinbase, spends at least what it creates |
| CoinsLedger.CoinsExactly | src/main.cpp:946-975 | the coins of a chain are exactly the outputs its transactions created, can be spent, and were not spent since |
| CoinsSupply.BlockCreates | src/mnode/mnode-validation.cpp:176-189 | a block raises coins and shielded pool together by no more than its subsidy |
| CoinsSupply.NoInflation | src/main.cpp:1640-1655 | in every chain, coins and shielded pool together are worth no more than the subsidies so far |
| CoinsSupply.RewardsBound | src/main.cpp:776-799 | all rewards together are at most twice those of the first period |
| CoinsSupply.SupplyLimit | src/main.cpp:776-799 | on the main network coins and shielded pool are never worth more than 21262198401 coins |
| CoinsSupply.SubsidiesPassMaxMoney | src/main.cpp:776-799 | the subsidies of the main network pass MAX_MONEY at height 4569576 and not before |
| VarIntCodec.WriteVarInt | src/utils/serialize.h:385-400 | the loop writes the digits of the number, the last one first found |
| VarIntCodec.ReadVarInt | src/utils/serialize.h:403-416 | into an unsigned type of m values: the number its digits say, reduced modulo m; fails at the end of the stream |
| VarIntCodec.ReadVarInt32 | src/utils/serialize.h:403-416 | into a signed 32-bit type: the number its digits say, wrapped |
| VarIntCodec.VarIntBack | src/utils/serialize.h:345-416 | a written number is read back, followed by any stream; of a negative one seven bits are left |
| VarIntCodec.WordBack | src/utils/serialize.h:345-416 | every number of an unsigned type is read back into it |
| VarIntCodec.Int32Back | src/utils/serialize.h:345-416 | every signed 32-bit number is read back, or seven bits of it if it is negative |
| VarIntCodec.VarIntOnly | src/utils/serialize.h:345-416 | digits that say a number are its encoding: every number has exactly one |
| VarIntCodec.WordExact | src/utils/serialize.h:345-416 | what is read into a type of m values is encoded by the bytes read if and only if these say a number below m |
| VarIntCodec.SecondZero | src/utils/serialize.h:345-416 | so in every unsigned type zero can be read from two encodings |
| VarIntCodec.DigitsSize | src/utils/serialize.h:345-383 | k bytes are enough exactly for the numbers below 128 + 128^2 + ... + 128^k |
| VarIntCodec.DocumentedSizes | src/utils/serialize.h:345-366 | the listed sizes: one, two and three bytes, each exactly in its range |
| VarIntCodec.Documented16511 | src/utils/serialize.h:359-366 | 16511 takes the two bytes FF 7F, not three |
| AmountCodec.CompressAmount | src/compressor.cpp:146-163 | the code of the amount, in 64 bits; nothing is lost up to the largest amount of money |
| AmountCodec.DecompressAmount | src/compressor.cpp:165-189 | the amount of the code, in 64 bits |
| AmountCodec.AmountRoundTrip | src/compressor.cpp:138-189 | decompressing a compressed amount gives it back, for all amounts |
| AmountCodec.CodeRoundTrip | src/compressor.cpp:138-189 | compressing a decompressed code gives it back: without a width the two are inverse bijections |
| AmountCodec.AmountBack64 | src/compressor.cpp:138-189 | in 64 bits an amount comes back if its code fits them |
| AmountCodec.CodeBack64 | src/compressor.cpp:138-189 | and a code comes back if its amount fits them |
| AmountCodec.MoneyFits | src/compressor.cpp:138-163 | the code of every amount up to MAX_MONEY does |
| CoinsCodec.SpecialBack | src/compressor.cpp:13-135 | each special script is rebuilt from its code and data of the size GetSpecialSize says |
| CoinsCodec.ScriptBack | src/compressor.h:58-88 | a script, or its replacement if it is oversize, is read back with the rest of the stream untouched if and only if its size plus the six special codes fits 32 bits |
| CoinsCodec.OutBack | src/compressor.h:106-120 | an output whose amount code and script size fit their types is read back |
| CoinsCodec.MoneyOut | src/compressor.h:106-120 | so is every output of an amount up to MAX_MONEY whose script size fits |
| CoinsFormat.HashCodes | src/compressor.cpp:49-111 | code 0 is pay-to-pubkey-hash and code 1 pay-to-script-hash, for all hashes, written and read |
| CoinsFormat.KeyCodes | src/compressor.cpp:49-118 | codes 2 and 3 are the compressed keys with that first byte, written and read |
| CoinsFormat.FullKeyCodes | src/compressor.cpp:49-132 | codes 4 and 5 are full keys, of which the parity of the last byte is kept, written and read |
| CoinsFormat.PlainScript | src/compressor.h:58-88 | any other script follows its size plus six |
| CoinsFormat.DocumentedNumbers | src/coins.h:36-68 | the numbers of the documented records, byte for byte |
| CoinsFormat.DocumentedAmounts | src/coins.h:36-68 | the compact amounts of the documented records |
| CoinsFormat.FirstExample | src/coins.h:36-48 | the first documented encoding is that of the documented record |
| CoinsFormat.FirstRead | src/coins.h:36-48 | and is read back as it, followed by any stream |
| CoinsFormat.SecondExample | src/coins.h:51-68 | the second documented encoding is that of the documented coinbase with outputs 4 and 16 |
| CoinsFormat.SecondRead | src/coins.h:51-68 | and is read back as it, followed by any stream |
| CoinsRecord.CalcMaskSize | src/coins.cpp:21-37 | the mask bytes up to the last one in use, and how many of them are not zero |
| CoinsRecord.SomethingLeft | src/coins.h:141-169 | the assertion in Serialize holds of every record that is not pruned |
| CoinsRecord.MasksBack | src/coins.h:141-202 | the reader, counting nonzero mask bytes, stops exactly where the writer stopped |
| CoinsRecord.Serialize | src/coins.h:141-169 | the loops write the encoding of the record |
| CoinsRecord.Unserialize | src/coins.h:170-202 | the loops decode any byte stream, or fail where it ends |
| CoinsRecord.RecordBack | src/coins.h:141-202 | every record in the range of its types that is not pruned is read back cleaned up, followed by any stream |
| CoinsRecord.RecordExact | src/coins.h:141-202 | it comes back otherwise unchanged if and only if version and height are not negative and no unspent script is oversize |
| AddrBook.TriedBucket | src/addrman.cpp:12-17 | the bucket is in range |
| AddrBook.NewBucket | src/addrman.cpp:19-25 | the bucket is in range |
| AddrBook.Position | src/addrman.cpp:27-31 | the position is in range |
| AddrMan.TerribleExact | src/addrman.cpp:33-51 | IsTerrible in signed terms, both directions: a time in the future is terrible however near |
| AddrMan.AddrMan.constructor | src/addrman.h:441-464 | empty tables under a key satisfy every condition |
| AddrMan.AddrMan.Find | src/addrman.cpp:75-86 | finds exactly the addresses in the map, and their entry |
| AddrMan.AddrMan.Create | src/addrman.cpp:88-98 | a new entry with its place in the random order, in no table yet |
| AddrBook.CreatedKeeps | src/addrman.cpp:88-98 | the conditions Check_ tests hold after Create, the entry being in limbo |
| AddrMan.AddrMan.SwapRandom | src/addrman.cpp:100-118 | two entries change places in the random order, and know it |
| AddrBook.SwappedKeeps | src/addrman.cpp:100-118 | the conditions hold after SwapRandom |
| AddrMan.AddrMan.Delete | src/addrman.cpp:120-132 | the entry is gone from all maps, the random order closed over it |
| AddrBook.DeletedKeeps | src/addrman.cpp:120-132 | the conditions hold after Delete |
| AddrMan.AddrMan.ClearNew | src/addrman.cpp:134-147 | the slot is empty; its occupant has one reference less, and is gone exactly if that was the last |
| AddrMoves.EmptiedKeeps | src/addrman.cpp:134-147 | emptying a slot keeps the conditions; at the last reference the entry is in limbo |
| AddrMoves.FilledKeeps | src/addrman.cpp:246-312 | filling an empty slot of the entry keeps the conditions and takes it out of limbo |
| AddrMan.AddrMan.Withdraw | src/addrman.cpp:149-161 | every slot holding the entry is emptied, and its reference count ends at 0 |
| AddrMoves.WithdrawnKeeps | src/addrman.cpp:149-195 | the conditions hold with the entry in limbo |
| AddrMan.AddrMan.Evict | src/addrman.cpp:167-190 | the occupant of the tried slot moves to its own new slot, whose occupant loses a reference |
| AddrMoves.EvictedKeeps | src/addrman.cpp:149-195 | the conditions hold with the evicted entry in limbo |
| AddrMoves.PromotedKeeps | src/addrman.cpp:149-195 | the conditions hold when the entry enters its tried slot |
| AddrMan.AddrMan.MakeTried | src/addrman.cpp:149-195 | the entry is tried, in its slot and in no new slot, an evicted one is new again, all others are as they were, and every condition holds |
| AddrMan.SomewhereNew | src/addrman.cpp:197-244 | an entry that is not tried sits in some new bucket, at its own position |
| AddrMan.AddrMan.FindBucket | src/addrman.cpp:223-239 | the search from a random bucket always succeeds |
| AddrMan.AddrMan.Good | src/addrman.cpp:197-244 | a known address ends up tried with its times set; every condition of Check_ is kept, those on the times if and only if the given time is positive |
| AddrMan.GoodOutcome | src/addrman.cpp:197-244 | a good address ends up tried, in its slot and in no new one, with its times and attempts set and everything else as it was |
| AddrMan.AddrMan.Enter | src/addrman.cpp:290-312 | the entry takes the slot exactly if it is free or its occupant may go, and is deleted if it has no reference then |
| AddrMan.AddrMan.Refresh | src/addrman.cpp:255-283 | the entry is refreshed, and draws a further slot exactly if there is news of it, it is new, in fewer than eight buckets, and the random number is a multiple of 2 to the number of its buckets |
| AddrMan.AddrMan.Add | src/addrman.cpp:246-312 | new exactly for routable unknown addresses; a known one is refreshed and enters a further slot exactly if it draws one; every condition of Check_ is kept |
| AddrMan.OneMoreSlot | src/addrman.cpp:255-311 | a known entry that draws a free slot has one bucket more |
| AddrMan.NewcomerStays | src/addrman.cpp:283-311 | a new address is known afterwards if and only if its slot was free or the occupant terrible or in several buckets |
| AddrMan.OnlyTerribleYield | src/addrman.cpp:290-310 | a known entry displaces a terrible one only |
| AddrMan.OnlyTerribleGo | src/addrman.cpp:290-310 | nobody but a terrible entry with its last reference goes to make room |
| AddrMan.RefreshedTime | src/addrman.cpp:255-263 | refreshing brings the time of an entry within an hour, or a day, of what is reported, never back, and not before it lags |
| AddrMan.AddrMan.Attempt | src/addrman.cpp:314-331 | last try and attempts of a known address; the times stay acceptable if and only if the given time is not negative |
| AddrMan.AddrMan.Connected | src/addrman.cpp:497-515 | the time of a known address if more than twenty minutes old; every condition is kept |
| AddrBook.UpdateKeeps | src/addrman.cpp:398-472 | an update that keeps address, tables and position keeps the conditions |
| AddrMan.AddrMan.GetAddr | src/addrman.cpp:475-495 | the decent addresses among a random prefix, each once, up to the limit, and all of them if the limit is not reached; the order is exactly the one the random numbers draw |
| AddrMan.LimitBounds | src/addrman.cpp:475-479 | at most 2500 addresses and at most 23 of a hundred, and as many as that |
| AddrShuffle.MixedKeeps | src/addrman.cpp:482-488 | the draws only rearrange |
| AddrShuffle.EveryOrder | src/addrman.cpp:482-488 | every order can be drawn |
| AddrFile.WriteNews | src/addrman.h:278-330 | the new entries in the order of their ids, and the numbers of the ids |
| AddrFile.WriteTried | src/addrman.h:278-330 | the tried entries in the order of their ids |
| AddrFile.WriteBucket | src/addrman.h:278-330 | the numbers of the entries of a bucket, as many as announced |
| AddrFile.Serialize | src/addrman.h:278-330 | the loops write the image of the tables; neither assertion fails |
| AddrFile.Unserialize | src/addrman.h:332-437 | fails exactly on a wrong key size or a count out of range; otherwise the tables rebuilt from any image, entries without a reference pruned |
| AddrFile.RebuiltRandom | src/addrman.h:332-437 | whatever the image says, the random order lists each entry read once |
| AddrSaved.RankFinds | src/addrman.h:278-330 | the numbers written for the ids point back to them |
| AddrSaved.NewsBack | src/addrman.h:332-437 | the new entries are read back under their numbers |
| AddrSaved.TriedBack | src/addrman.h:332-437 | the tried entries are read back, each into its own slot, none lost |
| AddrSaved.RowsBack | src/addrman.h:332-437 | the buckets are read back, each index into the slot it came from |
| AddrSaved.BookRoundTrip | src/addrman.h:278-437 | what is written and read back are the same tables under new ids, nothing lost and nothing to prune |
| AddrReloaded.ReloadedConsistent | src/addrman.h:278-437 | the reloaded tables satisfy every condition the old ones did |
| AddrFile.SlotLimits | src/addrman.h:332-437 | a consistent manager never exceeds the counts the reader accepts |
| AddrFile.SaveAndLoad | src/addrman.h:278-437 | saving and loading succeeds and gives a consistent manager with the same tables under new ids |
| AddrLoaded.LoadedConsistent | src/addrman.h:332-437 | any file without double addresses, usable new table or not, gives a manager that satisfies every condition of Check_ |
| AddrLoaded.Load | src/addrman.h:332-437 | reading such a file succeeds exactly within the limits and leaves a valid manager |
| AddrLoaded.DoubleAddress | src/addrman.h:332-437 | a file with the same entry twice and an unusable new table gives a manager that fails Check_ |
| AddrLoaded.KeptBySource | src/addrman.h:360-379 | if the new table cannot be used, an entry is kept, in the slot its source gives it, exactly if no earlier entry has that slot |
| MerkleTree.NodeExists | src/merkleblock.h:65-67 | a node exists exactly if there is a transaction below it |
| MerkleTree.ChildrenDiffer | src/merkleblock.cpp:99-134 | the two subtrees of a node never hash alike when the transactions are distinct |
| MerkleTree.ExtractStored | src/merkleblock.cpp:80-134 | reading back what was stored for a node, among any other bits and hashes, uses exactly those and gives its hash and its matches; it is bad if and only if two siblings above a match hash alike |
| MerkleTree.ExtractSound | src/merkleblock.cpp:99-134 | for any bits and hashes: if the hash extracted for a node is the true one, the matches are transactions below it, in order |
| MerkleBlock.PartialMerkleTree.TreeHeight | src/merkleblock.cpp:136-151 | the loop finds the first height with a single node |
| MerkleBlock.PartialMerkleTree.TraverseAndBuild | src/merkleblock.cpp:80-97 | appends the bits and hashes of the node |
| MerkleBlock.PartialMerkleTree.constructor | src/merkleblock.cpp:136-151 | the object stores exactly the part of the tree the matches call for |
| MerkleBlock.PartialMerkleTree.TraverseAndExtract | src/merkleblock.cpp:99-134 | consumes bits and hashes as the specification does, on any input; bad input only sets the flag |
| MerkleBlock.PartialMerkleTree.ExtractMatches | src/merkleblock.cpp:158-190 | the size limits, the traversal and the final checks, on any input |
| MerkleBlock.Pack | src/merkleblock.h:86-108 | bit p of the bytes is bit p of the tree, least significant first; the padding is clear |
| MerkleBlock.Unpack | src/merkleblock.h:86-108 | bit p is bit p of the bytes |
| MerkleBlock.LowestFirst | src/merkleblock.h:86-108 | the first flag bit of a byte is its least significant one |
| MerkleBlock.OverTheWire | src/merkleblock.h:86-108 | packing and unpacking gives the bits back, padded to whole bytes |
| MerkleBlock.PartialMerkleTree.Reread | src/merkleblock.h:86-108 | an object read from its own serialization |
| MerkleBlock.RoundTripExactly | src/merkleblock.cpp:80-190 | for any list: building, packing, unpacking and extracting gives the merkle root, or fails if and only if two siblings above a match hash alike; and exactly the matched transactions, in order |
| MerkleBlock.RoundTrip | src/merkleblock.cpp:80-190 | it never fails for different transactions |
| MerkleBlock.NothingToSpare | src/merkleblock.cpp:180-190 | an accepted tree stays accepted with bits and hashes appended if and only if that is no hash and no bit that starts another byte |
| MerkleBlock.AcceptedBounds | src/merkleblock.cpp:158-190 | an accepted tree has between 1 and 33333 transactions, at least one hash and no more hashes than transactions or bits |
| MerkleTwins.SmallTrees | src/merkleblock.cpp:62-78 | the roots of two and of three transactions |
| MerkleTwins.RepeatedHash | src/merkleblock.cpp:62-78 | repeating the last of an odd number of transactions changes no hash above them |
| MerkleTwins.RepetitionRefused | src/merkleblock.cpp:99-134 | so the list with the last one repeated has the same root; but a tree of it that matches the repeated one is refused |
| MerkleBlock.Soundness | src/merkleblock.cpp:158-190 | for any object received: if the root is that of a list of as many transactions, the matches are taken from this list, in order |
| MerkleBlock.BuildAndExtract | src/merkleblock.cpp:136-190 | the same with the objects of the code at both ends of the wire |
| MerkleSize.BitCount | src/merkleblock.h:17-49 | bits = 2 * hashes - 1 + visited nodes with a single child |
| MerkleSize.BitsExact | src/merkleblock.h:17-49 | at most 2 * N - 1 bits for N hashes if and only if no visited node has a single child |
| MerkleSize.SinglesBound | src/merkleblock.h:17-49 | at most one such node per level |
| MerkleSize.HashesStored | src/merkleblock.h:17-49 | how many hashes there are, from the matches alone |
| MerkleSize.HashCount | src/merkleblock.h:17-49 | at most one hash per transaction |
| MerkleSize.HashBound | src/merkleblock.h:17-49 | at most 1 + matches * height hashes |
| MerkleSize.SizeExact | src/merkleblock.h:17-49 | for every block: the size guarantee holds if and only if 2 * N - 1 + S <= 2016 or S <= 1 + 8 * ((N + 3) / 4) - 2 * N, for the N hashes and S single children the matches give |
| MerkleSize.SizeKept | src/merkleblock.h:17-49 | it holds with at most one node that has a single child |
| MerkleSize.PromiseBroken | src/merkleblock.h:17-49 | it is broken by one byte for 2^15 + 1 matched transactions |
| MerkleSize.MoreBits | src/merkleblock.h:17-49 | three transactions, the last one matched: more than 2 * N - 1 bits |
| CheckQueue.Batch | src/checkqueue.h:127-191 | a batch takes at least one check, no more than there are, and no more than the limit unless it is one |
| CheckQueue.LockedInv | src/checkqueue.h:127-191 | taking the mutex and settling the last batch keeps the invariant |
| CheckQueue.SettleInv | src/checkqueue.h:127-191 | leaving, waiting or taking a batch keeps the invariant |
| CheckQueue.ExecInv | src/checkqueue.h:127-191 | running or skipping a check outside the mutex keeps the invariant |
| CheckQueue.AddInv | src/checkqueue.h:58-71 | adding checks keeps the invariant |
| CheckQueue.StepInv | src/checkqueue.h:58-191 | every step of any thread keeps the invariant: the counters are what they count, and every check added is queued, in a batch, run or skipped |
| CheckQueue.RunInv | src/checkqueue.h:58-191 | the invariant holds at the end of every run, for any number of threads and any interleaving |
| CheckQueue.RunOn | src/checkqueue.h:58-191 | every possible event continues the run: no counter goes below zero |
| CheckQueue.RoundOver | src/checkqueue.h:127-191 | with nothing left to do the verdict is about all the checks of the round |
| CheckQueue.MasterReturns | src/checkqueue.h:127-191 | the master returns true if and only if every check added since it last returned has run and passed, false only if one of them failed, and the next round starts clean |
| CheckQueue.NotForgotten | src/checkqueue.h:127-191 | a waiting master that has not been notified has work left; with the queue empty some worker holds a batch |
| CheckQueue.SomeoneUp | src/checkqueue.h:58-191 | in every run, with something queued and a worker asleep, another worker is awake or notified |
| CheckQueue.NothingMoreRun | src/checkqueue.h:127-191 | once everybody knows of a failure no check is run until the master returns |
| CheckQueue.FairBatch | src/checkqueue.h:166-171 | a batch is the largest within the limit that leaves as much for every other thread |
| BlockTree.LowestOne | src/chain.cpp:88-89 | takes the lowest one bit out of the number and nothing else |
| BlockTree.SkipHeight | src/chain.cpp:92-101 | the skip height is below the height |
| BlockTree.BuildSkip | src/chain.cpp:422-426 | keeps every skip pointer what it should be |
| BlockTree.GetAncestor | src/chain.cpp:109-140 | the walk over skip and parent pointers ends where the walk over parents alone ends; null exactly out of range; with all skip pointers in place its loop turns exactly Steps times |
| SkipWalk.StepsBound | src/chain.cpp:92-140 | below 2^k the loop never turns more than Longest(k) times |
| SkipWalk.Quadratic | src/chain.cpp:92-140 | which is at most (k^2 + 9k + 10) / 4 |
| SkipWalk.Documented110 | src/chain.cpp:96-101 | at most 110 turns between any two heights up to 2^18 |
| SkipWalk.Reached110 | src/chain.cpp:96-101 | and from 2^18 - 8 to 2 it takes all 110 |
| SkipWalk.TopReached | src/chain.cpp:92-140 | from 2^k - 1 to 2 it takes exactly FromTop(k) |
| BlockTree.MeetOnce | src/chain.cpp:437-471 | branches that agree at a height agree at every lower one |
| BlockTree.FindLastCommonAncestor | src/chain.cpp:437-471 | the highest block both have, null exactly if there is none |
| ActiveChain.Chain.SetTip | src/chain.cpp:26-46 | entry h is the ancestor of the tip at height h for all h: stopping at the first match loses nothing |
| ActiveChain.ContainsExact | src/chain.h:397-460 | Contains tells exactly the ancestors of the tip |
| ActiveChain.MoreBlocks | src/chain.cpp:26-46 | new blocks in the index leave the chain as it is |
| ActiveChain.Chain.FindFork | src/chain.cpp:79-86 | the highest block of the chain below the given one, null exactly if there is none |
| ActiveChain.GetLocator | src/chain.cpp:48-77 | the listed blocks, by chain lookup or by GetAncestor, are the same |
| ActiveChain.ListedAt | src/chain.cpp:48-77 | they are the ancestors at the scheduled heights |
| ActiveChain.LocatorShort | src/chain.cpp:48-77 | from a height below 10 + 2^k at most 11 + k blocks are listed |
| ActiveChain.LocatorStart | src/chain.cpp:48-77 | it starts with a dozen blocks in a row |
| ActiveChain.LocatorReaches | src/chain.cpp:48-77 | the first listed height at or below any other one misses it by less than that one is away from the start |
| MedianTime.GetMedianTimePast | src/chain.cpp:473-485 | the median of the last eleven times, or as many as there are |
| MedianTime.MedianUnique | src/chain.cpp:473-485 | there is one median, and it is one of the times |
| MedianTime.MiddleIsMedian | src/chain.cpp:473-485 | the middle entry of the sorted times is the median |
| MedianTime.MedianGrows | src/chain.cpp:473-485 | a block not older than its parent's median does not lower the median |
| MedianTime.MedianNeverFalls | src/chain.cpp:473-485 | then the median never falls along the chain |
| OrphanPool.OrphanTxManager.AddOrphanTx | src/orphan-tx.cpp:24-63 | added exactly if unknown and not too big; the index by parents stays exact |
| OrphanPool.OrphanTxManager.EraseOrphanTx | src/orphan-tx.cpp:91-106 | exactly this orphan goes; the index stays exact |
| OrphanPool.OrphanTxManager.EraseOrphansFor | src/orphan-tx.cpp:66-83 | exactly the orphans of the peer go |
| OrphanPool.OrphanTxManager.LimitOrphanTxSize | src/orphan-tx.cpp:114-130 | the pool is cut to the limit and no further; the ids drawn are gone; the number evicted is returned |
| OrphanPool.OrphanTxManager.TryChildren | src/orphan-tx.cpp:195-260 | every orphan spending from the parent is tried, unless its peer has misbehaved |
| OrphanPool.OrphanTxManager.ProcessOrphanTxs | src/orphan-tx.cpp:195-260 | every orphan spending from an accepted transaction is tried again after it, unless its peer was punished; exactly the peers of refused invalid orphans are punished; exactly the settled orphans leave the pool |
| OrphanPool.NothingMissed | src/orphan-tx.cpp:195-260 | an orphan that needs only what is known or what it spends from is not left behind: if it stays, something it needs is neither known nor accepted |
| OrphanPool.NothingMissedExactly | src/orphan-tx.cpp:195-260 | that holds in every run if and only if the orphan needs nothing but what is known or what it spends from |
| OrphanPool.Overlooked | src/accept_to_mempool.cpp:525-534 | an orphan that waits for a transaction it does not spend from is not tried when that one is accepted, and stays |
| OrphanPool.Overlook | src/orphan-tx.cpp:195-260 | such an orphan put into an empty pool is still there after that transaction was processed |

## Left out

- LegRoast's power-residue variant: the same protocol over another symbol, not modelled.
- LegRoast.Signer.Verify: takes a signature of the size the parameters demand, as four structured messages with functions to their bytes; parsing the byte buffer, and that operands inside it are reduced in place, are not modelled.
- LegRoast's unforgeability: probabilities over challenges are not modelled; of dishonest signers LegRoastSoundness says what two answers reveal and which challenges pass.
- LegRoast's public-key helpers, OpenSSL contexts, memory allocation and error strings.
- Anchors, best-block and best-anchor hashes, and memory-usage counters of the coins caches.
- CoinsCache.CoinsViewCache.Flush: several children over one parent cache at a time are not modelled; a stack is linear.
- CoinsTip.CheckTransaction: versions, sizes, expiry, the script of a coinbase and shielded proofs are left out.
- CoinsTip.ConnectBlock: scripts, signature operations, anchors, checkpoints and masternode payments are left out, and reading and writing blocks, undo data and the insight indexes on disk.
- CoinsTip.CheckBlock: the header, the merkle root, sizes and the Pastel ID of the miner are left out.
- CoinsTip.CheckTxInputs: anchors are left out.
- CoinsChain.ChainState.DisconnectTip: the memory pool, wallets and tickets are left out.
- CoinsChain.ChainState.ConnectTip: the memory pool, wallets, tickets and the choice of the best chain are left out.
- CoinsSupply.NoInflation: the shielded pool counts as what was paid in less what was taken out; that no more is taken out than paid in is up to the proofs.
- CoinsBlock.GetValueIn: 64-bit wrap-around of the sum is not modelled; amounts in the view have passed CheckTransaction.
- CoinsBlock.NullifiersUnspent: the half about anchors is left out, as anchors are.
- AmountCodec.AmountBack64: that no other amount or code comes back is not stated; for codes that is not a condition one could check before the call.
- Priority of transactions (GetPriority), and dumping or reporting statistics of the database.
- The address manager's Select_ and GetChance: a random choice weighted with floating point numbers.
- The method Check_ itself: its conditions are the predicates Consistent and GoodTimes; the key is not checked for being null.
- AddrLoaded.LoadedConsistent: one way; a file with double addresses may or may not load to a consistent manager, as pruning happens to remove all entries with an address or not.
- AddrFile.Serialize: writes a structured image; the bytes of addresses and integers in it are not modelled.
- AddrMan.AddrMan.GetAddr: the random numbers are an arbitrary function, so nothing is said about distribution.
- The bucket tables of the address manager are one-dimensional arrays, bucket by bucket.
- CMerkleBlock and its bloom filter, and the network messages.
- MerkleBlock.PartialMerkleTree.ExtractMatches: heights and positions do not wrap at 32 bits; the size limit it checks keeps them far below that.
- CheckQueue.NotForgotten: that a notified thread is scheduled in the end, and that stopped threads exit, are liveness claims and not stated.
- Block index fields other than parent, skip pointer, height and time; chain work; Genesis, Next and Height.
- MedianTime.GetMedianTimePast: std::sort is the function Ordered, shown to sort and to keep the times.
- OrphanPool.OrphanTxManager.ProcessOrphanTxs: relaying, logging, the reject filter and the scoring of peers are left out; admission is a function of what has been accepted.
- Mining, wallet, consensus rules, tickets, RPC, networking, asyncrpcqueue, limitedmap and fee rates: outside the core modelled here.
