# Vapor: a verified model

A Dafny model of the parts of the Vapor node and its tools whose correctness is hardest to see from
the code, with proofs of what they are for.

- **The chain** (`BlockTree`, `Quorum`, `ChainState`, `ChainSafety`, `ChainRecord`, `Chain`, `Ledger`, `Store`): a
  node stores a tree of blocks, collects consensus-node signatures, marks a block irreversible past
  two thirds, and reorganises between branches. `ChainState` gives each step as a relation between
  states; `ChainSafety` proves what every run of steps keeps; `ChainRecord` proves that what is stored
  was checked and exactly when a message changes the chain; the class in `Chain` runs the steps in
  place and is tied to the relation. `Ledger` follows the chain with any state that can be applied
  and detached block by block. `Store` is the database behind its caches.
- **The Equity compiler** (`Arithmetic`, `Machine`, `Optimizer`, `Codegen`, `ExprCompiler`, `ClauseCompiler`,
  `ContractCompiler`, `Generator`, `ExprParser`, `Meanings`, `Reading`): checked 64-bit arithmetic, a stack machine, the
  peephole optimiser, code generation over a symbolic stack, the deferred VERIFY, the selector dispatch, and the
  precedence-climbing parser. `Generator` is the compiler as it runs, changing its builder and its
  use counts in place. `Meanings` says in whole numbers, bits and bytes what each operator computes, and
  `Reading` what small expressions evaluate to once parsed.
- **Addresses** (`Bech32`, `Bech32Strings`, `Bech32Codec`, `Bech32Vector`, `BitGroups`, `SegWit`): the sections
  "Bech32" and "Segwit address format" of BIP 173.
- **Outputs** (`CoinSelection`, `UtxoKeeper`, `MergeChain`, `ReserveChain`): choosing, reserving and
  merging outputs.
- **Recovery** (`Recovery`): the look-ahead search over accounts and addresses.

`Options` and `Collections` hold what several modules share.

## Reading the model

- A hash is an id; different blocks have different ids. Signature checking, transaction-level
  validation, the consensus nodes that follow a block and the key of this node are given by `Env`.
  The consensus nodes are a function of the previous block's hash;
  `Ledger.ReorganizeConsensusResult` is the reason why they can be.
- Each chain step is atomic. A parameter `fail` says at which block of a reorganisation, if any, the
  ledger or the database gives an error; in a signature message, 0 stands for the header write and
  what comes after it counts from 1.
- `Ledger` asks of a ledger only that detaching a block undoes applying it (`Undoes`).
- The machine's number format, its open opcodes and its opcode table are fields of `Context`, and
  `Standard` says what they are; hashes, signature checks and the block height stay open. This keeps the proofs from opening definitions they do not need. For
  the same reason the Bech32 proofs are carried out over words, bytes and codecs with stated laws
  (`Bech32.Lawful`, `BitGroups.Lawful`, `Bech32Strings.Lawful`), and 32-bit words, 8-bit bytes and the
  alphabet of BIP 173 are shown to obey them.
- Stacks are written top first. `Names` is the text the compiler attaches to a computed stack entry;
  nothing depends on it.

## What the code does that one might not expect

- A reorganisation that is given up keeps the signatures this node made on the way
  (`ChainSafety.ReorganizeSafe`).
- Saving a block does not clear the header and transaction caches. Cached reads stay right exactly
  when nothing else is cached under the block's hash (`Store.Store.SaveBlock`); `Store.StaleAfterResave`
  is a case in which they do not.
- A selector that names no clause but is true enters clause 1; above two clauses a selector that is
  no number fails (`ContractCompiler.DispatchRuns`).
- A clause without a verify that is not a lone unlock makes no code at all
  (`ClauseCompiler.BareClause`).
- Choosing outputs for the amount zero crashes as soon as an output is available
  (`CoinSelection.Choose`). Otherwise the choice is a window of the outputs ranked by amount, fixed by
  the ranking (`CoinSelection.LastWindowUnique`).
- An output that the store lists and that is still filed as unconfirmed is looked at twice, so a
  request may take it twice and count its amount twice (`UtxoKeeper.ReservedTwice`). The outputs taken
  are distinct for every amount exactly when the usable ones that are worth something are
  (`CoinSelection.ChosenDistinct`, `CoinSelection.WholeDistinct`), and so whenever the store's list is
  distinct and holds no unconfirmed output (`UtxoKeeper.Keeper.Reserve`).
- Merging subtracts the gas from unsigned numbers without looking. The final amount is right exactly
  when the outputs cover the gas and what is left fits 64 bits (`MergeChain.FinalRight`).
- Division drops the fraction and the remainder is taken downwards, so they fit together only for
  equal signs or without a remainder (`Codegen.DivideModulo`).
- A program that runs out of stack may run through once it is optimised (`Optimizer.UnderflowLost`).
- The encoder of addresses does not compare the prefix. One with capitals passes when the whole string
  is in capitals and the checksum is the same in lower case (`SegWit.AddressExact`). It never is for a
  prefix of up to six characters (`SegWit.ShortPrefixExact`).
- A minus sign printed in front of a literal that is not negative is read back as part of the literal
  (`ExprParser.PrintThenParse`).
- Bits left over by a conversion are accepted only up to four, so regrouping with padding and back is
  the identity exactly when the padding is that short and shorter than a group
  (`BitGroups.RegroupBack`).

## Model

| member | source | states |
|---|---|---|
| BlockTree.ForkIsLowestCommonAncestor | protocol/block.go:57-87 | two blocks share their ancestor at a height exactly when that height is at most the fork height |
| BlockTree.BranchAt | protocol/block.go:57-87 | a branch lists the ancestors above its start, oldest first |
| BlockTree.UnwindAt | protocol/block.go:57-87 | an unwinding lists them newest first |
| BlockTree.CalcReorganizeChain | protocol/block.go:57-87 | terminates with the branch from the fork up to the one block, oldest first, and the branch from the other block down to the fork |
| BlockTree.ForkWithParent | protocol/block.go:489-492 | connecting a child of the best block is the reorganisation with nothing to detach |
| Quorum.QuorumsIntersect | protocol/bbft.go:70-84 | two sets of orders past two thirds have an order in common |
| Quorum.EnoughGrows | protocol/bbft.go:70-84 | more signatures do not undo two thirds |
| Quorum.MarkExact | protocol/bbft.go:83 | the test on a rounded quotient is exactly the mark of more than two thirds |
| Quorum.OverlapPastThird | protocol/bbft.go:70-84 | two sets of orders past the mark share more than a third of all orders |
| Quorum.HonestInBoth | protocol/bbft.go:70-84 | so whichever third are faulty, one that is not is in both |
| Quorum.HonestSuffice | protocol/bbft.go:70-84 | the others reach the mark by themselves when less than a third are faulty |
| Quorum.CountReachesTwoThirds | protocol/bbft.go:70-84 | the counting loop answers whether three times the orders that signed exceed twice their number |
| ChainSafety.AddSignatureSafe | protocol/bbft.go:32-60 | a signature by a key without a rival block of that height keeps the store free of double signs |
| ChainSafety.StaysIrreversible | protocol/bbft.go:70-84 | an irreversible block stays so under more signatures |
| ChainSafety.SignSelfSafe | protocol/bbft.go:217-261 | this node's own signature keeps the store free of double signs |
| ChainSafety.SignAllSafe | protocol/bbft.go:217-261 | signing every block of a branch in turn adds signatures only and never a second one of this key at one height |
| ChainSafety.WriteIndexBranch | database/store.go:411-424 | writing a branch into the main-chain index changes exactly the heights of the branch, to its blocks |
| ChainSafety.ReindexExact | database/store.go:377-441 | after a status write the index holds the ancestors of the new best block and nothing above it, also when the new branch is shorter |
| ChainSafety.RaiseIrrIsHighest | protocol/block.go:289-331 | the raised block is the highest irreversible one attached, or the old one |
| ChainSafety.RaiseIrrOnBranch | protocol/block.go:289-331 | along a branch the raised block is at least as high as every irreversible block above the fork |
| ChainSafety.RefusedIff | protocol/block.go:345-348 | a reorganisation is refused exactly when it would detach the irreversible block without a higher one |
| ChainSafety.SetStateSafe | protocol/protocol.go:318-331 | moving the best block to the end of a branch keeps the invariant, when the irreversible block stays at or below the fork or lies on the branch |
| ChainSafety.MayReplaceNotRefused | protocol/block.go:345-348 | a branch that leaves the irreversible block in place or holds a higher one is not refused |
| ChainSafety.CompletedSwitch | protocol/block.go:345-353 | a switch that is not refused keeps the invariant and has the highest irreversible block of the branch |
| ChainSafety.ReorganizeSafe | protocol/block.go:259-372 | a reorganisation keeps the invariant, either only adds signatures or switches, and does switch when nothing fails and the branch may replace the main chain |
| ChainSafety.SaveSafe | protocol/block.go:375-412 | saving a block keeps the invariant and loses nothing final |
| ChainSafety.MoveSafe | protocol/block.go:466-499 | connecting a block or switching to a longer branch keeps the invariant and loses nothing final |
| ChainSafety.TakenSafe | protocol/bbft.go:171-207 | a signature that is taken keeps the invariant |
| ChainSafety.SwitchSafe | protocol/bbft.go:102-111 | the switch to the longest tail keeps the invariant and loses nothing final |
| ChainSafety.SignatureSafe | protocol/bbft.go:171-207 | so does a signature message, with the switch it may cause and whatever fails on the way |
| ChainSafety.StepSafe | protocol/block.go:466-499 | every step keeps the invariant and loses nothing final |
| ChainSafety.InitialSafe | protocol/protocol.go:107-142 | the genesis chain has the invariant |
| ChainSafety.StepsFinal | protocol/block.go:345-353 | finality between any two moments of any sequence of steps from a state with the invariant |
| ChainSafety.ReachableSafe | protocol/bbft.go:32-84 | in every reachable state no key has signed two stored blocks of one height, the index is exact and the irreversible block is on the main chain |
| ChainSafety.RunFinal | protocol/block.go:345-353 | between any two moments of a run the irreversible height does not fall, and a main-chain block at or below it is replaced only under a strictly higher irreversible block |
| ChainSafety.NeverBothIrreversible | protocol/bbft.go:70-84 | in no reachable state are two stored blocks of one height under the same consensus nodes both past two thirds |
| ChainSafety.AboveFork | protocol/bbft.go:86-113 | a stored block off the main chain lies above the fork of its tail |
| ChainSafety.ForkBlockWins | protocol/bbft.go:86-113 | a fork block past two thirds above the irreversible block: the new best block is a highest stored descendant of it and the main chain contains it |
| ChainRecord.SignSelfExact | protocol/bbft.go:217-261 | this node signs exactly when it is a consensus node after the parent, has not signed the block and no other of that height; the slot then holds its signature of the block and nothing else changes |
| ChainRecord.SignAllExact | protocol/bbft.go:217-261 | signing a branch signs each of its blocks as it would be signed alone, and no other |
| ChainRecord.SavedGenuine | protocol/bbft.go:118-167 | the signatures kept with a saved block verify, and the blocker's is among them |
| ChainRecord.SaveChecked | protocol/block.go:375-412 | saving keeps every stored signature one that verifies and every stored block valid and signed by its blocker |
| ChainRecord.TakenChecked | protocol/bbft.go:171-207 | so does a signature that is taken |
| ChainRecord.ReorganizeChecked | protocol/block.go:259-372 | so does a reorganisation, whatever fails |
| ChainRecord.StepChecked | protocol/block.go:466-499 | so does every step |
| ChainRecord.InitialChecked | protocol/protocol.go:107-142 | the genesis chain starts that way |
| ChainRecord.ReachableChecked | protocol/bbft.go:62-68 | in every reachable state every signature of a consensus node on a stored block other than genesis verifies under that key, and every such block is valid and signed by its blocker |
| ChainRecord.IrreversibleSigned | protocol/bbft.go:70-84 | in every reachable state more than two thirds of the consensus nodes after the parent have a signature that verifies on the irreversible block |
| ChainRecord.StepsKeep | protocol/bbft.go:86-113 | over any steps a stored signature stays in its slot with its value |
| ChainRecord.StepsKeepRecord | protocol/bbft.go:62-113 | any steps keep the signatures, and what was checked stays checked |
| ChainRecord.SignatureKeepsRecord | protocol/bbft.go:171-207 | so does a signature message |
| ChainRecord.MainChainIs | protocol/protocol.go:207-219 | the main chain is the best block and its ancestors, the irreversible block among them |
| ChainRecord.SavedExactly | protocol/block.go:375-412 | a new block is stored exactly when its parent is stored and one lower, it is valid, all its signatures and those waiting for it verify, and its blocker has signed it and no other stored block of its height; otherwise nothing changes |
| ChainRecord.RecordedExactly | protocol/bbft.go:171-207 | a signature is recorded exactly when its key is a consensus node after the parent with an empty slot, it verifies and the key has signed no other stored block of the height; otherwise nothing changes |
| ChainRecord.MainBlockFinal | protocol/bbft.go:94-101 | a main-chain block above the irreversible one that a signature brings past two thirds becomes the irreversible block |
| ChainRecord.ChildMayReplace | protocol/block.go:487-490 | a child of the best block can always become the best block |
| ChainRecord.ReorganizeExactly | protocol/block.go:259-372 | without failure a reorganisation goes through exactly when the branch, signed by this node, leaves the irreversible block in place or holds a higher one; otherwise only signatures are added |
| ChainRecord.ReplacesExactly | protocol/block.go:345-348 | that is the opposite of being refused |
| ChainRecord.MovesExactly | protocol/block.go:487-498 | without failure the chain goes to a child of the best block always, to a higher block exactly when its branch may replace the main chain, and else stays as it is |
| ChainRecord.MovesWhenMay | protocol/block.go:487-498 | a branch that may replace the main chain before this node signs it does |
| Chain.Chain.constructor | protocol/protocol.go:63-142 | a new chain is in the initial state, with the invariant and nothing unchecked |
| Chain.Chain.CheckDoubleSign | protocol/bbft.go:32-60 | answers double sign exactly when the key has signed another stored block of the height, unless the consensus nodes of one cannot be told |
| Chain.Chain.IsIrreversible | protocol/bbft.go:70-84 | three times the orders that signed exceed twice the number of consensus nodes after the parent |
| Chain.Chain.ValidateSlot | protocol/bbft.go:132-160 | one slot: bad exactly when its signature is, else validated, with every other slot as it was |
| Chain.Chain.ValidateSlots | protocol/bbft.go:129-161 | the loop over the nodes, in any order, accepts exactly the blocks defined as accepted and leaves every slot validated: signatures taken in from the header and from those waiting, double signs dropped; only waiting signatures of these nodes are used up |
| Chain.Chain.ValidateSign | protocol/bbft.go:118-167 | accepts a block of positive height with a known parent exactly when its blocker has signed and no present signature is bad, and touches no signature waiting for another block |
| Chain.Chain.SaveBlock | protocol/block.go:375-412 | saves exactly the blocks the save step allows and takes the step |
| Chain.Chain.ApplyBlockSign | protocol/bbft.go:217-233 | adds this node's signature where it may sign, else nothing |
| Chain.Chain.SetState | protocol/protocol.go:318-331 | the new index, best and irreversible block |
| Chain.Chain.ConnectBlock | protocol/block.go:89-139 | does what a reorganisation to the block does |
| Chain.Chain.AttachBlock | protocol/block.go:325-331 | signs one block and raises the irreversible block to it when it is past two thirds and higher |
| Chain.Chain.AttachBlocks | protocol/block.go:290-343 | signs the branch block by block and finds the highest irreversible block on it; a failure leaves the signatures made before it |
| Chain.Chain.ReorganizeChain | protocol/block.go:259-372 | takes the reorganisation step, refusal and failure included |
| Chain.Chain.ProcessBlockSignature | protocol/bbft.go:171-207 | takes the signature step, a failing header write, status write or reorganisation included; keeps the invariant, the signatures and what was checked, and loses nothing final; for an unknown block it changes nothing but keeps a signature that verifies aside |
| Chain.Chain.ProcessStoredSignature | protocol/bbft.go:171-207 | the same for a stored block |
| Chain.Chain.TakeSignature | protocol/bbft.go:188-201 | a signature is taken exactly when its key is a consensus node without one on the block, it verifies and there is no rival block |
| Chain.Chain.UpdateBlockSignature | protocol/bbft.go:86-113 | records the signature and raises the irreversible block, or switches to the longest tail of a block that became irreversible off the main chain; after a failing write nothing further is done |
| Chain.Chain.ProcessBlock | protocol/block.go:466-499 | a block message is the save of the block, the saves of the waiting blocks in order and the move to a highest saved block; without failure the move is made exactly when it should be, so a saved child of the best block becomes the best block; the invariant, the signatures and what was checked are kept, nothing final is lost; an orphan, a known block and one that cannot be saved change nothing |
| Chain.Chain.SaveAndFollow | protocol/block.go:480-498 | the same for a new block whose parent is stored |
| Chain.Chain.SaveThenFollow | protocol/block.go:480-498 | the steps of that |
| Chain.Chain.FollowSaved | protocol/block.go:483-498 | what comes after the save |
| Chain.Chain.SaveTraced | protocol/block.go:480-482 | saving as one more step of a run |
| Chain.Chain.MoveTo | protocol/block.go:487-498 | connects a child of the best block, switches to a higher block whose branch may replace the main chain, else stays as it is |
| Chain.Chain.FollowTip | protocol/block.go:487-498 | that, as one more step of a run |
| Chain.Chain.SaveSubBlocks | protocol/block.go:414-437 | every waiting block is looked at in order and saved if it can be; returns a highest block among the given one and those saved |
| Chain.TraceLongestChainTail | protocol/protocol.go:227-250 | the breadth-first search terminates with a highest stored descendant |
| Chain.ChildrenOf | protocol/protocol.go:231-247 | the stored children of a block, each once |
| Chain.IndexBatch | database/store.go:411-434 | the two loops over the index write the branch and drop what lies above |
| Ledger.DetachStepsBack | protocol/consensus_node_manager.go:106-116 | detaching the tip leaves the ledger standing at its parent |
| Ledger.ApplyThenDetach | protocol/consensus_node_manager.go:106-128 | a block applies only where its parent is the tip, is detached to where the ledger stood, and no other block can be detached |
| Ledger.ApplyStepsForward | protocol/consensus_node_manager.go:118-128 | applying a child steps forward along the fold |
| Ledger.DetachDown | protocol/consensus_node_manager.go:106-116 | detaching down to a height leaves the ledger standing at the ancestor of that height |
| Ledger.ApplyUp | protocol/consensus_node_manager.go:118-128 | applying a branch leaves the ledger as the fold of the blocks up to its end, or fails exactly when that fold does |
| Ledger.ReorganizeConsensusResult | protocol/consensus_node_manager.go:95-130 | from wherever on the tree it stood, the vote result ends as the fold of the blocks from genesis to the target, or fails exactly when that fold does |
| Ledger.FoldFromGenesis | protocol/protocol.go:262-315 | a fold that starts at genesis is the fold of all blocks |
| Ledger.DetachToMain | protocol/protocol.go:287-298 | goes back to the main chain along the fold |
| Ledger.ApplyMain | protocol/protocol.go:300-312 | applies the main chain above the tip, or fails exactly when the fold does |
| Ledger.SyncProtocolStatus | protocol/protocol.go:262-315 | a sub-protocol ends as the fold of the blocks up to the best one: from genesis if it has a status, else from what it makes of the block at its start height; it fails exactly when that fold does; below its start height nothing happens |
| Store.MirrorsPut | database/store.go:364-375 | a cache still mirrors a table after a write exactly when it does not hold another value under the key |
| Store.Store.constructor | database/store.go:210-235 | a new store has empty caches, which are right |
| Store.Store.Evict | database/cache.go:28-42 | dropping any entries from any of the five caches keeps them right |
| Store.Store.LookupBlockHeader | database/cache.go:60-78 | the cached read answers the direct read and keeps the caches right |
| Store.Store.LookupBlockTxs | database/cache.go:80-98 | the same for transactions |
| Store.Store.LookupConsensusResult | database/cache.go:100-119 | the same for vote results |
| Store.Store.LookupMainChainHash | database/cache.go:121-140 | the same for the main-chain index |
| Store.Store.LookupBlockHashesByHeight | database/cache.go:142-161 | the same for the hashes of a height |
| Store.Store.SaveBlock | database/store.go:316-362 | what is written, transaction status included, and exactly when the caches stay right |
| Store.SavedReads | database/store.go:316-362 | a saved block, its transactions and their status are read back under its hash, its hash is listed last at its height, and everything else reads as before |
| Store.StaleAfterResave | database/store.go:316-362 | a block saved again under a cached header makes the cached read differ |
| Store.Store.SaveBlockHeader | database/store.go:364-375 | what is written; the caches stay right |
| Store.Store.SaveChainStatus | database/store.go:377-441 | what is written in one batch, the output view included; the caches stay right |
| Store.StatusReads | database/store.go:397-409 | the status written names the best and the irreversible block; blocks are left alone |
| Store.IndexReads | database/store.go:411-434 | heights not written keep their entry, but none is left above the best block up to the old one |
| Store.IndexWritten | database/store.go:411-424 | a height written has the hash of the last header written for it |
| Store.ResultsReads | database/store.go:385-396 | a round has the last vote result written for it, or what it had |
| Store.PutResultsLoop | database/store.go:385-396 | writes the vote results; every number changed is among those to clear |
| Store.PutMainLoop | database/store.go:411-434 | writes the index and drops what lies above; every height changed is among those to clear |
| Store.PutMainIsWriteIndex | database/store.go:411-424 | for headers of stored blocks the index written is the one of the chain |
| Store.SaveUtxoView | database/utxo_view.go:73-92 | the loop over a view, in any order, writes it: a normal output is kept while unspent, one from another chain once spent |
| Store.PutViewAt | database/utxo_view.go:73-92 | an output of the view has its entry, unless it is normal and spent or from another chain and unspent; those of other kinds always; outputs not in the view stay |
| Store.RoundStartIsNearest | protocol/protocol.go:145-175 | the round start is the nearest ancestor-or-self at a multiple of the round length |
| Store.WalkToRoundEnd | protocol/protocol.go:145-175 | the walk over parents ends at the round start |
| Store.RoundMemo.GetPrevRoundVoteBlockHash | protocol/protocol.go:145-175 | the memoised walk returns that block and keeps the memo right |
| Store.RoundMemo.StaysRight | protocol/protocol.go:145-175 | whatever blocks are saved in between, the memo stays right |
| Machine.Int64RoundTrip | protocol/vm/types.go:23-52 | pushing an integer and popping it gives it back over the whole 64-bit range |
| Machine.NumberTruth | protocol/vm/types.go:14-21 | a number is true exactly when it is not zero |
| Machine.DecodedFits | protocol/vm/types.go:37-52 | every number read is a 64-bit one |
| Arithmetic.AddExact | math/checked/checked.go:16-32 | the tests of addition and subtraction refuse exactly what does not fit |
| Arithmetic.MulExact | math/checked/checked.go:36-44 | the four tests of multiplication refuse exactly what does not fit |
| Arithmetic.DivExact | math/checked/checked.go:48-53 | division refuses exactly the one quotient that does not fit |
| Arithmetic.LshiftExact | math/checked/checked.go:75-83 | a shift to the left refuses exactly what does not fit |
| Arithmetic.ShiftDownIs | protocol/vm/numeric.go:270-287 | a shift to the right divides, downwards |
| Arithmetic.FloorModSize | protocol/vm/numeric.go:211-240 | the remainder is smaller than the divisor and has its sign |
| Arithmetic.DivModLaw | protocol/vm/numeric.go:188-240 | quotient and remainder fit together exactly for equal signs or without a remainder |
| Machine.TrueIsNonZero | protocol/vm/types.go:14-21 | a byte string is true exactly when it reads as a number other than zero |
| Machine.ExecFrame | protocol/vm/stack.go:33-312 | the same for one opcode as for straight-line code below |
| Machine.RunAppend | protocol/vm/vm.go:83-137 | straight-line code runs piece after piece |
| Machine.RunFrame | protocol/vm/stack.go:33-312 | more entries at the bottom of the stack do not matter to code that does not run out of it |
| Optimizer.RulesSound | equity/compiler/optimize.go:5-41 | each of the 33 rewrites shortens the code and keeps every run that does not run out of stack |
| Optimizer.CommuteRule | equity/compiler/optimize.go:5-41 | a swap before any commutative opcode may go |
| Optimizer.RewriteKeeps | equity/compiler/optimize.go:43-64 | one sound rewrite anywhere in a program with jumps and labels keeps the outcome of every run that does not run out of stack |
| Optimizer.ReplaceAllKeeps | equity/compiler/optimize.go:43-64 | so does replacing all matches of a rule |
| Optimizer.UnderflowLost | equity/compiler/optimize.go:5-41 | a program that runs out of stack and does not once it is rewritten |
| Optimizer.OccurrenceShrinks | equity/compiler/optimize.go:43-64 | where a left-hand side occurs the code gets shorter, so the loop ends |
| Optimizer.Optimize | equity/compiler/optimize.go:43-64 | terminates with code of the same outcome that holds no left-hand side |
| Optimizer.ApplyUntilStable | equity/compiler/optimize.go:43-64 | the same for any table of sound rules |
| Codegen.BinaryCodeRight | equity/compiler/builtins.go:33-60 | the opcodes of a binary operator compute it: comparisons, products, quotients, remainders and shifts of 64-bit numbers with overflow refused, equality and its opposite, logic, and bit operations on byte strings |
| Codegen.UnaryCodeRight | equity/compiler/builtins.go:69-75 | the opcodes of a unary operator compute it: the opposite number unless it does not fit, the opposite truth, the inverted bytes |
| Codegen.CheckTxSigRight | equity/compiler/builtins.go:17 | the signature builtin hands CHECKSIG its key, the signature hash and the signature in order |
| Codegen.SizeRight | equity/compiler/builtins.go:13 | the size builtin leaves the size alone |
| Codegen.HeightRight | equity/compiler/builtins.go:20-21 | the height builtins compare the argument, as a number, with the height |
| Codegen.BuiltinCodeRight | equity/compiler/builtins.go:10-23 | the opcodes of a builtin compute it, with the first argument on top; hashes, the signature check and the height stay open |
| Codegen.Opposites | equity/compiler/builtins.go:33-75 | in every expression the negation of ==, < and > is !=, >= and <= |
| Codegen.DivideModulo | equity/compiler/builtins.go:57-59 | dividing and taking the remainder fit together exactly for equal signs or without a remainder |
| Meanings.LittleEndian | protocol/vm/types.go:23-52 | bytes are digits to the base 256, the lowest first |
| Meanings.NumberFormat | protocol/vm/types.go:37-52 | up to eight bytes are a number, in two's complement of 64 bits; more are none |
| Meanings.ShortestBytes | protocol/vm/types.go:23-35 | a number is written without superfluous bytes |
| Meanings.TestsMean | protocol/vm/numeric.go:357-402 | on numbers the comparisons are >, <, >= and <= with the left operand first; otherwise they fail |
| Meanings.TestsRun | protocol/vm/numeric.go:357-402 | the code of a comparison leaves its truth |
| Meanings.HeightRuns | equity/compiler/builtins.go:20-21 | below is whether the block height is less than the argument, above whether it is more |
| Meanings.SumsMean | protocol/vm/numeric.go:128-186 | +, - and * give the sum, the difference and the product, and fail exactly when these need more than 64 bits |
| Meanings.ExtremesMean | protocol/vm/numeric.go:70-114 | the smaller, the larger, the opposite and the absolute number, and whether a number is zero; the lowest number has no opposite |
| Meanings.DivideMeans | protocol/vm/numeric.go:188-209 | division leaves a rest smaller than the divisor with the sign of the dividend; it fails exactly for zero and for the one quotient of 64 bits |
| Meanings.ModuloMeans | protocol/vm/numeric.go:211-240 | the remainder is congruent to the dividend, smaller than the divisor and has its sign |
| Meanings.ShiftsMean | protocol/vm/numeric.go:242-287 | shifts multiply by a power of two, unless that needs more than 64 bits, and divide by it, downwards; a negative distance fails |
| Meanings.ConnectivesMean | protocol/vm/numeric.go:289-328 | and, or go by whether the operands are other than zero |
| Meanings.AndMeans | protocol/vm/bitwise.go:28-54 | each bit of each byte, up to the end of the shorter string |
| Meanings.OrMeans | protocol/vm/bitwise.go:56-107 | each bit of each byte, for or and exclusive or, the shorter string followed by zeros |
| Meanings.InvertMeans | protocol/vm/bitwise.go:5-26 | each byte turned round |
| Meanings.PushdataReads | protocol/vm/pushdata.go:35-54 | the instruction that pushes a string states its length in the form for that length and then holds it; four bytes hold it modulo 2^32 |
| Meanings.ConcatMeans | protocol/vm/splice.go:5-29 | the second argument comes first |
| ExprCompiler.FindDeepest | equity/compiler/stack.go:84-105 | the counting search finds the deepest entry of a name |
| ExprCompiler.FindRoll | equity/compiler/stack.go:107-118 | moving another variable's entry to the top shifts a variable by at most one |
| ExprCompiler.RefCorrect | equity/compiler/compile.go:855-887 | a reference leaves the variable's value on top and loses it only after its last use |
| ExprCompiler.CompileCounts | equity/compiler/compile.go:861-866 | compiling an expression takes exactly its uses off the counts |
| ExprCompiler.ExprCorrect | equity/compiler/compile.go:599-832 | the code of an expression leaves its value on top, or fails exactly when it has none, and keeps every variable still needed where the symbolic stack says |
| ExprCompiler.UnaryCorrect | equity/compiler/compile.go:649-663 | the same for unary operators, although the code drops the new symbolic stack |
| ExprCompiler.BinaryCorrect | equity/compiler/compile.go:603-647 | the same for binary operators |
| ExprCompiler.ArgsCorrect | equity/compiler/compile.go:783-792 | the arguments leave their values on the stack, the first on top |
| ExprCompiler.CallCorrect | equity/compiler/compile.go:781-803 | the same for calls, whose arguments are compiled last to first |
| ClauseCompiler.TallyStmtsBounds | equity/compiler/compile.go:320-337 | the counts a clause starts with are at least its uses |
| ClauseCompiler.WholeEmit | equity/compiler/builder.go:19-31 | with a VERIFY held back counted in, adding opcodes just appends them |
| ClauseCompiler.VerifyRuns | equity/compiler/compile.go:504-509 | an expression and a VERIFY run through exactly when it holds and leave the variables in place |
| ClauseCompiler.TrailingVerify | equity/compiler/builder.go:19-31 | leaving the last VERIFY out does not change acceptance |
| ClauseCompiler.StmtsCorrect | equity/compiler/compile.go:504-509 | the statements run through exactly when all their verifies hold |
| ClauseCompiler.ClauseCorrect | equity/compiler/compile.go:295-355 | a clause with a verify is accepted exactly when every verify holds and never runs out of stack |
| ClauseCompiler.UnlockAccepts | equity/compiler/compile.go:588-593 | a lone unlock is accepted |
| ClauseCompiler.BareClause | equity/compiler/compile.go:588-593 | any other clause without a verify makes no code |
| ContractCompiler.ChosenIsSelector | equity/compiler/compile.go:242-254 | a selector that names a clause enters that clause |
| ContractCompiler.ChosenByNumber | equity/compiler/compile.go:229-254 | any number enters the clause it counts, or the second clause when there is none |
| ContractCompiler.ArgumentsNamed | equity/compiler/compile.go:206-216 | the names of a spend that fits stand for the arguments in the order given, of the contract and of the clause entered |
| ContractCompiler.Nameable | equity/compiler/compile.go:206-216 | arguments for distinct names can always be named |
| ContractCompiler.JumpToClause | equity/compiler/compile.go:242-263 | a jump to a clause name lands on that clause |
| ContractCompiler.SegmentRuns | equity/compiler/compile.go:256-278 | a clause entered runs its code and jumps over the others |
| ContractCompiler.TestsRun | equity/compiler/compile.go:242-252 | the tests of a selector lead to the clause chosen |
| ContractCompiler.DispatchRuns | equity/compiler/compile.go:229-279 | the contract body runs exactly the chosen clause's code with the selector gone; above two clauses a selector that is no number fails |
| ContractCompiler.ClauseAccepts | equity/compiler/compile.go:295-355 | a clause accepts exactly when its verifies hold, whatever lies below on the stack |
| ContractCompiler.ContractEnters | equity/compiler/compile.go:221-279 | the contract runs as the clause entered does, or fails for a selector that is no number |
| ContractCompiler.SpendCorrect | equity/compiler/compile.go:206-279 | one spend is accepted exactly when the contract allows it |
| ContractCompiler.ContractCorrect | equity/compiler/compile.go:206-279 | for every spend whose arguments fit, the compiled contract never runs out of stack and accepts exactly when every verify of the clause entered holds; a clause that makes no code goes by the top entry, and a selector that is no number fails above two clauses |
| ContractCompiler.OptimizedCorrect | equity/compiler/compile.go:281-285 | so does the optimised code |
| Generator.Generator.Add | equity/compiler/builder.go:19-31 | adds opcodes behind a VERIFY held back |
| Generator.Generator.AddVerify | equity/compiler/builder.go:19-31 | holds a VERIFY back |
| Generator.Generator.ForgetPendingVerify | equity/compiler/builder.go:71-73 | drops it |
| Generator.Generator.Reach | equity/compiler/builder.go:33-36 | adds a depth and the opcode that reaches it |
| Generator.Generator.CompileRef | equity/compiler/compile.go:855-887 | emits the reference and counts it down, or reports an undefined name |
| Generator.Generator.CompileExpr | equity/compiler/compile.go:599-832 | emits the expression's code, or reports an error exactly when it has none |
| Generator.Generator.CompileBinary | equity/compiler/compile.go:603-647 | the same for a binary operator, left operand first |
| Generator.Generator.CompileArguments | equity/compiler/compile.go:783-793 | emits the arguments last to first |
| Generator.Generator.CountVarRefs | equity/compiler/ast.go:185-280 | counts the references of an expression |
| Generator.Generator.CountStatements | equity/compiler/compile.go:320-337 | counts the references of a clause |
| Generator.Generator.CompileStatement | equity/compiler/compile.go:504-593 | emits a verify or unlock statement |
| Generator.Generator.CompileClause | equity/compiler/compile.go:295-355 | emits a clause behind the code already there |
| Generator.AddDispatch | equity/compiler/compile.go:229-279 | emits the dispatch and the clauses |
| Generator.AddTests | equity/compiler/compile.go:230-252 | emits the selector tests |
| Generator.AddClauses | equity/compiler/compile.go:256-278 | emits the clauses with their labels and jumps, or reports the first that has no code |
| Generator.GenerateContract | equity/compiler/compile.go:206-279 | emits the contract before optimisation, or reports an error exactly where it has no code |
| Generator.CompileContract | equity/compiler/compile.go:168-293 | refuses exactly the contracts without code; what it returns holds no left-hand side of a rewrite and accepts exactly the spends the contract allows |
| ExprParser.ExprSound | equity/compiler/parse.go:232-242 | what is parsed is a good tree with exactly the tokens read |
| ExprParser.ContSound | equity/compiler/parse.go:254-277 | the climbing loop reads good trees, stops only where no operator of the given strength follows, and what it built binds at least that tightly |
| ExprParser.UnarySound | equity/compiler/parse.go:244-252 | what is read as an operand is a good tree and no chain |
| ExprParser.InnerSound | equity/compiler/parse.go:264-273 | the inner loop builds right operands strictly tighter than their operator |
| ExprParser.ExprOk | equity/compiler/parse.go:232-242 | every good tree is parsed back from its tokens |
| ExprParser.ContOk | equity/compiler/parse.go:254-277 | the climbing loop rebuilds a good chain from its leftmost operand |
| ExprParser.InnerOk | equity/compiler/parse.go:264-273 | so does the inner loop |
| ExprParser.ParsesExactly | equity/compiler/parse.go:232-321 | the parser accepts a token sequence with a tree exactly when the tree is good and has these tokens |
| ExprParser.TreeUnique | equity/compiler/parse.go:232-321 | a token sequence has at most one good tree |
| ExprParser.PrintedGood | equity/compiler/ast.go:177-326 | what is printed has a good tree |
| ExprParser.PrintThenParse | equity/compiler/ast.go:177-326 | parsing the print of any expression gives it back with negated literals folded, so the very same exactly when it has none |
| ExprParser.Parser.Parse | equity/compiler/parse.go:232-242 | parses an expression and moves the position past it |
| ExprParser.Parser.constructor | equity/compiler/parse.go:42 | a parser starts at the first token |
| ExprParser.Parser.Unary | equity/compiler/parse.go:244-252 | parses a prefix operator with its operand |
| ExprParser.Parser.Cont | equity/compiler/parse.go:254-277 | runs the climbing loop; terminates |
| ExprParser.Parser.Inner | equity/compiler/parse.go:264-273 | runs the inner loop; terminates |
| ExprParser.Parser.Operand | equity/compiler/parse.go:279-294 | parses a literal, or a primary with its argument list |
| ExprParser.Parser.Primary | equity/compiler/parse.go:296-321 | parses parentheses, a list or a name |
| ExprParser.Parser.Items | equity/compiler/parse.go:323-338 | parses list items up to the closing token |
| ExprParser.Parser.Item | equity/compiler/parse.go:327-335 | parses one item, after a comma unless it is the first |
| ExprParser.ParseAll | equity/compiler/parse.go:232-321 | succeeds exactly on the token sequences of good trees, with that tree |
| Reading.TighterFirst | equity/compiler/builtins.go:33-60 | between three operands the operator of the tighter of the five levels takes its operands first, on either side |
| Reading.LeftFirst | equity/compiler/parse.go:254-277 | operators of one level are taken from the left |
| Reading.ReadInfix | equity/compiler/builtins.go:33-60 | an operator between two variables is read as that operator, a minus sign as the difference |
| Reading.ReadPrefix | equity/compiler/builtins.go:69-75 | a sign before a variable is read as the opposite, the negation or the inverse |
| Reading.ReadNumbers | equity/compiler/builtins.go:13-16 | min, max, abs and size, read by name, give those numbers |
| Reading.ReadHashes | equity/compiler/builtins.go:11-17 | sha3, sha256 and checkTxSig, read by name, call those opcodes |
| Reading.ReadJoins | equity/compiler/builtins.go:18-19 | concat and concatpush, read by name, join the second argument and the first |
| Reading.ReadHeights | equity/compiler/builtins.go:20-21 | below and above, read by name, compare the block height with the argument |
| Bech32.StepShift | common/bech32/bech32.go:213-225 | a difference below the top five bits is carried through a checksum step by a shift |
| Bech32.FoldShift | common/bech32/bech32.go:213-225 | symbols in place of zeros add exactly themselves, side by side |
| Bech32.ChecksumExact | common/bech32/bech32.go:195-248 | data verifies exactly when its last six symbols are the checksum of the others |
| Bech32.ChecksumVerifies | common/bech32/bech32.go:195-210 | the checksum made for any prefix and any data verifies |
| Bech32.StepInjective | common/bech32/bech32.go:213-225 | a checksum step tells any two 30-bit states apart |
| Bech32.BurstDetected | common/bech32/bech32.go:241-248 | data that verifies does not any more after a change within six symbols in a row, and so of any one symbol |
| Bech32.CapitalsDiffer | common/bech32/bech32.go:195-238 | a prefix of up to six characters has another checksum in capitals |
| Bech32.CharRoundTrip | common/bech32/bech32.go:114-123 | the character of every symbol translates back to it |
| Bech32.ValueRoundTrip | common/bech32/bech32.go:99-110 | a character that has a symbol is the character of it |
| Bech32.WordsLawful | common/bech32/bech32.go:213-225 | 32-bit words have the laws of shifting the checksum results ask for |
| Bech32Strings.DecodeEncode | common/bech32/bech32.go:14-96 | decoding undoes encoding exactly for non-empty printable prefixes without capitals and at most 90 characters |
| Bech32Strings.DecodesExactly | common/bech32/bech32.go:14-96 | what an encoded string decodes to under every prefix: the prefix in lower case and the data, exactly for printable prefixes, at most 90 characters, and no capitals or capitals that pass |
| Bech32Strings.EmptyPrefix | common/bech32/bech32.go:14-96 | an empty prefix encodes and does not decode |
| Bech32Strings.EncodeDecode | common/bech32/bech32.go:14-96 | whatever decodes is, in lower case, the encoding of what it decodes to |
| Bech32Strings.Bip173Lawful | common/bech32/bech32.go:8-10 | the alphabet and the checksum in use have the laws the two results above ask for |
| Bech32Codec.ComputePolymod | common/bech32/bech32.go:213-225 | the two nested loops compute the checksum word |
| Bech32Codec.PolymodStep | common/bech32/bech32.go:216-222 | the inner loop over the five generators is one checksum step |
| Bech32Codec.ExpandPrefix | common/bech32/bech32.go:228-238 | the two loops expand the prefix |
| Bech32Codec.ComputeChecksum | common/bech32/bech32.go:195-210 | the loop over the symbols gives the checksum |
| Bech32Codec.VerifyChecksum | common/bech32/bech32.go:241-248 | answers whether the data verifies |
| Bech32Codec.ToChars | common/bech32/bech32.go:114-123 | translates symbols, or reports a value that is none |
| Bech32Codec.ToBytes | common/bech32/bech32.go:99-110 | translates characters, or reports one that has no symbol |
| Bech32Codec.Bech32Encode | common/bech32/bech32.go:81-95 | encodes, or reports a value that is no symbol |
| Bech32Codec.Bech32Decode | common/bech32/bech32.go:14-76 | decodes, or reports an error exactly where the definition has none |
| Bech32Codec.CheckPrintable | common/bech32/bech32.go:22-28 | answers whether every character is printable |
| BitGroups.Extract | common/bech32/bech32.go:158-160 | shifting the highest bits of a byte in from below appends them |
| BitGroups.PackBits | common/bech32/bech32.go:127-192 | packing gets bytes back from their bits |
| BitGroups.BitsPacked | common/bech32/bech32.go:127-192 | the bits of the groups, then what is left over, are the bits given |
| BitGroups.Padded | common/bech32/bech32.go:127-192 | with padding nothing is lost: the bits given, then zeros |
| BitGroups.RegroupBack | common/bech32/bech32.go:127-192 | regrouping with padding and back is the identity exactly when the padding is at most four bits and shorter than a group |
| BitGroups.EightFive | common/bech32/bech32.go:127-192 | bytes to groups of five and back is the identity on every byte string, with ceil(8n/5) groups in between |
| BitGroups.ConvertBits | common/bech32/bech32.go:127-192 | the two nested loops regroup the bits, pad them or refuse them |
| BitGroups.AddByte | common/bech32/bech32.go:140-175 | the inner loop takes in the bits of one byte |
| BitGroups.OctetLawful | common/bech32/bech32.go:127-192 | 8-bit bytes have the laws the results above ask for |
| SegWit.SelfCheck | common/address.go:73-102 | the check inside the encoder never fails for what an address can carry |
| SegWit.Bip173Lawful | common/address.go:73-195 | the alphabet and the bytes in use have the laws the address results ask for |
| SegWit.AddressExact | common/address.go:73-195 | an address is made exactly for printable prefixes, the versions, program lengths and total lengths allowed, and no capitals in the prefix or capitals that pass |
| SegWit.ShortPrefixExact | common/address.go:73-195 | under a prefix of up to six characters, exactly for the above without capitals |
| SegWit.AddressLimits | common/address.go:73-195 | the same in numbers: characters 33 to 126 but no capitals, versions to 16, programs of 2 to 40 bytes, of 20 or 32 for version 0 |
| Bech32Vector.Alphabet | common/bech32/bech32.go:8 | the symbols are written with the letters of the alphabet in its order |
| Bech32Vector.VectorHolds | common/bech32/bech32_test.go:13 | the checksum of the prefix of a12uel5l over no data is its last six letters; it uses every generator |
| SegWit.VersionZero | common/address.go:73-195 | 20- and 32-byte version-0 programs under a short lower-case prefix encode and decode back |
| CoinSelection.LargestAreWorthMost | account/utxo_keeper.go:250-256 | no selection of m outputs is worth more than the m largest |
| CoinSelection.FewestNeeded | account/utxo_keeper.go:268-274 | the outputs taken up to the amount are the fewest that can reach it |
| CoinSelection.FindReplacement | account/utxo_keeper.go:276-288 | finds the shortest run of outputs that makes up for the largest within the desired count; if it finds none, the outputs in reach do not make up for it |
| CoinSelection.Replace | account/utxo_keeper.go:276-294 | trades the largest output, or the choice is made |
| CoinSelection.LookAt | account/utxo_keeper.go:268-294 | one turn of the loop takes the next output, trades, or has made the choice |
| CoinSelection.Choose | account/utxo_keeper.go:268-295 | reaches the amount whenever the available outputs do, with outputs none of which can be spared, no more than the fewest that suffice or five: the window of the ranking that starts at the last place from which five outputs reach the amount; crashes exactly for the amount zero with an output available |
| CoinSelection.ChosenInNumbers | account/utxo_keeper.go:268-295 | what is chosen reaches the amount, none of it can be left out, and there are at most five outputs or no more than in any other selection that reaches it |
| CoinSelection.LastWindowFive | account/utxo_keeper.go:276-294 | from no later start in the ranking do five outputs in a row reach the amount |
| CoinSelection.LastWindowUnique | account/utxo_keeper.go:268-295 | a ranking has one such window, so the choice is determined by it |
| CoinSelection.PickedDistinct | account/utxo_keeper.go:250-301 | any selection from distinct outputs is distinct |
| CoinSelection.ChosenDistinct | account/utxo_keeper.go:250-301 | what is chosen for an amount it reaches is distinct when the outputs worth something are |
| CoinSelection.WholeDistinct | account/utxo_keeper.go:250-301 | what is chosen for the whole amount is distinct only then |
| UtxoKeeper.OneHolder | account/utxo_keeper.go:52-63 | no output is in two live reservations |
| UtxoKeeper.AddConsistent | account/utxo_keeper.go:142-146 | recording a reservation of free outputs keeps the two tables in step |
| UtxoKeeper.AddExact | account/utxo_keeper.go:142-146 | recording a reservation keeps them in step exactly when its outputs were free |
| UtxoKeeper.DropConsistent | account/utxo_keeper.go:176-186 | taking one back keeps them in step and frees no other output |
| UtxoKeeper.ChosenPermuted | account/utxo_keeper.go:250-256 | what may be chosen does not depend on the order the outputs come in |
| UtxoKeeper.JoinedDistinct | account/utxo_keeper.go:224-240 | what is looked at is distinct exactly when the store lists distinct outputs and none of the unconfirmed ones |
| UtxoKeeper.AnsweredDistinct | account/utxo_keeper.go:114-147 | a request is served with distinct outputs when the usable ones worth something are distinct, for the whole of them only then |
| UtxoKeeper.FoundExactly | account/utxo_keeper.go:208-241 | the outputs found are those of the account, the asset and the vote whose height has come, as often as they were looked at; the immature total is that of the others of the account, the asset and the vote |
| UtxoKeeper.ServedWith | account/utxo_keeper.go:114-147 | a request is served with outputs of the account, the asset and the vote asked for, mature and reserved by nobody, worth the amount and the change |
| UtxoKeeper.AnswerMeans | account/utxo_keeper.go:114-133 | insufficient exactly when all outputs asked for are worth less, vote lock or immature when only the mature ones are, already reserved when only the free ones are, and served otherwise |
| UtxoKeeper.ReservedTwice | account/utxo_keeper.go:208-241 | an output worth 5, listed and unconfirmed, is reserved twice for 10 |
| UtxoKeeper.SortDescending | account/utxo_keeper.go:253-255 | sorts by falling amount, a permutation |
| UtxoKeeper.Keeper.constructor | account/utxo_keeper.go:65-75 | a new keeper holds no reservation |
| UtxoKeeper.Keeper.AddUnconfirmedUtxo | account/utxo_keeper.go:77-84 | files the outputs under their ids and leaves the others |
| UtxoKeeper.Keeper.RemoveUnconfirmedUtxo | account/utxo_keeper.go:105-112 | takes exactly the given ones away |
| UtxoKeeper.Keeper.ListUnconfirmed | account/utxo_keeper.go:94-103 | lists each unconfirmed output once |
| UtxoKeeper.Keeper.OptUtxos | account/utxo_keeper.go:250-301 | chooses among the free outputs, in whatever order they come, distinct ones from distinct ones, and totals the reserved ones |
| UtxoKeeper.Keeper.FindUtxos | account/utxo_keeper.go:208-241 | exactly the outputs of the account, the asset and the vote whose height has come, and the total of exactly the others of the account, the asset and the vote |
| UtxoKeeper.Keeper.LookUp | account/utxo_keeper.go:208-241 | and when what was looked at is distinct |
| UtxoKeeper.Keeper.Reserve | account/utxo_keeper.go:114-147 | the answer, change included, is the one the available, reserved and immature totals decide; the tables stay in step and change only on success; the outputs are distinct if the store lists distinct ones and no unconfirmed one, and that is exactly when all looked at are; what is taken is of the account, the asset and the vote asked for, mature, looked at and reserved by nobody |
| UtxoKeeper.Keeper.Serve | account/utxo_keeper.go:118-147 | the answer for the outputs found, and what it is served with |
| UtxoKeeper.Keeper.Record | account/utxo_keeper.go:135-146 | adds a reservation under a new id; the tables stay in step exactly when its outputs were free |
| UtxoKeeper.Keeper.ReserveParticular | account/utxo_keeper.go:149-174 | the answer for one given output; the tables stay in step exactly when the output the store gives was free, so whenever it is the one asked for |
| UtxoKeeper.Keeper.Cancel | account/utxo_keeper.go:176-186 | exactly the outputs of the reservation become free |
| UtxoKeeper.Keeper.ExpireReservation | account/utxo_keeper.go:197-206 | exactly the reservations whose time is not over stay, and exactly their outputs stay reserved |
| MergeChain.CalcMergeGas | account/builder.go:67-74 | the gas of ceil((n-1)/19) transactions, as a 64-bit number |
| MergeChain.PaysRight | account/builder.go:125 | a transaction pays its inputs but the gas exactly when they cover it and do not overflow |
| MergeChain.Conserved | account/builder.go:93-161 | what goes into the transactions comes out, but the gas, as 64-bit numbers |
| MergeChain.FinalAmount | account/builder.go:93-161 | the final output is worth the inputs but the gas of all transactions, as a 64-bit number |
| MergeChain.FinalRight | account/builder.go:93-161 | so it is right exactly when the inputs cover the gas and what is left fits 64 bits |
| MergeChain.CloseFull | account/builder.go:93-161 | closing a full transaction keeps what goes in equal to what was queued |
| MergeChain.CloseLast | account/builder.go:93-161 | closing the last one ends the chain with the number of transactions the gas was calculated for |
| MergeChain.BuildTxChain | account/builder.go:93-161 | for any amounts: every output but the last is spent once, in order, by ceil((n-1)/19) transactions of two to twenty inputs; the final amount as a 64-bit number; each transaction pays what it should when every amount covers the gas and all fit 64 bits |
| MergeChain.MergeLoop | account/builder.go:108-159 | the loop over the growing queue ends with what every turn keeps |
| ReserveChain.ServedIds | account/utxo_keeper.go:114-147 | a request above zero that is served takes at least one output, free before and looked at |
| ReserveChain.ReserveMore | account/builder.go:80-88 | one more reservation leaves fewer outputs free and adds its worth |
| ReserveChain.ReserveBtmUtxoChain | account/builder.go:76-91 | terminates; what is reserved covers the amount and the gas of merging it; all reservations made are known |
| ReserveChain.MergedCovers | account/builder.go:76-161 | merged, what was reserved gives an output of at least the amount |
| ReserveChain.ReservedDetermined | account/utxo_keeper.go:52-63 | the reservations determine which outputs are reserved |
| ReserveChain.Rollback | account/builder.go:86 | takes back exactly the reservations made |
| ReserveChain.ReserveAndRollback | account/builder.go:76-91 | a request that could not be met, taken back, leaves the tables as they were |
| Recovery.BranchStaysReady | wallet/recovery.go:75-102 | after a find and an extension the horizon is a window past the last index found |
| Recovery.AddScopesExact | wallet/recovery.go:260-285 | the accounts taken in are exactly those of the range |
| Recovery.AddFlatKeeps | wallet/recovery.go:200-209 | a BIP 32 account is taken in with its one branch |
| Recovery.FoundAccountKeeps | wallet/recovery.go:413-441 | reporting an account and extending the account horizon keeps the invariant |
| Recovery.FoundAddressKeeps | wallet/recovery.go:413-441 | reporting an address and extending its branch keeps the invariant and changes that branch only |
| Recovery.StepKeeps | wallet/recovery.go:323-340 | after every output each index below each horizon is watched and each horizon is a window ahead, on both levels |
| Recovery.RunKeeps | wallet/recovery.go:323-340 | so after any sequence of outputs |
| Recovery.RunTracks | wallet/recovery.go:323-340 | within the windows the next indices are those after the highest found |
| Recovery.ExtendAccountsReady | wallet/recovery.go:260-285 | extending the account horizon takes in derived accounts only and establishes the invariant, so every account below the horizon is watched |
| Recovery.AllRecognised | wallet/recovery.go:323-340 | in any sequence of outputs whose owned ones stay within their windows, exactly the owned ones are recognised |
| Recovery.WithinGaps | wallet/recovery.go:20-26 | the same with the windows in numbers, 128 addresses and six accounts |
| Recovery.RunTight | wallet/recovery.go:75-102 | over any outputs every horizon stays just one window ahead and nothing beyond it is watched |
| Recovery.GapExact | wallet/recovery.go:20-26 | as long as the owned outputs came within the windows, the next output is recognised if and only if it is owned and within 128 addresses and six accounts of what was found |
| Recovery.ResurrectTight | wallet/recovery.go:224-246 | a search started without accounts is one in which they are exact |
| Recovery.SeenIsOwned | wallet/recovery.go:323-340 | the outputs recognised are, in order, the owned ones |
| Recovery.ResurrectReady | wallet/recovery.go:224-246 | starting the account search establishes the invariant |
| Recovery.Manager.constructor | wallet/recovery.go:187-194 | a new manager has the invariant |
| Recovery.Manager.StateForScope | wallet/recovery.go:155-164 | gives an account its two branches unless it has them |
| Recovery.Manager.WatchFrom | wallet/recovery.go:315-319 | watches exactly the addresses of a range |
| Recovery.Manager.ExtendScanAddresses | wallet/recovery.go:303-321 | moves the horizon of a branch and watches the addresses up to it, or reports an unknown account |
| Recovery.Manager.ExtendScanAccounts | wallet/recovery.go:260-285 | moves the account horizon and takes in the accounts up to it |
| Recovery.Manager.ReportFound | wallet/recovery.go:413-441 | reports the account and the address and extends both levels |
| Recovery.Manager.ProcessBlock | wallet/recovery.go:323-340 | never meets an unknown account; within the windows the addresses created are exactly the owned ones |
| Recovery.Manager.AcctResurrect | wallet/recovery.go:224-246 | starts the search with both windows in place |
| Recovery.Manager.AddrResurrect | wallet/recovery.go:196-222 | adds exactly the given accounts, BIP 32 ones with one branch, with their windows in place |
| Recovery.Manager.ResurrectOne | wallet/recovery.go:200-213 | takes in one account with its branches |
| Recovery.Manager.RestoreAddresses | wallet/recovery.go:395-410 | watches again exactly the programs up to and including each horizon, which restores the invariant, also for a BIP 32 account whose internal branch was never extended |

## Left out

- Concurrency: steps are atomic; `saveBlock` and the orphan drain run outside the chain lock in the code, and headers are shared by reference.
- Chain.Chain.ProcessBlock: does not hold the orphan pool; the code answers a block still waiting in the pool as an orphan without looking at it again.
- Chain.Chain.SaveSubBlocks: takes any list of waiting blocks, in the order they are looked at; which blocks the pool yields, whose list the code edits while it walks over it, is not modelled.
- Transaction pool, block deletion and the rollback loop: they are not part of this model.
- Transaction validation, vote counting and the sub-protocols: any ledger with the `Undoes` law stands for them.
- Cryptography: signatures are checked by a function of `Env`; hashes are ids.
- Gas in the virtual machine, backward jumps, CHECKPREDICATE and the alternative stack.
- Equity type checking, `if`, `define`, `assign`, `lock`, list arguments, contract calls, recursive contracts and byte literals.
- Scanning text into tokens: `ExprParser` starts from tokens, with the gap after a minus sign kept as a flag.
- Optimizer.Optimize: says nothing of programs that run out of stack, whose outcome the rewrites change (`Optimizer.UnderflowLost`).
- Generator.CompileContract: does not refuse type errors, unused parameters and signature parameters of the contract, as the code also does.
- Generator.GenerateContract: the same.
- Codegen.BuiltinCodeRight: SHA3, SHA256, CHECKSIG and BLOCKHEIGHT are left open.
- ExprCompiler.ExprCorrect: asks for stacks of less than 2^63 entries, as a depth is pushed as a 64-bit number.
- CoinSelection.Choose: sums are exact; totals of 2^64 and more, which wrap around in the code, are not covered.
- MergeChain.BuildTxChain: errors of building a transaction are not covered.
- ReserveChain.ReserveBtmUtxoChain: the store's list is the same for every request of the loop, and its sums are exact.
- Recovery: an account is its keys (the same keys resurrected under two account ids are not covered), deriving an address does not fail, and saving the status is not part of this model.
- `DecodeAddress` and the network parameters: they only pick a prefix.
- Peer-to-peer, API, wallet storage, MOV and everything else the repository holds: outside the parts named above.
