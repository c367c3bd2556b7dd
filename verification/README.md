# Verified model of the jmzk node's core

Dafny models of the parts of this blockchain node whose correctness rests on an argument over whole runs, with proofs
of what they promise. `dafny verify dfyconfig.toml` checks everything.

- **Secret sharing** (`Gf256`, `Lagrange`, `Bitslice`, `SecretSharing`): the bitsliced GF(2^8) arithmetic of the key
  sharing code is field arithmetic in all 32 lanes, and any k of the created shares give the key back, while k-1 fit
  every key.
- **Irreversibility** (`BlockHeaderState`, `HeaderStateObject`, `DposRuns`): the header state machine. In every run
  a block becomes proposed-irreversible only with floor(2n/3)+1 confirmations, and they come from different producers
  exactly in the runs whose returning producers claim no more blocks than there are.
- **Forks** (`ForkTree`, `ForkDatabase`, `ForkConfirmations`, `ForkSwitch`): the tree of candidate blocks, the
  confirmations that make blocks bft irreversible, and the switch between branches, which is all or nothing. Applying a
  block is a deterministic partial function on an abstract state.
- **Token database** (`UndoLog`, `WriteCache`, `TokenDatabase`, `TokenStore`): nested savepoints over tokens and a
  reference-counted write cache over assets are a plain stack of maps.
- **Block log** (`Bytes`, `Varint`, `BlockLog`): log, index and recovery.
- **SHA-256** (`Sha256`, `Sha256Example`, `Sha256Stream`): the buffered and the rolling-schedule implementation against
  FIPS 180-4, whose constants and example digest are proved.
- **Snapshots** (`Snapshot`, `SectionNames`, `TokenSnapshot`): the container with its patched sizes, and the token
  database through it.
- **Text** (`Decimal`, `AssetText`, `Name128`, `NameParsing`): printing and parsing of assets, symbols and names.

Code that works in place is modelled by classes, arrays and loops; each method is proved against a specification on
values, and the promises are proved of the specification. Serializations (`fc::raw`, zlib) are codecs given with the law
they are used under: reading undoes writing, whatever follows, and takes no more bytes than there are. Signatures, keys
and digests are fields. Random coefficients are arguments. Store keys are numbers.

## Where the code does not do what one would expect

- `confirmed` of a header is not bounded by the block number, and the subtraction in the double-confirm check is on 32
  bits. A header that claims more blocks than there are always passes, and exactly then, when its producer made a block
  before, that producer counts twice (`DposRuns.DoubleConfirmIff`, `DposRuns.WrapPassesCheck`,
  `DposRuns.WrappedConfirmCountsTwice`). The confirmations still number floor(2n/3)+1 in every run.
- The irreversible number can decrease right after a schedule promotion (`DposRuns.IrreversibleCanDropAfterPromotion`, a
  run from the genesis state of a node); `DposRuns.IrreversibleKeptIff` says exactly when a step keeps it.
- A new head that does not build on the lowest block of the fork database makes the switch pop everything down to that
  block and then fail (`ForkSwitch.Controller.SwitchForks`). The next push recovers exactly when the best head builds
  directly on that block and applies (`ForkSwitch.Controller.PushBlock`).
- Pruning an oldest block on which nothing builds, beside another of its height, leaves no block to become the head
  (`ForkDatabase.PruneEmptiesIff`, `ForkDatabase.PruneCanEmpty`).
- A comment in `block_header.hpp` says that a producer cannot confirm its own block; the code counts it, and so does
  the model.
- `add_confirmation` compares a missing key with the unset one, so a producer outside the schedule is refused for a
  wrong signature and not for being unknown.
- A squash that finds a loaded group below a runtime one fails after the newer savepoint is gone, which takes the two
  stacks out of step (`TokenDatabase.SquashLockstepIff`).
- Rolling back after a pop can lose an asset write (`TokenDatabase.ReleasedValueLost`), exactly in the case
  `WriteCache.UndoRestoresReadIff` names.
- Saving a group in which a key was written twice does not keep the old value (`UndoLog.RepeatedUpdateIsLost`;
  `UndoLog.SavedRollbackRestoresIff` gives the exact condition). Saving the write cache keeps only the present values
  (`WriteCache.ReloadKeepsReadIff`).
- The buffered SHA-256 writes 32 bits of the length, so it is SHA-256 only below 2^29 bytes (`Sha256.PadLowIff`); the
  `hash` of `intrinsics.cpp` pads nothing and drops what does not fill a block (`Sha256.Process`).
- Parsing an asset cuts the symbol id to 32 bits (`AssetText.IdWraps`), and an asset of the empty symbol, or with a
  magnitude of 2^62 or more, does not parse back (`AssetText.AssetRoundTrip`).
- Log recovery compares the position recorded behind the first block with where the blocks start in the damaged file,
  and those behind later blocks with where the new file has come to. A genesis that is written in fewer or more bytes
  than it was read in, such as a padded variable-length integer (`Varint.CanonicalIff`), makes these differ: of an
  undamaged log only the first block is kept, with a position that is not its own, and recovering that file loses it too
  (`BlockLog.GoodLogKeptIff`, `BlockLog.RepairedIsLogIff`, `BlockLog.RepairAgain`, `BlockLog.PaddedLogIsLost`).
- A 128-bit value whose length tag is not the least that holds its characters prints as a name and parses back to
  another value (`NameParsing.ParseOfPrintIff`).
- A section name with byte 255 is taken for the end of the file (`Snapshot.ReadName`).

## Model

| member | source | states |
|---|---|---|
| `Gf256.MulComm` | libraries/sss/hazmat.c:92-199 | the field product of section 4.2 of FIPS 197 is commutative, for all bytes |
| `Gf256.MulAssoc` | libraries/sss/hazmat.c:92-199 | the field product is associative |
| `Gf256.MulAddLeft` | libraries/sss/hazmat.c:92-199 | the field product distributes over addition |
| `Gf256.SquareIsMul` | libraries/sss/hazmat.c:205-246 | the bit-spread-and-reduce square of a byte is its product with itself |
| `Gf256.Pow255` | libraries/sss/hazmat.c:250-266 | every nonzero byte has x^255 = 1 |
| `Gf256.MulInverse` | libraries/sss/hazmat.c:250-266 | x^254 is the inverse of every nonzero x |
| `Gf256.NoZeroDivisors` | libraries/sss/hazmat.c:92-199 | a product is zero only if a factor is |
| `Lagrange.TooManyRoots` | libraries/sss/hazmat.c:274-353 | a nonzero polynomial of k coefficients has fewer than k roots in the field |
| `Lagrange.InterpolateAtPoint` | libraries/sss/hazmat.c:319-353 | Lagrange's formula passes through every given point |
| `Lagrange.PolynomialsAgree` | libraries/sss/hazmat.c:319-353 | two polynomials of k coefficients that agree at k distinct points agree everywhere |
| `Lagrange.InterpolationRecovers` | libraries/sss/hazmat.c:319-353 | Lagrange's formula on k points of a polynomial of k coefficients gives its value anywhere |
| `Lagrange.CoefficientsDetermined` | libraries/sss/hazmat.c:274-312 | k values at distinct points determine all k coefficients |
| `Lagrange.InterpolationExists` | libraries/sss/hazmat.c:274-312 | for any k values at distinct points there is a polynomial of k coefficients that takes them |
| `Bitslice.LaneXor` | libraries/sss/hazmat.c:78-83 | xor of the eight words adds in all 32 lanes |
| `Bitslice.LaneMask` | libraries/sss/hazmat.c:92-199 | and-ing the eight words with one keeps a lane or makes it zero, by its bit of that word |
| `Bitslice.LaneTimes` | libraries/sss/hazmat.c:92-199 | the shifted words with the top word added into 0, 1, 3 and 4 are x times the element, in all lanes |
| `Bitslice.MulLaneStep` | libraries/sss/hazmat.c:92-199 | one peasant round keeps result plus (running multiple times what is left of the other factor) equal to the product |
| `SecretSharing.ToSlices` | libraries/sss/hazmat.c:33-46 | after slicing, lane i is byte i |
| `SecretSharing.FromSlices` | libraries/sss/hazmat.c:49-62 | after unslicing, byte i is lane i |
| `SecretSharing.SetAll` | libraries/sss/hazmat.c:65-72 | every lane is the given byte |
| `SecretSharing.GfAdd` | libraries/sss/hazmat.c:78-83 | in place, every lane is the sum |
| `SecretSharing.Reduce` | libraries/sss/hazmat.c:92-199 | the in-place reduction of one round multiplies the rotated running multiple by x |
| `SecretSharing.GfMul` | libraries/sss/hazmat.c:92-199 | every lane of the result is the field product, also when the result array is the first factor |
| `SecretSharing.LaneSquare` | libraries/sss/hazmat.c:205-246 | the words the squaring computes are, lane by lane, the product of the element with itself |
| `SecretSharing.GfSquare` | libraries/sss/hazmat.c:205-246 | every lane is squared, also in place |
| `SecretSharing.GfInv` | libraries/sss/hazmat.c:250-266 | every lane is its field inverse (x^254) through the addition chain of the source |
| `SecretSharing.PowerSumIsEval` | libraries/sss/hazmat.c:275-312 | the running sum of coefficient times power is the value of the polynomial |
| `SecretSharing.EvaluateLanes` | libraries/sss/hazmat.c:275-312 | every lane of y is the value of that lane's polynomial at x |
| `SecretSharing.CreateKeyShares` | libraries/sss/hazmat.c:275-312 | share s holds the abscissa s+1 and the 32 polynomial values there; the rest of the output is untouched |
| `SecretSharing.AbscissaValue` | libraries/sss/hazmat.c:275-312 | the abscissa of share s is the byte s+1 |
| `SecretSharing.CombineKeyShares` | libraries/sss/hazmat.c:319-353 | byte i of the key is Lagrange's formula at 0 over lane i of the shares |
| `SecretSharing.SharesDetermineKey` | libraries/sss/hazmat.c:275-353 | Lagrange's formula at 0 over any k created shares with distinct abscissae is the key byte, in every lane |
| `SecretSharing.ShareAndRecover` | libraries/sss/hazmat.c:275-353 | for every key, every coefficients and every 1 <= k <= n <= 255, combining any k different shares returns the key |
| `SecretSharing.FewerSharesFitEveryKey` | libraries/sss/hazmat.c:275-312 | k-1 shares fit every other key: coefficients exist that give exactly these shares |
| `SecretSharing.FittingCoefficientsUnique` | libraries/sss/hazmat.c:275-312 | and those coefficients are unique, lane by lane |
| `BlockHeaderState.QuorumReaches` | libraries/chain/block_header_state.cpp:23-37 | the last irreversible number is at least v exactly when floor(2n/3)+1 of the n map entries are |
| `BlockHeaderState.LastIrreversibleIsQuorumValue` | libraries/chain/block_header_state.cpp:23-37 | it is the greatest map value that floor(2n/3)+1 entries reach, and the only one |
| `BlockHeaderState.CalcDposLastIrreversible` | libraries/chain/block_header_state.cpp:23-37 | collecting, sorting and picking the entry a third in computes that number; 0 for an empty map |
| `HeaderStateObject.BlockHeader.SetConfirmed` | libraries/chain/block_header_state.cpp:199-233 | the in-place loop over the window gives the window, proposed number and count of the specification |
| `HeaderStateObject.BlockHeader.CarryOverMap` | libraries/chain/block_header_state.cpp:101-135 | a promoted schedule keeps known producers' entries and starts new ones at the irreversible number |
| `HeaderStateObject.BlockHeader.MaybePromotePending` | libraries/chain/block_header_state.cpp:101-135 | promotes exactly when a schedule is pending and its block is irreversible, changing nothing else |
| `HeaderStateObject.BlockHeader.SetNewProducers` | libraries/chain/block_header_state.cpp:137-146 | accepts exactly the next schedule version with none pending, with the error of each other case; a refusal changes nothing |
| `HeaderStateObject.BlockHeader.GenerateNext` | libraries/chain/block_header_state.cpp:44-99 | a fresh object equal to the template of the next block, for the producer in turn, with the quorum of the schedule pushed on a window of at most 1024; refused exactly for a time not later |
| `HeaderStateObject.BlockHeader.Next` | libraries/chain/block_header_state.cpp:157-197 | accepts exactly a later header that links, by the producer in turn under the schedule in force, confirming above its last block, with a proper new schedule and, unless skipped, signed with the scheduled key; every other header gets the error of the first condition it misses |
| `HeaderStateObject.BlockHeader.CheckedTemplate` | libraries/chain/block_header_state.cpp:158-177 | the template exactly for a header that passes every check before the state changes |
| `HeaderStateObject.BlockHeader.Complete` | libraries/chain/block_header_state.cpp:179-194 | promotion, new schedule and signer check as the specification orders them |
| `BlockHeaderState.NextAccepts` | libraries/chain/block_header_state.cpp:157-197 | which headers are accepted and, for each error, exactly when it is the one given |
| `BlockHeaderState.NextLeaves` | libraries/chain/block_header_state.cpp:44-197 | what an accepted header leaves of every field, with and without a promotion |
| `HeaderStateObject.GrownWindow` | libraries/chain/block_header_state.cpp:79-95 | the window grows by the quorum and keeps 1024 entries at most |
| `HeaderStateObject.BlockHeader.AddConfirmation` | libraries/chain/block_header_state.cpp:258-270 | appends exactly a first confirmation of a scheduled producer signed with its key; all error cases |
| `HeaderStateObject.ConfirmersAreScheduled` | libraries/chain/block_header_state.cpp:258-270 | m kept confirmations are m distinct scheduled producers |
| `HeaderStateObject.ConfirmersSign` | libraries/chain/block_header_state.cpp:258-270 | each carries the key its producer has in the schedule |
| `DposRuns.ConfirmFromMeaning` | libraries/chain/block_header_state.cpp:199-233 | the downward walk decrements exactly the confirmed entries and stops at the newest that reaches zero |
| `DposRuns.ConfirmStep` | libraries/chain/block_header_state.cpp:199-233 | confirming keeps every entry equal to needed minus received and tracks only blocks above the proposed number |
| `DposRuns.FreshConfirmer` | libraries/chain/block_header_state.cpp:167-177 | the double-confirm check: a producer has confirmed none of the blocks its next header confirms, when the header claims no more blocks than there are |
| `DposRuns.RunRecordsCover` | libraries/chain/block_header_state.cpp:157-197 | in every run from genesis each producer has a record at or above each of its blocks, or is not scheduled |
| `DposRuns.DoubleConfirmIff` | libraries/chain/block_header_state.cpp:167-177 | an accepted header of a producer with an earlier one confirms a block again exactly when it claims more blocks than there are |
| `DposRuns.WrapPassesCheck` | libraries/chain/block_header_state.cpp:167-177 | and such a claim always passes the check |
| `DposRuns.NobodyCountsTwiceIff` | libraries/chain/block_header_state.cpp:167-177 | exactly the runs in which no producer counts twice for a block: those in which only first headers claim too much |
| `DposRuns.WindowInvariantStep` | libraries/chain/block_header_state.cpp:44-99 | a step keeps every entry at needed minus received confirmations, also over a promotion and whatever the header claims |
| `DposRuns.RunKeepsInvariants` | libraries/chain/block_header_state.cpp:157-197 | in every run from genesis that invariant holds |
| `DposRuns.ProposedHasConfirmations` | libraries/chain/block_header_state.cpp:199-233 | in every run, a block becomes proposed-irreversible only with floor(2n/3)+1 confirming headers, n the size of the schedule it was made under |
| `DposRuns.ProposedHasQuorum` | libraries/chain/block_header_state.cpp:199-233 | and these are as many distinct producers, in every run in which nobody counts twice |
| `DposRuns.FixedScheduleQuorum` | libraries/chain/block_header_state.cpp:199-233 | while the schedule stays, those confirmers are members of it and more than two thirds |
| `DposRuns.ProposedNeverDecreases` | libraries/chain/block_header_state.cpp:62-96 | in every run the proposed number never decreases, entries stay in 1..255 and track blocks above it |
| `DposRuns.IrreversibleBelowProposed` | libraries/chain/block_header_state.cpp:62-96 | in every run the irreversible number is at most the previous proposed number, which is below the block number |
| `DposRuns.IrreversibleKeptIff` | libraries/chain/block_header_state.cpp:62-96 | a step keeps the irreversible number exactly when few enough producers lag behind it |
| `DposRuns.IrreversibleMonotoneBetweenPromotions` | libraries/chain/block_header_state.cpp:62-135 | in every run it does not decrease in a step that follows no promotion |
| `DposRuns.IrreversibleCanDropAfterPromotion` | libraries/chain/block_header_state.cpp:101-135 | a run from the genesis state of a node in which it decreases in the step after a promotion |
| `DposRuns.WrappedConfirmCountsTwice` | libraries/chain/block_header_state.cpp:167-177 | a run from the genesis state of a node in which a claim beyond the block number lets one producer count twice |
| `DposRuns.Handover` | libraries/chain/controller.cpp:517-534 | from the genesis state of a node, whose only producer has its own schedule pending, any elected schedule comes to be active in three blocks |
| `ForkTree.SameHeightAncestors` | libraries/chain/fork_database.cpp:184-217 | a block has at most one ancestor of each height |
| `ForkTree.WithoutKeepsParents` | libraries/chain/fork_database.cpp:219-238 | removing a subtree leaves every other block's parent in place |
| `ForkDatabase.RemovedSubtree` | libraries/chain/fork_database.cpp:219-238 | when the work queue is done, exactly the block and its descendants are gone |
| `ForkDatabase.ForkDb.Remove` | libraries/chain/fork_database.cpp:219-238 | the loop terminates, erases exactly the block and its descendants and picks the leading block as head, if any is left |
| `ForkTree.BestIffLeads` | libraries/chain/fork_database.cpp:37-44 | the first block of the order is the one with the greatest irreversible number, then bft number, then block number |
| `ForkDatabase.ForkDb.Best` | libraries/chain/fork_database.cpp:37-44 | no block has a greater irreversible number than the one picked, none with the same a greater bft number, none with both a greater block number |
| `ForkDatabase.AllRaised` | libraries/chain/fork_database.cpp:334-372 | when the pruned breadth-first walk ends, every descendant is raised, because bft numbers never decrease from parent to child |
| `ForkDatabase.LayerStep` | libraries/chain/fork_database.cpp:348-366 | after one layer exactly the blocks raised in it can have successors still to raise |
| `ForkDatabase.ForkDb.UpdateLayer` | libraries/chain/fork_database.cpp:348-366 | raises exactly the children that are below, returns exactly those, and changes nothing else |
| `ForkDatabase.ForkDb.SetBftIrreversible` | libraries/chain/fork_database.cpp:334-372 | the block and every descendant get max(old, block number), all others stay |
| `ForkDatabase.RaisedAt` | libraries/chain/fork_database.cpp:334-372 | what that is for each block: the higher of the two numbers, nothing else changed |
| `ForkDatabase.RaisedKeepsOrder` | libraries/chain/fork_database.cpp:334-372 | raising a subtree keeps the parent-to-child order of bft numbers |
| `ForkDatabase.AddKeepsOrderIff` | libraries/chain/fork_database.cpp:128-156 | linking a block in keeps that order exactly when the block starts at or above its parent |
| `ForkDatabase.ForkDb.AddSigned` | libraries/chain/fork_database.cpp:158-173 | a received block starts with the bft number of its parent, so every add keeps the order of bft numbers; duplicates and unlinkable blocks are refused |
| `ForkDatabase.PruneEmptiesIff` | libraries/chain/fork_database.cpp:266-291 | pruning the oldest block empties the index exactly when nothing builds on it; another block of its height is then left to remove |
| `ForkDatabase.PruneCanEmpty` | libraries/chain/fork_database.cpp:266-291 | a concrete index in which it does |
| `ForkDatabase.HeadSurvivesPruneIff` | libraries/chain/fork_database.cpp:266-291 | the best head outlives a pruning exactly when it builds on the pruned block |
| `ForkDatabase.ForkDb.FetchBranchFrom` | libraries/chain/fork_database.cpp:184-217 | succeeds exactly when the heads meet; two parent-linked branches with the same last previous id, disjoint unless one head is an ancestor of the other, and no meeting point is higher |
| `ForkDatabase.ForkDb.MarkInCurrentChain` | libraries/chain/fork_database.cpp:251-264 | sets the mark of that block only |
| `ForkDatabase.LeftIsProperDescendants` | libraries/chain/fork_database.cpp:266-291 | with the oldest block and its siblings' subtrees gone, only its proper descendants are left |
| `ForkDatabase.ProperDescendantsKeepOrder` | libraries/chain/fork_database.cpp:266-291 | they still have their parents above the lowest level, and the bft order |
| `ForkDatabase.ForkDb.Prune` | libraries/chain/fork_database.cpp:266-291 | pruning the oldest block leaves exactly its proper descendants, announces it once, and picks the head again exactly when other blocks of its height went and any is left |
| `ForkDatabase.ForkDb.Add` | libraries/chain/fork_database.cpp:128-156 | unlinkable and duplicate blocks are refused and change nothing; otherwise the head leads by irreversible, bft and block number, and the oldest block is announced and pruned exactly when some irreversible number passes it; the bft order is kept exactly when the block starts at or above its parent |
| `ForkDatabase.ForkDb.Confirmed` | libraries/chain/fork_database.cpp:316-325 | with floor(2n/3)+1 confirmations the block and its descendants are raised, otherwise nothing changes |
| `ForkConfirmations.QuorumIsTwoThirds` | libraries/chain/fork_database.cpp:316-325 | enough kept confirmations are more than two thirds of the producers, each scheduled and counted once |
| `ForkConfirmations.BackedWithNew` | libraries/chain/fork_database.cpp:158-173 | a new block is backed by the quorum that backs its parent |
| `ForkConfirmations.BackedWhenRaised` | libraries/chain/fork_database.cpp:334-372 | every raised block is backed by the quorum of the confirmed block on its branch |
| `ForkConfirmations.ConfirmedForks.AddSigned` | libraries/chain/fork_database.cpp:158-173 | adding a block, with the pruning it causes, keeps every bft number backed by a quorum |
| `ForkConfirmations.ConfirmedForks.Remove` | libraries/chain/fork_database.cpp:219-238 | so does removing an invalid block |
| `ForkConfirmations.ConfirmedForks.AddConfirmation` | libraries/chain/fork_database.cpp:316-326 | the header state decides on the confirmation; exactly when its confirmations are a quorum and the block is below its own number, block and descendants are raised; every bft number stays backed |
| `ForkConfirmations.ConfirmedForks.BftIsConfirmed` | libraries/chain/fork_database.cpp:316-372 | in every state, a bft number above the first one is the number of a block of the branch that more than two thirds of its scheduled producers confirmed |
| `ForkSwitch.FailingBlockIsNew` | libraries/chain/controller.cpp:1033-1069 | a block that fails on the new branch is never one of the old chain, so dropping its subtree keeps the old chain |
| `ForkSwitch.ReplayUnique` | libraries/chain/controller.cpp:870-946 | replaying the same blocks from the same state gives the same states |
| `ForkSwitch.Controller.PopBlock` | libraries/chain/controller.cpp:164-182 | the head goes back to its parent and the state to the one before it; the lowest block cannot be popped and only loses its mark |
| `ForkSwitch.Controller.ApplyBlock` | libraries/chain/controller.cpp:870-946 | succeeds exactly when application is defined; a failing block changes nothing |
| `ForkSwitch.Controller.PopBranch` | libraries/chain/controller.cpp:1026-1031 | popping a branch rewinds head, undo stack and state by its length, or to the lowest block when the branch reaches it |
| `ForkSwitch.Controller.ApplyBranch` | libraries/chain/controller.cpp:1033-1043 | applies the branch lowest first, up to the first block that fails; exactly the applied blocks become validated |
| `ForkSwitch.Controller.SetValidated` | libraries/chain/fork_database.cpp:240-249 | that block becomes validated, nothing else changes |
| `ForkSwitch.Controller.Cross` | libraries/chain/controller.cpp:1033-1069 | with the old branch popped: the new one applied and validated, or the old one back |
| `ForkSwitch.ReversibleBlocks` | libraries/chain/controller.cpp:164-182 | the reversible blocks are exactly the applied ones by number, and the lowest while it is kept |
| `ForkSwitch.Controller.Reapply` | libraries/chain/controller.cpp:1061-1067 | putting old blocks back never fails and gives the old states |
| `ForkSwitch.Controller.Rewind` | libraries/chain/controller.cpp:1044-1059 | the failing subtree goes, and popping the new branch brings back the states the old one started from |
| `ForkSwitch.Controller.Restore` | libraries/chain/controller.cpp:1044-1069 | after a failure head, state, undo stack, applied chain are the old ones and only the failing subtree is gone |
| `ForkSwitch.Controller.SwitchForks` | libraries/chain/controller.cpp:1021-1072 | all or nothing: the new head with the replay of its chain from the same bottom state and exactly its branch validated, or everything as before without the failing subtree, the blocks below the failing one validated; exactly when the heads meet below the lowest block it stops there with that block as head |
| `ForkSwitch.Controller.MaybeSwitchForks` | libraries/chain/controller.cpp:1005-1072 | follows the fork database head: a linked block gives exactly its application to the state and is validated; any other head is followed or rejected exactly when it meets the chain above the lowest block; no other block changes its validation; the loss-of-sync outcome never occurs |
| `ForkSwitch.SwitchBranches` | libraries/chain/controller.cpp:1021-1031 | the old branch is the top of the applied chain, and reaches the lowest block exactly when the new head does not build on it |
| `ForkSwitch.Controller.OnIrreversible` | libraries/chain/controller.cpp:243-300 | with the lowest block pruned, the one above it takes its place and everything stays in sync |
| `ForkSwitch.Controller.LinkBlock` | libraries/chain/controller.cpp:949-974 | linking a received block in keeps the chain in sync; what is pruned is the lowest block, unless it is unmarked beside another of its height |
| `ForkSwitch.Controller.PushBlock` | libraries/chain/controller.cpp:949-974 | add and switch together keep everything in sync, from every state in sync; followed blocks end with the best head; only a pruned head loses the chain; with nothing above the lowest block applied, as after popping too far, it recovers exactly when the best head builds directly on that block and applies |
| `UndoLog.RollbackFailsIff` | libraries/chain/token_database.cpp:1047-1163 | a rollback fails exactly when a key first met in an update is missing from the snapshot |
| `UndoLog.RollbackRestoresIff` | libraries/chain/token_database.cpp:1047-1163 | rolling a runtime group back gives the snapshot exactly when its adds met absent keys and its first updates present ones |
| `UndoLog.GroupAppend` | libraries/chain/token_database.cpp:637-691 | recording an allowed write keeps a group that rolls back to its snapshot |
| `UndoLog.GroupSquash` | libraries/chain/token_database.cpp:968-991 | two such groups on top of each other are one on the older snapshot |
| `UndoLog.SavedRollbackAt` | libraries/chain/token_database.cpp:1165-1207 | undoing a saved group decides every key by its last entry |
| `UndoLog.SavedRollbackRestoresIff` | libraries/chain/token_database.cpp:1298-1412 | the exact condition under which a saved and loaded group restores the snapshot |
| `UndoLog.SavedMatchesRuntime` | libraries/chain/token_database.cpp:1298-1412 | without repeated keys and empty old values it does what the runtime group does |
| `UndoLog.RepeatedUpdateIsLost` | libraries/chain/token_database.cpp:1298-1412 | a key updated twice comes back as the empty string after save and load |
| `WriteCache.PutUndone` | libraries/chain/token_database.cpp:304-317 | undoing the record of a put gives the cache back |
| `WriteCache.PutKeepsReads` | libraries/chain/token_database.cpp:304-317 | a put changes no read at an earlier savepoint |
| `WriteCache.UndoAllAt` | libraries/chain/token_database.cpp:339-353 | rollback of the newest records: counts match the remaining ones, each key holds what its first record replaced |
| `WriteCache.UndoRestoresReadIff` | libraries/chain/token_database.cpp:339-353 | a read comes back exactly unless the key's live records are all undone, the first replaced a released value and the store holds another |
| `WriteCache.ReleaseAt` | libraries/chain/token_database.cpp:365-374 | a pop writes out exactly the keys whose last live record is popped, at their present value |
| `WriteCache.ReleaseKeepsReads` | libraries/chain/token_database.cpp:365-374 | a pop changes no read, now or at a remaining savepoint |
| `WriteCache.ReloadKeepsReadIff` | libraries/chain/token_database.cpp:402-436 | exactly which reads at savepoints survive save and load |
| `WriteCache.LoadOfPack` | libraries/chain/token_database.cpp:402-436 | save and load give back the same cached values and counts |
| `WriteCache.ReloadKeepsInv` | libraries/chain/token_database.cpp:402-436 | the reloaded records keep the invariant of the cache |
| `TokenDatabase.AddMatches` | libraries/chain/token_database.cpp:873-890 | adding a savepoint pushes the present columns on the plain stack, refused for a number not larger |
| `TokenDatabase.PutTokensMatches` | libraries/chain/token_database.cpp:637-691 | token writes change the present tokens only |
| `TokenDatabase.PutAssetMatches` | libraries/chain/token_database.cpp:693-708 | an asset write changes the present assets only |
| `TokenDatabase.SquashMatches` | libraries/chain/token_database.cpp:968-991 | a squash drops the newer of two frames |
| `TokenDatabase.SquashLockstepIff` | libraries/chain/token_database.cpp:968-991 | a squash keeps the two stacks in lockstep exactly unless a runtime group lies above a loaded one |
| `TokenDatabase.RollbackMatches` | libraries/chain/token_database.cpp:1209-1238 | every rollback restores the top frame, but for exactly the lost keys, which read as stored from then on |
| `TokenDatabase.RollbackAssetsIff` | libraries/chain/token_database.cpp:1209-1238 | it restores every asset read exactly when no key is in the lost case |
| `TokenDatabase.PopMatches` | libraries/chain/token_database.cpp:938-955 | pops drop frames from the bottom and change no column |
| `TokenDatabase.PlainPopLeaves` | libraries/chain/token_database.cpp:938-956 | on the plain stack, a suffix is left whose first number reaches the bound, and every dropped one is below it |
| `TokenDatabase.PopLeaves` | libraries/chain/token_database.cpp:938-956 | of savepoints and cache layers exactly those with a number at or above the bound are left, in order; the tokens stay |
| `TokenDatabase.WrittenIsDone` | libraries/chain/token_database.cpp:637-691 | after some writes the last one on a key decides its value, and other keys keep theirs |
| `TokenDatabase.StepMatches` | libraries/chain/token_database.cpp:873-1238 | every operation keeps the invariant and does to a plain stack of maps what its name says, lost values apart |
| `TokenDatabase.RunMatches` | libraries/chain/token_database.cpp:873-1238 | so does every run |
| `TokenDatabase.RunTokensMatch` | libraries/chain/token_database.cpp:873-1238 | in every run the tokens, now and at every savepoint, are those of the plain stack, and both stacks stay in lockstep with strictly increasing numbers |
| `TokenDatabase.LosslessRunIsPlain` | libraries/chain/token_database.cpp:873-1238 | a run whose rollbacks lose nothing is the plain stack, assets included |
| `TokenDatabase.PopFreeRunMatches` | libraries/chain/token_database.cpp:304-353 | and every run without pops is one |
| `TokenDatabase.PlainIsUnique` | libraries/chain/token_database.cpp:752-772 | the plain stack is determined by the reads |
| `TokenDatabase.InMemoryRun` | libraries/chain/token_database.cpp:968-991 | without a load no run reaches a torn squash |
| `TokenDatabase.TornExists` | libraries/chain/token_database.cpp:968-991 | a valid state in which a squash tears the stacks |
| `TokenDatabase.RollbackRestoresRun` | libraries/chain/token_database.cpp:873-1238 | a savepoint rolled back after any commands that leave it newest restores the tokens of the time it was added, and the asset reads when nothing was lost |
| `TokenDatabase.UnpoppedStep` | libraries/chain/token_database.cpp:304-353 | without pops no first record ever replaces a released value |
| `TokenDatabase.UnpoppedNothingLost` | libraries/chain/token_database.cpp:339-353 | so a rollback without earlier pops loses nothing |
| `TokenDatabase.ReleasedValueLost` | libraries/chain/token_database.cpp:339-353 | a concrete run with a pop in which a rollback loses a write |
| `TokenDatabase.ReloadedKeeps` | libraries/chain/token_database.cpp:1240-1431 | save and load keep the invariant and every present read, and the token columns of the savepoints exactly when every saved group restores |
| `TokenStore.WriteCacheLayer.Put` | libraries/chain/token_database.cpp:304-317 | the put on the fields is the put of the specification |
| `TokenStore.WriteCacheLayer.RollbackToLatest` | libraries/chain/token_database.cpp:339-353 | undoes the newest layer; the source's assertion that values are nonempty always holds |
| `TokenStore.WriteCacheLayer.Squash` | libraries/chain/token_database.cpp:355-363 | the newest records are appended to those below |
| `TokenStore.WriteCacheLayer.PopFront` | libraries/chain/token_database.cpp:365-374 | releases the oldest layer and returns what to write out |
| `TokenStore.WriteCacheLayer.PersistSavepoints` | libraries/chain/token_database.cpp:402-421 | every write is saved with the present value of its key |
| `TokenStore.WriteCacheLayer.LoadSavepoints` | libraries/chain/token_database.cpp:423-436 | the cache is rebuilt by replaying the saved writes |
| `TokenStore.RollbackRuntimeGroup` | libraries/chain/token_database.cpp:1047-1163 | the pass with its growing key set; gives the snapshot exactly under the stated condition |
| `TokenStore.RollbackSavedGroup` | libraries/chain/token_database.cpp:1165-1207 | the writes of a saved group, in order |
| `TokenStore.PersistGroup` | libraries/chain/token_database.cpp:1298-1412 | fails exactly when a first update misses its key; only first entries carry old values |
| `TokenStore.TokenDb.constructor` | libraries/chain/token_database.cpp:507-516 | an empty savepoint stack over the given columns |
| `TokenStore.TokenDb.PutTokens` | libraries/chain/token_database.cpp:637-691 | writes with one undo entry of the given kind for each key under a savepoint; the last write of a key decides; savepoint frames stay |
| `TokenStore.TokenDb.PutAsset` | libraries/chain/token_database.cpp:693-708 | matches the plain stack |
| `TokenStore.TokenDb.ReadAsset` | libraries/chain/token_database.cpp:752-772 | reads the plain asset column |
| `TokenStore.TokenDb.ReadTokensRange` | libraries/chain/token_database.cpp:774-803 | the tokens under a prefix, each once, in key order, after the skipped ones |
| `TokenStore.TokenDb.ReadAssetsRange` | libraries/chain/token_database.cpp:805-871 | a completed scan meets every asset as reads see it and leaves the store as it was |
| `TokenStore.TokenDb.AddSavepoint` | libraries/chain/token_database.cpp:873-890 | matches the plain stack; refused exactly for a number not larger |
| `TokenStore.TokenDb.PopSavepoints` | libraries/chain/token_database.cpp:938-955 | drops exactly the savepoints below the bound, keeps the others in order and every column, and writes out what leaves the cache |
| `TokenStore.TokenDb.Squash` | libraries/chain/token_database.cpp:968-991 | matches the plain stack unless torn; done exactly when both top groups are in memory |
| `TokenStore.TokenDb.RollbackToLatest` | libraries/chain/token_database.cpp:1209-1238 | the tokens are those of the top frame; always matches the plain stack, lost values apart |
| `TokenStore.TokenDb.SaveAndLoad` | libraries/chain/token_database.cpp:1240-1431 | present columns and savepoint numbers stay, and the token columns of the savepoints exactly when every group restores |
| `Bytes.DecodeEncode` | libraries/chain/block_log.cpp:193-219 | a number that fits reads back from its little-endian bytes |
| `Bytes.EncodeDecode` | libraries/chain/block_log.cpp:193-219 | and bytes read back from their number |
| `Bytes.EncodeAt` | libraries/chain/block_log.cpp:193-219 | byte i is the digit of 256^i |
| `Bytes.AllOnes` | libraries/chain/block_log.cpp:193-219 | the number that stands for no position is eight bytes 255 |
| `BlockLog.EntryAt` | libraries/chain/block_log.cpp:258-273 | every block stands at its position, followed by that position |
| `BlockLog.IndexAt` | libraries/chain/block_log.cpp:290-299 | entry i of the index is the position of block i |
| `BlockLog.BlockLog.Append` | libraries/chain/block_log.cpp:193-219 | accepts exactly the next block number, adding the block and its position to the log and the position to the index; a refusal changes nothing |
| `BlockLog.BlockLog.GetBlockPos` | libraries/chain/block_log.cpp:290-299 | the position of every block from first to head, npos otherwise |
| `BlockLog.BlockLog.ReadBlockByNum` | libraries/chain/block_log.cpp:275-288 | every number from first to head reads the appended block, any other none; the wrong-block check never fires |
| `BlockLog.BlockLog.ReadHead` | libraries/chain/block_log.cpp:301-320 | the last block, or none for a log with the header only |
| `BlockLog.BlockLog.ConstructIndex` | libraries/chain/block_log.cpp:332-380 | rebuilds the identical index from the log alone |
| `BlockLog.BlockLog.Open` | libraries/chain/block_log.cpp:100-190 | reads the head, keeps an index whose last entry matches and rebuilds any other; a consistent pair stays |
| `BlockLog.BlockLog.Reset` | libraries/chain/block_log.cpp:227-260 | a fresh log with its first block, or version 0 when that block has another number |
| `BlockLog.KeptPrefix` | libraries/chain/block_log.cpp:461-507 | the blocks at the front of a file that record the expected positions are determined by the file |
| `BlockLog.StopIsLongest` | libraries/chain/block_log.cpp:461-507 | stopping at the truncation block or at the first place without an entry keeps the longest prefix |
| `BlockLog.CopyHeader` | libraries/chain/block_log.cpp:421-452 | the header is read and written again, with the error of each malformed one |
| `BlockLog.HeaderTaken` | libraries/chain/block_log.cpp:421-452 | versions 1 and 2 are taken, with a genesis and, in version 2, the separator; every other header has its error |
| `BlockLog.HeaderBytes` | libraries/chain/block_log.cpp:227-260 | a header is version 2, the first number, the genesis and eight bytes 255 |
| `BlockLog.WrittenHeaderParses` | libraries/chain/block_log.cpp:421-452 | a written header is read as it was written |
| `BlockLog.RepairLog` | libraries/chain/block_log.cpp:421-507 | for any encoding the reader accepts, keeps exactly the longest prefix of the blocks, up to the truncation block, whose first entry records where the blocks started and whose later ones record where the new file stands; the new first entry keeps the old position |
| `BlockLog.KeptIffPrefix` | libraries/chain/block_log.cpp:461-507 | for canonical encodings these are the blocks whose log is a prefix of the file |
| `BlockLog.RepairOfGoodLog` | libraries/chain/block_log.cpp:461-507 | an undamaged log whose header keeps its size comes back with all blocks, up to the truncation block |
| `BlockLog.ResizedHeaderKeepsOne` | libraries/chain/block_log.cpp:421-507 | of an undamaged log whose header changes its size exactly the first block is kept |
| `BlockLog.GoodLogKeptIff` | libraries/chain/block_log.cpp:421-507 | all blocks of an undamaged log come back exactly if the header keeps its size or there is at most one block |
| `BlockLog.NothingKeptIff` | libraries/chain/block_log.cpp:461-507 | no block is kept exactly if the first entry does not record where the blocks start |
| `BlockLog.RepairedIsLogIff` | libraries/chain/block_log.cpp:421-507 | the recovered file is a log of some blocks exactly if the header kept its size or no block is kept |
| `BlockLog.RepairAgain` | libraries/chain/block_log.cpp:421-507 | recovering the recovered file keeps its blocks exactly in these cases and loses all of them otherwise |
| `BlockLog.PaddedLogIsLost` | libraries/chain/block_log.cpp:421-507 | a concrete header with a padded genesis: for every block encoding and all blocks, recovery keeps one, writes no log, and a second recovery keeps none |
| `Varint.Write` | libraries/fc/include/fc/io/raw.hpp:242-250 | the writing loop gives seven bits a byte, least significant first, all but the last marked |
| `Varint.Read` | libraries/fc/include/fc/io/raw.hpp:268-278 | the reading loop takes the marked bytes and one more, at most five, and cuts their sum to 32 bits |
| `Varint.RoundTrip` | libraries/fc/include/fc/io/raw.hpp:242-278 | every 32-bit number reads back, whatever follows, in at most five bytes |
| `Varint.CanonicalIff` | libraries/fc/include/fc/io/raw.hpp:242-278 | what was read is what writing makes exactly if no zero byte ends several and a fifth byte is below 16 |
| `Varint.ThreeHundred` | libraries/fc/include/fc/io/raw.hpp:242-278 | 300 is the bytes ac 02 |
| `Sha256.RollingNext` | benchmarks/sha256/intrinsics.cpp:85-93 | the word added in place in the window of sixteen is the schedule word of section 6.2.2 of FIPS 180-4 |
| `Sha256.TransformBlock` | benchmarks/sha256/cgminer.cpp:71-115 | the 64-word schedule and 64 in-place rounds are one compression |
| `Sha256.Transform` | benchmarks/sha256/cgminer.cpp:71-115 | compression folded over the given number of blocks |
| `Sha256.ProcessBlock` | benchmarks/sha256/intrinsics.cpp:44-114 | the rolling 16-word schedule computes the same compression |
| `Sha256.Process` | benchmarks/sha256/intrinsics.cpp:44-114 | on every input the fold over its whole blocks, as the 64-word form |
| `Sha256.ZeroCountIsLeast` | benchmarks/sha256/cgminer.cpp:162-178 | the number of zero bytes is the least that fills the last block |
| `Sha256.PadLowIff` | benchmarks/sha256/cgminer.cpp:162-178 | the padding written is that of section 5.1.1 exactly for messages under 2^29 bytes |
| `Sha256.FoldAppend` | benchmarks/sha256/cgminer.cpp:128-160 | folding over two strings in turn is folding over both |
| `Sha256Example.RoundConstants` | benchmarks/sha256/cgminer.cpp:51-67 | every round constant is the first 32 bits of the fraction of the cube root of its prime |
| `Sha256Example.CubeRootBitsUnique` | benchmarks/sha256/cgminer.cpp:51-67 | which no other word is |
| `Sha256Example.InitialHash` | benchmarks/sha256/cgminer.cpp:47-49 | the initial words are those of the square roots of the first eight primes |
| `Sha256Example.AbcDigest` | benchmarks/sha256/cgminer.cpp:47-115 | the digest of abc is the one the standard gives |
| `Sha256Stream.Sha256Context.constructor` | benchmarks/sha256/cgminer.cpp:117-126 | a context that has taken in the empty message |
| `Sha256Stream.Sha256Context.Update` | benchmarks/sha256/cgminer.cpp:128-160 | the context takes in the chunk, whatever was buffered |
| `Sha256Stream.Sha256Context.Final` | benchmarks/sha256/cgminer.cpp:162-185 | the digest of the padded message; SHA-256 for messages under 2^29 bytes |
| `Sha256Stream.LongFold` | benchmarks/sha256/cgminer.cpp:128-160 | the filled buffer and the following blocks folded in are the blocks of the longer message |
| `Sha256Stream.HashChunks` | benchmarks/sha256/cgminer.cpp:128-194 | the digest does not depend on how the message is cut into chunks |
| `Snapshot.SnapshotWriter.StartSection` | libraries/chain/snapshot.cpp:164-189 | opens a section with placeholders; refused while one is open |
| `Snapshot.SnapshotWriter.WriteRow` | libraries/chain/snapshot.cpp:191-201 | adds one row |
| `Snapshot.SnapshotWriter.EndSection` | libraries/chain/snapshot.cpp:203-228 | size and row count patched in; the file is that of the sections written |
| `Snapshot.SnapshotWriter.Finalize` | libraries/chain/snapshot.cpp:229-236 | appends the end marker |
| `Snapshot.OpeningBytes` | libraries/chain/snapshot.cpp:150-162 | a file begins with the bytes of the magic number and of version 4 |
| `Snapshot.SectionAt` | libraries/chain/snapshot.cpp:203-228 | what stands at the place of each section |
| `Snapshot.ReadName` | libraries/chain/snapshot.cpp:404-409 | the name up to its zero byte; none exactly when byte 255 or the end of the file comes first |
| `Snapshot.BuildSectionIndexes` | libraries/chain/snapshot.cpp:375-418 | from the file alone, name, place, row count and payload size of every section, in order |
| `Snapshot.SnapshotReader.SetSection` | libraries/chain/snapshot.cpp:315-341 | goes to the first section of the name and decompresses its rows; fails exactly when there is none |
| `Snapshot.SnapshotReader.ReadRaw` | libraries/chain/snapshot.cpp:354-358 | gives the next row and moves on |
| `Snapshot.SnapshotReader.ReadPacked` | libraries/chain/snapshot.cpp:354-358 | gives back the value the row was packed from |
| `TokenSnapshot.AddTable` | libraries/chain/token_database_snapshot.cpp:31-96 | one section with the rows of a table |
| `TokenSnapshot.TableIsSection` | libraries/chain/token_database_snapshot.cpp:31-64 | the section carries the name of the table, and for each entry the low bytes of its key and then its value |
| `TokenSnapshot.AddReservedTokens` | libraries/chain/token_database_snapshot.cpp:31-66 | the reserved tables, and the lists of domains and symbol ids |
| `TokenSnapshot.AddTokens` | libraries/chain/token_database_snapshot.cpp:68-80 | one table for every domain |
| `TokenSnapshot.AddAssets` | libraries/chain/token_database_snapshot.cpp:82-96 | one table for every fungible, assets as reads see them |
| `SectionNames.AssetNameExample` | libraries/chain/token_database_snapshot.cpp:82-96 | the section of symbol 42 is named .asset-42 |
| `TokenSnapshot.AddToSnapshot` | libraries/chain/token_database_snapshot.cpp:167-180 | the sections of all tables; the database is as before |
| `TokenSnapshot.ReadTokenTable` | libraries/chain/token_database_snapshot.cpp:98-144 | puts exactly the entries of the table |
| `TokenSnapshot.ReadAssetTable` | libraries/chain/token_database_snapshot.cpp:146-163 | puts exactly the entries of the table |
| `TokenSnapshot.CopiedStep` | libraries/chain/token_database_snapshot.cpp:98-163 | reading a table copies exactly the entries under its prefix |
| `TokenSnapshot.ReadFromSnapshot` | libraries/chain/token_database_snapshot.cpp:182-201 | an empty database becomes the dumped one, every token and asset, given registered domains and symbols and distinct section names |
| `TokenSnapshot.NamesDiffer` | libraries/chain/token_database_snapshot.cpp:13-29 | no two sections have the same name: reserved, domain and asset names differ, and so do those of different domains and symbols |
| `TokenSnapshot.DumpFits` | libraries/chain/token_database_snapshot.cpp:31-96 | proper domain names and 32-bit symbol ids make every dump one the file format can hold |
| `TokenSnapshot.CopyThroughSnapshot` | libraries/chain/token_database_snapshot.cpp:167-201 | writing a database to a snapshot file and reading the file into an empty one gives the same tokens and assets, for proper names within the sizes of the format |
| `Decimal.ValueOfPrint` | libraries/chain/asset.cpp:48-72 | reading a printed number gives it back |
| `Decimal.TrimStrips` | libraries/chain/asset.cpp:17 | trimming takes exactly the blanks off both ends |
| `Decimal.SignedReads` | libraries/chain/asset.cpp:95-108 | a sign and digits, and nothing else, are a number |
| `Decimal.FrontNumberReads` | libraries/chain/asset.cpp:24-25 | the number at the front, after blanks and a sign, whatever follows; a negative one wraps around |
| `AssetText.SymbolRoundTrip` | libraries/chain/asset.cpp:16-41 | parsing a printed symbol gives it back, for every legal precision and id |
| `AssetText.SymbolParses` | libraries/chain/asset.cpp:15-32 | every symbol text, with blanks around it: precision at most 18 and an id on 32 bits, or the error |
| `AssetText.SymbolRefused` | libraries/chain/asset.cpp:15-32 | no comma and no mark behind the first comma are refused, exactly then |
| `AssetText.ParseWithId` | libraries/chain/asset.cpp:74-115 | a printed amount with any 64-bit id parses to the asset with the id cut to 32 bits |
| `AssetText.AssetRoundTrip` | libraries/chain/asset.cpp:48-115 | parsing a printed asset gives it back exactly when it has a symbol and its magnitude is below 2^62 |
| `AssetText.AssetParses` | libraries/chain/asset.cpp:73-117 | every amount text with sign, point and digits: amount, precision and id, or the error of the first bound it breaks |
| `AssetText.AssetRefused` | libraries/chain/asset.cpp:73-117 | no space, no mark and no digit behind the point are refused |
| `AssetText.TextExamples` | libraries/chain/asset.cpp:34-71 | texts of symbols and assets as a user sees them |
| `AssetText.IdWraps` | libraries/chain/asset.cpp:74-115 | an id beyond 32 bits is accepted as another symbol |
| `Name128.BitOrDisjoint` | libraries/chain/name128.cpp:71-100 | bitwise or of bits that do not overlap is their sum |
| `Name128.FromNumber` | libraries/chain/name128.cpp:71-100 | packs the decimal digits, first digit lowest, under the tag of their number |
| `Name128.ToText` | libraries/chain/name128.cpp:34-69 | the characters of the fields the tag allows, without the dots at the end |
| `Name128.NamePrints` | libraries/chain/name128.cpp:34-69 | a name prints as its characters |
| `Name128.TextInjective` | libraries/chain/name128.cpp:34-69 | different names print differently |
| `Name128.NumberPrintsAsDigits` | libraries/chain/name128.cpp:34-100 | the name of every 64-bit number prints as its decimal digits |
| `NameParsing.StringToName` | libraries/chain/include/evt/chain/name128.hpp:133-179 | packs the codes of the characters under the tag of their number |
| `NameParsing.PackedFields` | libraries/chain/include/evt/chain/name128.hpp:133-179 | tag by length, six bits for every character |
| `NameParsing.PrintedFields` | libraries/chain/name128.cpp:34-69 | how many fields the tag gives, the character of each, and that fields not printed are zero |
| `NameParsing.Set` | libraries/chain/name128.cpp:23-32 | takes exactly the texts of at most 21 alphabet characters that do not end with a dot, as the value that prints so |
| `NameParsing.SetChars` | libraries/chain/name128.cpp:11-21 | the same for C strings, without the empty one |
| `NameParsing.ProperIffPrint` | libraries/chain/name128.cpp:11-69 | these texts are exactly the prints of values |
| `NameParsing.NameIffTight` | libraries/chain/include/evt/chain/name128.hpp:133-179 | the values of names are those whose tag is the least that holds their characters |
| `NameParsing.ParseOfPrintIff` | libraries/chain/name128.cpp:11-69 | every print parses, to a value with the same print, and to the printed value exactly if its tag is the least |
| `NameParsing.WireRoundTripIff` | libraries/chain/include/evt/chain/name128.hpp:217-269 | a value reads back from its bytes, whatever follows, exactly if it fits the words its tag says |
| `NameParsing.TightFits` | libraries/chain/include/evt/chain/name128.hpp:217-269 | the value of every name does |

## Left out

- SecretSharing.GfMul: the case in which the result array is the second factor, which the source warns against.
- SecretSharing.GfInv: result and argument are different arrays, as in every call.
- DposRuns.RunKeepsInvariants: schedules whose quorum does not fit in a byte, and block numbers that reach 2^32.
- HeaderStateObject.BlockHeader.Next: signature recovery; the signer is a field of the header and the check compares it.
- ForkDatabase.ForkDb.Prune: only the oldest block is passed, as both callers do, so the loop over lower blocks is not
  modelled.
- ForkDatabase.ForkDb.Add: takes from the header state that the irreversible number of a block lies below it
  (`DposRuns.IrreversibleBelowProposed`).
- ForkDatabase.ForkDb.Remove: nothing is said of the head when no block is left, where the source takes the first of none.
- ForkConfirmations.ConfirmedForks.AddSigned: the header state of the new block is an argument; an id commits to one
  previous block.
- ForkSwitch.Controller.PushBlock: transactions, pending blocks, unapplied transactions and signals are not part of this
  model; the undo session of the lowest block itself, which cannot be reached, is not on the modelled stack.
- TokenStore.WriteCacheLayer.Put: the use count is unbounded, where the source has 32 bits.
- TokenStore.TokenDb.ReadAssetsRange: a scan that its callback stops early, after which the source does not restore the store.
- BlockLog.BlockLog.Append: block numbers and file sizes that stay within their 32 and 64 bits.
- BlockLog.BlockLog.ConstructIndex: version 2 of the log only.
- BlockLog.CopyHeader: a file that ends within its header is an error; the source goes on with values it has not read.
- BlockLog.RepairLog: the file of the bad tail and the log messages.
- Sha256Stream.Sha256Context.Update: chunks of more than 2^31 bytes, whose offsets overflow the signed integers of the source.
- Snapshot.BuildSectionIndexes: a section size of 2^63 or more, which the source takes as negative, ends the reading with an error.
- TokenSnapshot.AddReservedTokens: the numbers of the twelve reserved prefixes are arguments; their section names are the source's.
- TokenSnapshot.ReadFromSnapshot: reading into a database that is not empty keeps its other entries; not modelled.
- AssetText.AssetRoundTrip: the least 64-bit amount, whose magnitude does not exist in the source.
- `pop_back_savepoint`, which drops a group without merging it.
- RocksDB, chainbase, boost multi-index and file streams: maps, sets and byte strings stand for them.
- The merkle root, contract actions, authority checks, charges, plugins and wallet.
- `asset::from_integer`, which computes in floating point.
- The variant snapshot reader and writer and the integrity hash writer, which would add easy members.
