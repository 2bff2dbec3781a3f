# DexOS kernel: a verified model

A Dafny model of the DexOS exchange kernel's consensus, commitment, custody, order-wire and reporting code, with
proofs of the properties that code exists to provide. `dafny verify dfyconfig.toml` checks every file.

| file | models |
|---|---|
| `Minimmit.dfy` | the Minimmit protocol: honest replicas' rules against Byzantine members of weight at most B |
| `MinimmitChain.dfy` | the finalized chains of honest replicas over every run |
| `MinimmitFaults.dfy` | whom honest replicas halt |
| `MinimmitExecution.dfy`, `MinimmitLadder.dfy` | execution certificates and execution finality over every run |
| `MinimmitEpoch.dfy` | epoch rotation and the chain across it |
| `Quorum.dfy` | validator sets, certificates over bitmaps, the two-threshold committee |
| `Hashing.dfy`, `Merkle.dfy` | domain-separated preimages, the heap-array Merkle tree and its proofs |
| `Witness.dfy`, `WitnessRuns.dfy` | the bounded witness collector and its whole runs |
| `Checkpoint.dfy` | checkpoint headers, chains and forks |
| `Sequencer.dfy` | the pruned command log against the unpruned history |
| `CustodyCodec.dfy` | the custody edge's big-endian codec, its primitives and combinators |
| `Custody.dfy`, `CustodyIo.dfy` | the custody messages, their codecs, signed bodies, and field-by-field reading and writing |
| `Finality.dfy`, `Ledger.dfy` | deposit finality witnesses, the withdrawal ledger |
| `PrefixCode.dfy`, `PackedOrder.dfy` | packed order records, batches and authenticated preimages |
| `PackedClient.dfy` | the packed client's sequence state machine against arbitrary receipts |
| `Frame.dfy` | the frame envelope and TCP reassembly |
| `Numerals.dfy`, `Decimal.dfy` | fixed six-digit decimals |
| `Json.dfy`, `Report.dfy` | the JSON reader and writer, the benchmark report |
| `Bytes.dfy` | machine integers and byte orders |

Conventions:

- SHA-256 is a parameter. Injectivity of preimages is proved; where a result needs the hash itself to be
  collision-free, the lemma says so over an explicit set of preimages, never over all inputs.
- Signature validity is a parameter, a predicate on key, message and signature bytes.
- Machine widths are explicit: `u64` and its relatives are ranges of integers, and every checked, saturating or
  wrapping operation is written out. Addresses are 64 bits wide.
- An object the source mutates is a class whose methods are proved against functions of the old state; whole-run
  results are lemmas about those functions.
- A custody type's codec is its writer, its reader and its decoder's bounds, built field by field in wire order.
  `CustodyCodec.Exact` is the law every one of them is proved to meet.
- A block hash names one header as far as the hash has no collision among the headers proposed in a run and none of
  them hashes to the genesis hash. `Minimmit.HeadersBind` states these two assumptions on the hash.
- Executing a block is a function of the block, and so of its ancestors. An honest node attests it once, when its
  replica reports the block consensus-final, and an honest leader proposes once, when it enters its view.
- A JSON text is its UTF-8 bytes, each as the character of that code.
- Where the code and its documentation differ, the model follows the code. `detect_gap` wraps at 2^64
  although its documentation says strictly contiguous; `Sequencer.GapIsExact` says exactly when the two agree. The
  report's text form is promised to round-trip; `Report.ReportRoundTrip` proves it does exactly for ASCII. The
  documentation of `WithdrawalRequest::id` calls ids collision-free; the ledger's two maps are proved mutual inverses
  exactly as far as that holds. Epoch rotation is documented to retain the finalized chain; view numbers, proofs and
  the genesis parent start over, and `MinimmitEpoch` proves what of the chain that leaves.

## Model

| member | source | states |
|---|---|---|
| `Minimmit.HeaderPreimageInjective` | crates/consensus/src/minimmit/block.rs:69-76 | the hashed header bytes determine height, parent and payload root |
| `Minimmit.NamedOnce` | crates/consensus/src/minimmit/block.rs:69-76 | without hash collisions among the proposed headers a block hash names one header, hence one parent and one height |
| `Minimmit.StepInv` | crates/consensus/src/minimmit/replica.rs:616-1047 | every voting, timeout, contradiction, certificate, tallying and proposal step of an honest replica keeps: flags record exactly the votes cast in the current view, one notarize per view, stored proofs are real certificates, tallied votes were sent, every vote obeys the locking rule, and whoever nullified after notarizing did so only once the block had more than B dissenting honest weight |
| `Minimmit.ContradictorsAgainst` | crates/consensus/src/minimmit/replica.rs:953-972 | whoever the two tallies count against a block sent a nullify or a notarize for another block |
| `Minimmit.ContradictionOverrules` | crates/consensus/src/minimmit/replica.rs:946-999 | nullifying by contradiction is safe: M weight against a block leaves honest dissenters heavier than B, so it can never reach L |
| `Minimmit.FinalizedIsNotNullified` | docs/CONSENSUS_MINIMMIT.md:55-62 | an L-notarized block and a nullification of its view cannot both be assembled from the votes sent |
| `Minimmit.OneBlockPerView` | docs/CONSENSUS_MINIMMIT.md:507-508 | an L-notarized block excludes an M-notarization of any other block in its view |
| `Minimmit.LaterBlocksDescend` | docs/CONSENSUS_MINIMMIT.md:504-506 | once a block is L-notarized, every block M-notarized in any later view descends from it |
| `Minimmit.RunInv` | crates/consensus/src/minimmit/replica.rs:560-612 | the invariant holds after every interleaving of steps of all honest replicas, with Byzantine weight at most B signing anything |
| `Minimmit.MutualExclusion` | docs/CONSENSUS_MINIMMIT.md:502-508 | over every run, a view with an L-notarized block never gains a nullification or a rival M-notarization |
| `Minimmit.Agreement` | docs/CONSENSUS_MINIMMIT.md:500-501 | over every run, any two L-notarized blocks lie on one chain |
| `Minimmit.SelectedParentIsTheValidOne` | crates/consensus/src/minimmit/replica.rs:1319-1402 | the parent a leader selects is the one and only parent the voting rule accepts on the same proofs; none is selected exactly when none is acceptable |
| `MinimmitChain.NotarizedReachGenesis` | docs/CONSENSUS_MINIMMIT.md:504-506 | every M-notarized block descends from genesis through blocks honest members voted for |
| `MinimmitChain.RunChained` | crates/consensus/src/minimmit/replica.rs:1006-1047 | over every run, every honest replica's finalized chain is genesis and then blocks each after its parent, leading up to an L-notarized block, each at the height its header names |
| `MinimmitChain.OneBlockPerHeight` | docs/CONSENSUS_MINIMMIT.md:500-501 | over every run, two honest replicas never hold different blocks at one height, whatever heights the proposed headers claim |
| `MinimmitChain.ChainsAgree` | crates/consensus/src/minimmit/replica.rs:1006-1047 | over every run, the blocks two honest replicas hold lie on one chain |
| `MinimmitChain.AncestorsFinalized` | crates/consensus/src/minimmit/replica.rs:1010-1021 | over every run, whatever is on an honest chain has its parent on it and an L-notarized descendant |
| `MinimmitChain.WalkReturns` | crates/consensus/src/minimmit/replica.rs:1012-1021 | over every run, the ancestry walk returns for every block finalization can start on |
| `MinimmitChain.HonestRunFinalizes` | crates/consensus/src/minimmit/replica.rs:662-1047 | the rules are not vacuous: from the start, the honest members alone can finalize any proposed block on genesis at any of them; it is then on the chain at its own height, and left off exactly when that height is genesis's |
| `Minimmit.MinimmitReplica.constructor` | crates/consensus/src/minimmit/replica.rs:500-542 | a fresh replica in view 0 whose chain is genesis at height 0 |
| `Minimmit.MinimmitReplica.CheckParent` | crates/consensus/src/minimmit/replica.rs:1369-1402 | the scan accepts exactly a notarized parent (or genesis) below an unbroken run of nullified views |
| `Minimmit.MinimmitReplica.ChooseParent` | crates/consensus/src/minimmit/replica.rs:1319-1346 | the walk returns exactly the first notarized view across nullified ones, genesis, or none at a gap |
| `Minimmit.MinimmitReplica.OnTimerFired` | crates/consensus/src/minimmit/replica.rs:616-634 | nullifies exactly the current view, and only if no vote was cast in it |
| `Minimmit.MinimmitReplica.OnPropose` | crates/consensus/src/minimmit/replica.rs:731-795 | buffers exactly the first proposal of a view that this replica may still vote for, or that an earlier view's notarization names; a second, different one halts the view's leader and drops its votes |
| `Minimmit.MinimmitReplica.OnProposalVerified` | crates/consensus/src/minimmit/replica.rs:662-728 | answers exactly the waiting proposal; keeps a confirmed block, then notarizes it in the current view under the locking rule, once and never after nullifying, or finalizes it in an earlier view with an L-notarization of it |
| `Minimmit.WeightOf` | crates/consensus/src/minimmit/replica.rs:359-368 | the saturating fold gives exactly the weight of the members in the set |
| `Minimmit.MinimmitReplica.AdmitVote` | crates/consensus/src/minimmit/replica.rs:1223-1302 | counts a vote in its own tally, or halts a voter seen for two blocks in one view and drops all its votes |
| `Minimmit.MinimmitReplica.NullifyByContradiction` | crates/consensus/src/minimmit/replica.rs:946-999 | nullifies after notarizing exactly when the voters of the two tallies against that block weigh at least M in the current view |
| `Minimmit.MinimmitReplica.OnNotarization` | crates/consensus/src/minimmit/replica.rs:850-898 | a certificate verified at M keeps or upgrades the view's proof and enters the next view; verified at L it also finalizes the block |
| `Minimmit.MinimmitReplica.OnNullification` | crates/consensus/src/minimmit/replica.rs:901-920 | a certificate verified at M is kept if the view has no proof, and the next view entered |
| `Minimmit.MinimmitReplica.ConsensusFinalize` | crates/consensus/src/minimmit/replica.rs:1006-1047 | walks headers back to the chain, then inserts ancestors first up to the first height held by another block; a missing header changes nothing; a complete insertion moves the tip and prunes |
| `Minimmit.MinimmitReplica.Ancestry` | crates/consensus/src/minimmit/replica.rs:1010-1022 | the loop yields exactly the blocks from the chain up to the tip, or reports a missing header |
| `Minimmit.MinimmitReplica.Extend` | crates/consensus/src/minimmit/replica.rs:1024-1044 | the loop fills exactly the path's blocks at their heights until one is taken |
| `MinimmitFaults.EquivocatorByzantine` | crates/consensus/src/minimmit/replica.rs:1223-1300 | a voter tallied for two blocks of one view is Byzantine |
| `MinimmitFaults.ForkerByzantine` | crates/consensus/src/minimmit/replica.rs:754-774 | a leader halted for two proposals of one view is Byzantine |
| `MinimmitFaults.HonestNeverHalted` | crates/consensus/src/minimmit/replica.rs:1288-1300 | over every run in which honest leaders propose once per view, no honest replica halts an honest member |
| `MinimmitExecution.ClaimPreimageInjective` | crates/consensus/src/bft.rs:18-33 | the signed execution commitment determines epoch, view, height, block and root |
| `MinimmitExecution.GateOpensAtL` | crates/consensus/src/minimmit/replica.rs:1059-1088 | a consensus-final height is finalized, to the attested root, exactly when the voters heard weigh L, in any order and with repeats |
| `MinimmitExecution.FollowedInTurn` | crates/consensus/src/minimmit/replica.rs:1024-1041 | staging all heights of a longer chain is inserting and completing them one after another |
| `MinimmitExecution.ExecutionGate.TryComplete` | crates/consensus/src/minimmit/replica.rs:1090-1112 | finalizes exactly a consensus-final height with a certificate, once |
| `MinimmitExecution.ExecutionGate.OnConsensusFinal` | crates/consensus/src/minimmit/replica.rs:1031-1041 | stages the height, and finalizes it at once if its certificate came first |
| `MinimmitExecution.ExecutionGate.OnExecAttest` | crates/consensus/src/minimmit/replica.rs:1049-1088 | tallies an attestation of a verified block, halts a voter with two digests at one height, keeps a height's first certificate of weight L |
| `MinimmitExecution.ExecutionGate.HaltVoter` | crates/consensus/src/minimmit/replica.rs:1296-1298 | drops the voter's attestations at every height |
| `MinimmitLadder.MoveKeeps` | crates/consensus/src/minimmit/replica.rs:1006-1112 | every consensus step, attestation and delivery keeps: tallies and certificates only of attestations sent, one honest attestation per height and only about the signer's own chain, and a height finalized exactly if it has a certificate |
| `MinimmitLadder.DoublerByzantine` | crates/consensus/src/minimmit/replica.rs:1065-1068 | whoever is halted for two executions of one height is Byzantine |
| `MinimmitLadder.RunClimbs` | crates/consensus/src/minimmit/replica.rs:1049-1112 | over every run with attestations the consensus state is that of a run of the protocol, so all its results apply |
| `MinimmitLadder.ActedKeeps` | crates/consensus/src/minimmit/replica.rs:1024-1041 | no step takes a block off a chain or replaces one |
| `MinimmitLadder.FinalizedIsExecuted` | crates/consensus/src/minimmit/replica.rs:1090-1112 | over every run, a finalized height has the block of the replica's own chain and the root of executing that block, though completing it never compares the certificate's block |
| `MinimmitLadder.ExecutionAgreement` | docs/CONSENSUS_MINIMMIT.md:522-541 | over every run, two honest replicas never finalize a height with different blocks or different execution roots |
| `MinimmitLadder.LadderRises` | docs/CONSENSUS_MINIMMIT.md:543-557 | over every continuation of every run, a consensus-final height keeps its block and a finalized one its root |
| `MinimmitEpoch.NewUnitCommittee` | crates/consensus/src/minimmit/committee.rs:202-208 | builds exactly the canonical unit-weight sets of at least two, with the greatest Byzantine bound their number allows |
| `MinimmitEpoch.EpochReplica.ScheduleUpdate` | crates/consensus/src/minimmit/replica.rs:1487-1489 | the latest update replaces any earlier one and nothing else changes |
| `MinimmitEpoch.EpochReplica.PlaceIn` | crates/consensus/src/minimmit/replica.rs:1523-1534 | the place of the replica's key in the new set, or its old index if it does not sign |
| `MinimmitEpoch.EpochReplica.ActivateEpoch` | crates/consensus/src/minimmit/replica.rs:1503-1556 | succeeds exactly with an update for this epoch, every staged height finalized, and an acceptable set that still has this replica; any error, each in its place, changes nothing |
| `MinimmitEpoch.EpochAgreement` | docs/CONSENSUS_MINIMMIT.md:573-590 | whatever replicas keep from earlier epochs, over every run of a new one its L-notarized blocks lie on one chain and their views are not nullified |
| `MinimmitEpoch.LinearUnlessBranches` | crates/consensus/src/minimmit/replica.rs:1006-1047 | finalizing keeps a chain one line of ancestors if and only if the walk does not end below the chain's last block at a free height |
| `MinimmitEpoch.RotationBranches` | crates/consensus/src/minimmit/replica.rs:1541-1555 | the inputs on which that fails: after a rotation, a second child of genesis at another height |
| `MinimmitEpoch.LevelNeverBranches` | crates/consensus/src/minimmit/replica.rs:1024-1030 | with one height for all children of a block it never fails |
| `MinimmitEpoch.EpochStaysLinear` | crates/consensus/src/minimmit/replica.rs:1006-1047 | then every chain stays one line of ancestors over every run of every epoch |
| `MinimmitEpoch.RotatedGrowsByReplay` | crates/consensus/src/minimmit/replica.rs:1319-1346 | after a rotation a chain that stays one line grows only if every block on it is notarized again in the new epoch |
| `MinimmitEpoch.RotationStalls` | crates/consensus/src/minimmit/replica.rs:1007-1009 | over every run of a new epoch a chain does not change before a view above the old tip's is L-notarized |
| `Quorum.ValidateMembership` | crates/crypto/src/quorum.rs:397-416 | accepts exactly the sets of 1 to 16 distinct, positively weighted members whose total fits u64, and returns that total |
| `Quorum.Verify` | crates/crypto/src/quorum.rs:195-226 | accepts exactly the certificates whose bitmap names members, whose k-th signature is valid for the k-th named signer, and whose signers reach the threshold |
| `Quorum.RequireMinimmitSizing` | crates/crypto/src/quorum.rs:351-378 | accepts exactly when W >= 5B + 1 and M < L, with no overflow in either computation |
| `Quorum.NewCommittee` | crates/consensus/src/minimmit/committee.rs:130-190 | builds exactly the canonical committees that tolerate B, with M = 2B + 1 and L = W - B over one member list |
| `Quorum.FinalizeQuorumsIntersect` | crates/crypto/src/quorum.rs:351-378 | two L-quorums share weight at least W - 2B >= 3B + 1 |
| `Quorum.AdvanceMeetsFinalize` | docs/CONSENSUS_MINIMMIT.md:37-39 | an M-quorum and an L-quorum share more than B |
| `Quorum.RivalCertificates` | crates/crypto/src/quorum.rs:195-226 | two certificates of one committee expose members of weight at least 3B + 1 with a valid signature in both |
| `Hashing.PreimageInjective` | crates/crypto/src/hash.rs:24-31 | the length-prefixed preimage determines domain and data |
| `Hashing.HashDomainParts` | crates/crypto/src/hash.rs:36-52 | hashing parts one by one equals hashing their concatenation |
| `Merkle.NodePreimageInjective` | crates/crypto/src/hash.rs:65-70 | a node preimage determines both children |
| `Merkle.MerkleTree.constructor` | crates/crypto/src/merkle.rs:38-46 | an empty tree of the next power-of-two capacity, every node consistent |
| `Merkle.MerkleTree.FromLeaves` | crates/crypto/src/merkle.rs:53-64 | a tree over the zero-padded leaves, every node consistent |
| `Merkle.MerkleTree.RecomputeAllParents` | crates/crypto/src/merkle.rs:131-138 | rebuilding every parent from the leaves makes the whole array consistent and changes no leaf |
| `Merkle.MerkleTree.Set` | crates/crypto/src/merkle.rs:72-84 | repairing one path replaces exactly one leaf and restores consistency of every node; an index beyond capacity changes nothing |
| `Merkle.MerkleTree.Root` | crates/crypto/src/merkle.rs:87-90 | the cached root is the recursive root of the current leaves |
| `Merkle.MerkleTree.ValidateInvariants` | crates/crypto/src/merkle.rs:97-114 | succeeds if and only if capacity, length and every internal node are consistent |
| `Merkle.MerkleTree.Proof` | crates/crypto/src/merkle.rs:117-128 | the siblings read off the heap array are the reference proof of the leaf |
| `Merkle.RootOf` | crates/crypto/src/merkle.rs:142-147 | the one-pass tree's root is the recursive root of the leaves, ZERO for none |
| `Merkle.RunSets` | crates/crypto/src/merkle.rs:38-147 | after any run of set calls on a new tree, the repaired root equals the from-scratch root, validation succeeds and each leaf's proof is accepted |
| `Merkle.SlotIsNode` | crates/crypto/src/merkle.rs:72-84 | in a consistent array every slot holds the recursive hash of the leaves below it |
| `Merkle.VerifyProof` | crates/crypto/src/merkle.rs:151-169 | accepts exactly the index in range and sibling list that climb from the leaf to the root |
| `Merkle.ProofComplete` | crates/crypto/src/merkle.rs:151-169 | the reference proof of every leaf of every tree is accepted |
| `Merkle.ProofBinds` | crates/crypto/src/merkle.rs:151-169 | with collision-free nodes, an accepted proof of the tree's depth carries exactly leaf i and exactly the tree's own siblings |
| `Merkle.TwoProofsAgree` | crates/crypto/src/merkle.rs:151-169 | one root, index and depth admit one leaf and one sibling list |
| `Merkle.MerkleRootBinds` | crates/crypto/src/merkle.rs:142-147 | equal-length leaf lists with equal roots are equal |
| `Witness.ClaimPreimageInjective` | crates/consensus/src/checkpoint.rs:411-425 | the witness digest's preimage determines epoch, shard, range and root |
| `Witness.WitnessCollector.constructor` | crates/consensus/src/checkpoint.rs:509-520 | an empty collector satisfies the collector invariant |
| `Witness.WitnessCollector.AddReceipt` | crates/consensus/src/checkpoint.rs:561-629 | refuses in the source's order leaving the collector untouched, or records the receipt; entries stay the exact number of retained (digest, witness) pairs and within the cap |
| `Witness.WitnessCollector.PruneBelow` | crates/consensus/src/checkpoint.rs:538-554 | removes exactly the ranges that start below the watermark, from all three maps, and keeps the entry count exact |
| `Witness.WitnessCollector.DropStale` | crates/consensus/src/checkpoint.rs:543-553 | the eviction loop drops exactly the given digests and their entries |
| `Witness.WitnessCollector.Certify` | crates/consensus/src/checkpoint.rs:633-672 | under the admitting committee, succeeds if and only if retained weight reaches L, naming exactly the retained witnesses; below-threshold is the only reachable error |
| `Witness.Gather` | crates/consensus/src/checkpoint.rs:640-660 | the bitmap and signatures packed in ascending order are exactly the retained witnesses and their signatures, with their total weight |
| `Witness.AdmittedValid` | crates/consensus/src/checkpoint.rs:561-629 | admission keeps counts, window and index consistent |
| `Witness.PrunedValid` | crates/consensus/src/checkpoint.rs:538-554 | pruning keeps counts, window and index consistent |
| `WitnessRuns.RunInvariant` | crates/consensus/src/checkpoint.rs:538-672 | after every interleaving of admissions, prunings and queries: entries are backed by admitted receipts, nothing above the watermark is forgotten, no witness has two roots for one range |
| `WitnessRuns.HeldWitnesses` | crates/consensus/src/checkpoint.rs:538-629 | the witnesses held for a claim are exactly those ever admitted for it, if and only if its range starts at or above the watermark |
| `WitnessRuns.NeverTwoRoots` | crates/consensus/src/checkpoint.rs:538-672 | over every run a collector never certifies two roots for one shard and range, even if every witness is dishonest |
| `WitnessRuns.RivalCollectors` | crates/consensus/src/checkpoint.rs:633-672 | two collectors that certify rival roots expose weight at least 3B + 1 signing both |
| `Checkpoint.HeaderPreimageInjective` | crates/consensus/src/checkpoint.rs:82-95 | the hashed header bytes determine every header field |
| `Checkpoint.Build` | crates/consensus/src/checkpoint.rs:215-266 | succeeds exactly when the range is in order, its width fits u64 and both lists have that width; the header then carries the two lists' Merkle roots and every given field |
| `Checkpoint.BuildBinds` | crates/consensus/src/checkpoint.rs:215-266 | equal checkpoint hashes come from the same command and execution lists, element by element |
| `Checkpoint.VerifyCheckpoint` | crates/consensus/src/checkpoint.rs:306-322 | accepts exactly an ordered range whose certificate is over the recomputed hash and passes the set |
| `Checkpoint.VerifyChain` | crates/consensus/src/checkpoint.rs:348-356 | accepts exactly when every checkpoint verifies and links to its predecessor |
| `Checkpoint.ChainTiles` | crates/consensus/src/checkpoint.rs:339-356 | an accepted chain tiles its interval: every sequence lies in exactly one checkpoint, with no gap, overlap or wrap, on one shard with adjoining state roots |
| `Checkpoint.ChainHistoriesAgree` | crates/consensus/src/checkpoint.rs:215-266 | chains with pairwise equal hashes commit to one command and execution history |
| `Checkpoint.ForkExposesDoubleSigners` | crates/consensus/src/checkpoint.rs:306-380 | two L-verified forked checkpoints were both signed by weight at least W - 2B >= 3B + 1, over different hashes |
| `Sequencer.Sequencer.Accept` | crates/consensus/src/sequencer.rs:195-203 | hands out the next number and appends the record, or reports exhaustion and changes nothing |
| `Sequencer.Sequencer.Ingest` | crates/consensus/src/sequencer.rs:210-228 | appends exactly at the expected number, otherwise reports the gap and changes nothing |
| `Sequencer.Sequencer.Advance` | crates/consensus/src/sequencer.rs:250-269 | raises a status strictly, or reports the exact error and changes nothing |
| `Sequencer.Sequencer.RangeRoot` | crates/consensus/src/sequencer.rs:288-316 | the loop returns the Merkle root of exactly the range, or the first out-of-window sequence's error |
| `Sequencer.Sequencer.PruneBelow` | crates/consensus/src/sequencer.rs:330-338 | drops finalized records below the watermark; base plus length is unchanged, so the saturating increment never saturates |
| `Sequencer.RunRefines` | crates/consensus/src/sequencer.rs:166-338 | after every run the log is the unpruned history with a finalized prefix dropped |
| `Sequencer.RunCommandRoot` | crates/consensus/src/sequencer.rs:288-316 | over a surviving range the command root is that of the same slice of the unpruned history; below it the call says pruned |
| `Sequencer.NumberingIsGapFree` | crates/consensus/src/sequencer.rs:166-228 | the k-th accepted command gets number k whatever is pruned, so no number is assigned twice, up to u64::MAX |
| `Sequencer.StatusesRise` | crates/consensus/src/sequencer.rs:250-269 | over any continuation of a run commands keep number and hash and statuses only rise |
| `Sequencer.DetectGap` | crates/consensus/src/sequencer.rs:347-356 | None exactly for a list contiguous modulo 2^64, otherwise the first divergence |
| `Sequencer.WrapIsNoGap` | crates/consensus/src/sequencer.rs:341-356 | the documented promise fails at the wrap: 2^64 - 1 followed by 0 shows no gap |
| `Sequencer.GapIsExact` | crates/consensus/src/sequencer.rs:341-356 | for every start and length, no gap means strictly contiguous for all lists of that length if and only if the counter does not wrap within them |
| `CustodyCodec.ReadAfterWrite` | crates/chain-adapter/src/codec.rs:213-234 | for every exact codec, reading what was written, followed by anything, returns the value and leaves the rest |
| `CustodyCodec.WriteAfterRead` | crates/chain-adapter/src/codec.rs:213-234 | whatever is read is within the decoder's bounds and is exactly what writing it produces |
| `CustodyCodec.DecodeExact` | crates/chain-adapter/src/codec.rs:222-227 | a byte string decodes to x if and only if it is x's encoding and x is within the decoder's bounds; trailing bytes are refused |
| `CustodyCodec.PrefixFree` | crates/chain-adapter/src/codec.rs:50-98 | the bytes determine the value and where it ends |
| `CustodyCodec.BothExact` | crates/chain-adapter/src/codec.rs:213-234 | a field followed by others is exact if both are |
| `CustodyCodec.ListExact` | crates/chain-adapter/src/wire.rs:37-65 | a bounded, counted list of exact items is exact |
| `CustodyCodec.WordsExact` | crates/chain-adapter/src/ids.rs:29-63 | chain, asset and account ids are exact: no two numbers share an encoding, and every 8, 4 or 2 bytes are one |
| `CustodyCodec.I128Exact` | crates/chain-adapter/src/wire.rs:19-26 | amounts are exact over the whole signed range |
| `CustodyCodec.HashExact` | crates/chain-adapter/src/wire.rs:10-17 | hashes and withdrawal ids are exact |
| `CustodyCodec.BlobsExact` | crates/chain-adapter/src/ids.rs:83-94 | length-prefixed byte strings within the bound are exact, and longer ones are refused |
| `Custody.ProofRoundTrip` | crates/chain-adapter/src/deposit.rs:95-108 | bytes decode to this value if and only if they are a finality proof's encoding, of any value |
| `Custody.QcRoundTrip` | crates/chain-adapter/src/wire.rs:37-65 | bytes decode to this value if and only if they are a certificate's encoding, and the certificate has at most 16 signatures of 64 bytes |
| `Custody.EventRoundTrip` | crates/chain-adapter/src/deposit.rs:56-75 | bytes decode to this value if and only if they are an event's encoding, and its transaction id is within the bound |
| `Custody.DepositRoundTrip` | crates/chain-adapter/src/deposit.rs:169-190 | bytes decode to this value if and only if they are a verified deposit's encoding, and its transaction id is within the bound |
| `Custody.DepositCertificateRoundTrip` | crates/chain-adapter/src/deposit.rs:310-335 | bytes decode to this value if and only if they are a deposit certificate's encoding, and its transaction id and certificate are within bounds |
| `Custody.HeaderRoundTrip` | crates/chain-adapter/src/finality.rs:46-59 | bytes decode to this value if and only if they are a block header's encoding, of any value |
| `Custody.InclusionRoundTrip` | crates/chain-adapter/src/finality.rs:85-108 | bytes decode to this value if and only if they are an inclusion proof's encoding, and it has at most 64 siblings |
| `Custody.WitnessRoundTrip` | crates/chain-adapter/src/finality.rs:136-156 | bytes decode to this value if and only if they are a finality witness's encoding, and it has at most 4096 headers and 64 siblings |
| `Custody.StatusRoundTrip` | crates/chain-adapter/src/withdrawal.rs:74-97 | bytes decode to this value if and only if they are a status's tag and fields, of any value |
| `Custody.RequestRoundTrip` | crates/chain-adapter/src/withdrawal.rs:142-179 | bytes decode to this value if and only if they are a withdrawal request's encoding, and address and signature are within bounds |
| `Custody.UnsignedTxRoundTrip` | crates/chain-adapter/src/withdrawal.rs:227-248 | bytes decode to this value if and only if they are an unsigned transaction's encoding, with byte strings a length prefix can count |
| `Custody.WithdrawalCertificateRoundTrip` | crates/chain-adapter/src/withdrawal.rs:317-340 | bytes decode to this value if and only if they are a settlement certificate's encoding, and its transaction id and certificate are within bounds |
| `CustodyIo.PutProof` | crates/chain-adapter/src/deposit.rs:95-108 | the source's field-by-field writes append exactly the codec's encoding of the finality proof |
| `CustodyIo.GetProof` | crates/chain-adapter/src/deposit.rs:95-108 | the source's field-by-field reads give exactly the codec's value, end position or error for the finality proof |
| `CustodyIo.PutQc` | crates/chain-adapter/src/wire.rs:37-65 | the source's field-by-field writes append exactly the codec's encoding of the certificate, signature by signature |
| `CustodyIo.GetQc` | crates/chain-adapter/src/wire.rs:37-65 | the source's field-by-field reads give exactly the codec's value, end position or error for the certificate, signature by signature |
| `CustodyIo.PutEvent` | crates/chain-adapter/src/deposit.rs:56-75 | the source's field-by-field writes append exactly the codec's encoding of the event |
| `CustodyIo.GetEvent` | crates/chain-adapter/src/deposit.rs:56-75 | the source's field-by-field reads give exactly the codec's value, end position or error for the event |
| `CustodyIo.PutDeposit` | crates/chain-adapter/src/deposit.rs:169-190 | the source's field-by-field writes append exactly the codec's encoding of the verified deposit |
| `CustodyIo.GetDeposit` | crates/chain-adapter/src/deposit.rs:169-190 | the source's field-by-field reads give exactly the codec's value, end position or error for the verified deposit |
| `CustodyIo.PutDepositCertificate` | crates/chain-adapter/src/deposit.rs:310-335 | the source's field-by-field writes append exactly the codec's encoding of the deposit certificate |
| `CustodyIo.GetDepositCertificate` | crates/chain-adapter/src/deposit.rs:310-335 | the source's field-by-field reads give exactly the codec's value, end position or error for the deposit certificate |
| `CustodyIo.PutHeader` | crates/chain-adapter/src/finality.rs:46-59 | the source's field-by-field writes append exactly the codec's encoding of the block header |
| `CustodyIo.GetHeader` | crates/chain-adapter/src/finality.rs:46-59 | the source's field-by-field reads give exactly the codec's value, end position or error for the block header |
| `CustodyIo.PutInclusion` | crates/chain-adapter/src/finality.rs:85-108 | the source's field-by-field writes append exactly the codec's encoding of the inclusion proof, sibling by sibling |
| `CustodyIo.GetInclusion` | crates/chain-adapter/src/finality.rs:85-108 | the source's field-by-field reads give exactly the codec's value, end position or error for the inclusion proof, sibling by sibling |
| `CustodyIo.PutWitness` | crates/chain-adapter/src/finality.rs:136-156 | the source's field-by-field writes append exactly the codec's encoding of the finality witness, header by header |
| `CustodyIo.GetWitness` | crates/chain-adapter/src/finality.rs:136-156 | the source's field-by-field reads give exactly the codec's value, end position or error for the finality witness, header by header |
| `CustodyIo.PutStatus` | crates/chain-adapter/src/withdrawal.rs:74-97 | the source's field-by-field writes append exactly the codec's encoding of the status |
| `CustodyIo.GetStatus` | crates/chain-adapter/src/withdrawal.rs:74-97 | the source's field-by-field reads give exactly the codec's value, end position or error for the status |
| `CustodyIo.PutRequest` | crates/chain-adapter/src/withdrawal.rs:142-179 | the source's field-by-field writes append exactly the codec's encoding of the withdrawal request |
| `CustodyIo.GetRequest` | crates/chain-adapter/src/withdrawal.rs:142-179 | the source's field-by-field reads give exactly the codec's value, end position or error for the withdrawal request |
| `CustodyIo.PutUnsignedTx` | crates/chain-adapter/src/withdrawal.rs:227-248 | the source's field-by-field writes append exactly the codec's encoding of the unsigned transaction |
| `CustodyIo.GetUnsignedTx` | crates/chain-adapter/src/withdrawal.rs:227-248 | the source's field-by-field reads give exactly the codec's value, end position or error for the unsigned transaction |
| `CustodyIo.PutWithdrawalCertificate` | crates/chain-adapter/src/withdrawal.rs:317-340 | the source's field-by-field writes append exactly the codec's encoding of the settlement certificate |
| `CustodyIo.GetWithdrawalCertificate` | crates/chain-adapter/src/withdrawal.rs:317-340 | the source's field-by-field reads give exactly the codec's value, end position or error for the settlement certificate |
| `CustodyCodec.Writer.PutBlob` | crates/chain-adapter/src/codec.rs:80-88 | appends the length and the bytes, whatever the buffer holds |
| `CustodyCodec.Reader.TakeBytes` | crates/chain-adapter/src/codec.rs:115-126 | takes exactly n bytes, or reports the error and does not move |
| `CustodyCodec.Reader.GetLen` | crates/chain-adapter/src/codec.rs:173-180 | a length prefix, refused when it exceeds the bytes left |
| `CustodyIo.DecodeDepositCertificate` | crates/chain-adapter/src/codec.rs:222-227 | reads one certificate and refuses anything left over, with the specified value or error |
| `CustodyIo.DecodeRequest` | crates/chain-adapter/src/codec.rs:222-227 | likewise for a withdrawal request |
| `CustodyIo.DecodeWithdrawalCertificate` | crates/chain-adapter/src/codec.rs:222-227 | likewise for a settlement certificate |
| `CustodyIo.CertificateThereAndBack` | crates/chain-adapter/src/codec.rs:215-227 | encoding with the writer and decoding with the reader returns the certificate exactly when it is within the decoder's bounds |
| `CustodyIo.DepositBodyBytes` | crates/chain-adapter/src/deposit.rs:195-213 | writing the fields one by one in the source's order gives exactly the deposit body |
| `CustodyIo.SigningBodyBytes` | crates/chain-adapter/src/withdrawal.rs:123-134 | likewise for the body the user signs |
| `CustodyIo.WithdrawalBodyBytes` | crates/chain-adapter/src/withdrawal.rs:343-359 | likewise for the settlement body |
| `Custody.DepositBytesInjective` | crates/chain-adapter/src/deposit.rs:195-213 | the deposit message body determines every certified field, including the finality proof |
| `Custody.SigningBytesInjective` | crates/chain-adapter/src/withdrawal.rs:123-134 | requests with equal signed bodies differ at most in the user signature |
| `Custody.WithdrawalBytesInjective` | crates/chain-adapter/src/withdrawal.rs:343-359 | the settlement body determines every field but bitmap and signatures |
| `Custody.RequestIdBinds` | crates/chain-adapter/src/withdrawal.rs:123-139 | with collision-free hashing, withdrawal ids are equal if and only if the requests differ at most in the user signature |
| `Custody.VerifyDeposit` | crates/chain-adapter/src/deposit.rs:284-307 | accepts exactly final, bitmap-consistent certificates over their own message that pass the observers |
| `Custody.DepositMessageBinds` | crates/chain-adapter/src/deposit.rs:284-307 | accepted certificates over one message credit one deposit |
| `Finality.VerifyFinality` | crates/chain-adapter/src/finality.rs:177-236 | accepts exactly non-empty linked runs with an included event and enough headers, with the source's error for each failure; confirmations equal head number minus base number plus one |
| `Finality.FinalityBinds` | crates/chain-adapter/src/finality.rs:177-236 | on any chain whose hashing binds, witnesses whose heads hash alike: the shorter run is a suffix of the longer; equal base numbers give one base; equal leaf index and depth then give one event |
| `Finality.SvmBinds` | crates/chain-adapter-svm/src/lib.rs:51-59 | the SVM header and leaf preimages determine header and event, so collision-free SHA-256 over the bytes hashed makes both binding |
| `Finality.EvmBinds` | crates/chain-adapter-evm/src/lib.rs:48-61 | likewise for the EVM preimages under keccak |
| `Finality.SvmFinalityBinds` | crates/chain-adapter-svm/src/lib.rs:51-59 | the finality result on the SVM chain from collision-freeness of SHA-256 over the headers, leaf and tree nodes hashed, and nothing else |
| `Finality.EvmFinalityBinds` | crates/chain-adapter-evm/src/lib.rs:48-61 | likewise on the EVM chain, from keccak over headers and leaf and SHA-256 over tree nodes |
| `Ledger.WithdrawalLedger.ReserveNonce` | crates/chain-adapter/src/reservation.rs:92-123 | claims a free slot, returns the holder's own reservation, or refuses; both maps change together |
| `Ledger.WithdrawalLedger.RecordBroadcast` | crates/chain-adapter/src/reservation.rs:153-170 | records one transaction per withdrawal, returns it on retry, refuses any other |
| `Ledger.WithdrawalLedger.FinalizeWithdrawal` | crates/chain-adapter/src/reservation.rs:178-189 | finalizes only what was broadcast, idempotently |
| `Ledger.WithdrawalLedger.ReleaseNonce` | crates/chain-adapter/src/reservation.rs:200-209 | frees a slot only before broadcast, from both maps |
| `Ledger.ReserveOnce` | crates/chain-adapter/src/reservation.rs:92-123 | after a reservation, a retry gets it back as not fresh and any other id is refused, changing nothing |
| `Ledger.RecordOnce` | crates/chain-adapter/src/reservation.rs:153-170 | after a broadcast is recorded, a retry gets it back and any other transaction is refused, changing nothing |
| `Ledger.NoDoubleSend` | crates/chain-adapter/src/reservation.rs:92-209 | over every run each (account, nonce) is broadcast under at most one id and one transaction, whatever the hash does |
| `Ledger.SentIsHeld` | crates/chain-adapter/src/reservation.rs:153-209 | every transaction ever sent still holds its slot |
| `Ledger.HeldForEver` | crates/chain-adapter/src/reservation.rs:153-209 | a broadcast or finalized slot is held by its id in every later state |
| `Ledger.InverseStep` | crates/chain-adapter/src/reservation.rs:92-123 | the two maps stay mutual inverses across a call if and only if it is not a fresh reservation whose id already holds another slot |
| `Ledger.RunInverse` | crates/chain-adapter/src/reservation.rs:92-209 | with collision-free ids the two maps are mutual inverses in every reachable state |
| `Ledger.CollidingIdsBreakInverse` | crates/chain-adapter/src/reservation.rs:115-116 | two requests for different slots with one id break the correspondence as soon as both reserve |
| `Ledger.ConstantHashBreaksInverse` | crates/chain-adapter/src/reservation.rs:115-116 | a concrete instance of that failure |
| `PackedOrder.DecodeAfterEncode` | crates/codec/src/packed_order.rs:128-314 | every valid record decodes to itself with its exact length, whatever follows |
| `PackedOrder.EncodeAfterDecode` | crates/codec/src/packed_order.rs:228-314 | whatever decodes is valid and re-encodes to exactly the bytes consumed |
| `PackedOrder.FlagsRepack` | crates/codec/src/packed_order.rs:576-625 | every accepted flag byte is the packing of what it unpacks to |
| `PackedOrder.EncodeInto` | crates/codec/src/packed_order.rs:128-213 | writes exactly the record's span, or reports the error and writes nothing |
| `PackedOrder.EncodeBatch` | crates/codec/src/packed_order.rs:322-356 | succeeds exactly on 32 to 128 valid records that fit; overwrites exactly the bytes of the records before the first invalid one; the size, space and value errors in that order, the first two writing nothing |
| `PackedOrder.DecodeBatch` | crates/codec/src/packed_order.rs:370-396 | fills the slots with the unique list when the bytes are that many valid records, fails exactly when no such list exists, and reports the first bad record's own error or the bytes left over |
| `PackedOrder.EncodeAllInjective` | crates/codec/src/packed_order.rs:322-396 | a byte string is the encoding of at most one list, of one length |
| `PackedOrder.AuthBytesInjective` | crates/codec/src/packed_order.rs:437-493 | the authenticated preimage determines the binding and the record bytes |
| `PackedOrder.AuthBindsRecords` | crates/codec/src/packed_order.rs:437-493 | and the record list |
| `PackedOrder.CountRecords` | crates/codec/src/packed_order.rs:449-467 | the record walk returns the one count of valid records of the session, and fails exactly when no count up to 255 fits |
| `PackedOrder.AuthPreimageInto` | crates/codec/src/packed_order.rs:437-493 | accepts exactly the declared number of valid records of the bound session that fit; a rejected call leaves the buffer untouched; the length field never overflows |
| `PrefixCode.FrontIsPrefix` | crates/codec/src/packed_order.rs:370-396 | a valid list encoded at the front of an encoded list is a prefix of that list, for any prefix-free encoding |
| `PackedClient.PackedClient.ReadReceipt` | crates/client/src/packed.rs:266-294 | a frame counts exactly when it carries the next number |
| `PackedClient.PackedClient.Check` | crates/client/src/packed.rs:143-175 | refuses before the first write with exactly the source's error in the source's order |
| `PackedClient.PackedClient.SendBatch` | crates/client/src/packed.rs:137-264 | each call has exactly the specified effect on the sequence fields, the poison flag, the late-finality set and the history of signed batches and accepted frames |
| `PackedClient.PackedClient.Receive` | crates/client/src/packed.rs:199-263 | the receipt loop has exactly the specified effect for every list of incoming receipts |
| `PackedClient.SendKeeps` | crates/client/src/packed.rs:137-326 | one call keeps the invariant, poisons the client on any failure after a write, and never reports a duplicate key or, after a write, a full table |
| `PackedClient.RunSafety` | crates/client/src/packed.rs:137-326 | over every run against arbitrary receipts: signed ranges are disjoint and increasing, sent frames and accepted receipt frames are each 0, 1, 2, ..., the late-finality set stays in bound |
| `PackedClient.NothingAfterAmbiguity` | crates/client/src/packed.rs:189-201 | after a call that wrote and failed nothing is ever signed again |
| `PackedClient.UnreachableErrors` | crates/client/src/packed.rs:296-314 | no call of any run reports a duplicate key, and none reports a full table after writing |
| `PackedClient.SuccessIsCorrelated` | crates/client/src/packed.rs:203-263 | over every run, a call that succeeds signed exactly one batch, and its outcome's receipts came in during that call for that batch and its record count: an execution receipt always, a finality receipt exactly when asked to wait for it |
| `Frame.DecodeAfterEncode` | crates/codec/src/lib.rs:235-364 | an encoded frame decodes to itself and its own length, whatever follows |
| `Frame.EncodeAfterDecode` | crates/codec/src/lib.rs:325-364 | whatever decodes is byte for byte the encoding of the frame returned |
| `Frame.SplitAfterEncode` | crates/codec/src/lib.rs:325-364 | any concatenation of encoded frames splits into those frames with those lengths |
| `Frame.EncodeAfterSplit` | crates/codec/src/lib.rs:325-364 | only such a concatenation splits |
| `Frame.ByteVec.EncodeInto` | crates/codec/src/lib.rs:266-297 | the same bytes as encode, or the payload, capacity or width error, in that order, and an untouched vector |
| `Frame.Reassembly.OnData` | bindings/ts/src/transport.ts:96-108 | resolves exactly when the frame at the front of the stream is complete |
| `Frame.Receive` | bindings/ts/src/transport.ts:88-108 | however the stream is cut into chunks, the response is the frame at its front |
| `Frame.ReassemblyIsExact` | bindings/ts/src/transport.ts:48-108 | a stream starting with an encoded frame yields exactly its bytes; any proper prefix yields nothing |
| `Decimal.ParseAfterPrint` | bindings/ts/src/amount.ts:27-54 | for every integer, parsing its printed form returns it |
| `Decimal.NormalForm` | bindings/ts/src/amount.ts:27-54 | printing an accepted string's value gives an accepted string of equal value that is a fixed point |
| `Decimal.FixedPoints` | bindings/ts/src/amount.ts:27-54 | a string is a fixed point of parse-then-print if and only if it is canonical: no spaces, leading zeros or minus zero, exactly six decimals |
| `Json.PrintDenotes` | crates/benchmarks/src/json.rs:104-484 | a printed document, wherever it stands and whatever delimiter follows, parses to what it stands for and the parser stops where it ends |
| `Json.ParseAfterPrint` | crates/benchmarks/src/json.rs:270-280 | parsing a printed document returns its value, with each UTF-8 byte of a string read as one character |
| `Json.Parser.AnyValue` | crates/benchmarks/src/json.rs:305-316 | terminates on every input with the grammar's value, position and error |
| `Json.Parser.ArrayValue` | crates/benchmarks/src/json.rs:428-451 | likewise for arrays |
| `Json.Parser.ObjectValue` | crates/benchmarks/src/json.rs:453-484 | likewise for objects, a later key replacing an earlier one |
| `Json.Parser.QuotedString` | crates/benchmarks/src/json.rs:383-426 | likewise for strings and all escapes |
| `Json.Parser.Number` | crates/benchmarks/src/json.rs:352-381 | likewise for integers, refusing fractions, exponents and i128 overflow |
| `Json.ParseText` | crates/benchmarks/src/json.rs:270-280 | the whole text is one value or the exact error |
| `Json.StringPrinted` | crates/benchmarks/src/json.rs:104-121 | a quoted string of any characters is read back as its UTF-8 bytes, one character each |
| `Json.Utf8TextSame` | crates/benchmarks/src/json.rs:417-422 | that reading returns the string itself if and only if the string is ASCII |
| `Json.JsonWriter.WriteString` | crates/benchmarks/src/json.rs:104-121 | appends exactly the quoted, escaped string, characters outside ASCII as their UTF-8 bytes |
| `Json.ObjectWriter.Key` | crates/benchmarks/src/json.rs:189-198 | writes the brace before the first key and a comma before every other |
| `Json.ObjectWriter.StrField` | crates/benchmarks/src/json.rs:218-222 | adds one string field; likewise the integer, boolean and optional fields |
| `Json.ObjectWriter.OptField` | crates/benchmarks/src/json.rs:226-235 | adds a number or null |
| `Json.ObjectWriter.Finish` | crates/benchmarks/src/json.rs:260-267 | the object's text is exactly the printed object of the fields added, in call order, the empty object included |
| `Report.WriteStat` | crates/benchmarks/src/report.rs:108-132 | the source's field-by-field calls write exactly the statistic's printed object, counters nested |
| `Report.WriteTarget` | crates/benchmarks/src/report.rs:134-146 | likewise for a target |
| `Report.ToJson` | crates/benchmarks/src/report.rs:86-106 | the source's calls write exactly the report's printed document |
| `Report.FromJson` | crates/benchmarks/src/report.rs:150-179 | the collecting loops return exactly what the pure reading of the parsed value gives, with the source's schema messages |
| `Report.StatBack` | crates/benchmarks/src/report.rs:324-343 | a statistic's sixteen fields are read back, its name as its UTF-8 bytes |
| `Report.TargetBack` | crates/benchmarks/src/report.rs:345-361 | a target's nine fields are read back, its texts as their UTF-8 bytes |
| `Report.ReadBack` | crates/benchmarks/src/report.rs:86-179 | for every report, reading back what was written gives the report with each string as its UTF-8 bytes |
| `Report.ReportRoundTrip` | crates/benchmarks/src/report.rs:86-179 | reading back a written report returns it if and only if all its strings are ASCII |
| `Report.AccentIsLost` | crates/benchmarks/src/report.rs:86-179 | a report with one accented letter comes back with two letters in its place |
| `Report.WriteThenRead` | crates/benchmarks/src/report.rs:86-179 | the same if-and-only-if over the mutable writer and parser |

## Left out

- SHA-256, keccak, ed25519, secp256k1 and EIP-712: kept as parameters.
- The order book, risk engine, execution, storage and custody controller: not part of this model.
- Minimmit.StepInv: vote windows and quotas, proposer and signature checks only restrict which votes, proposals and
  certificates a replica acts on, so the model lets it act on any that the votes sent can make up. Timers, effects,
  slashing evidence and the u64 bound on views are left out.
- MinimmitLadder.ExecutionAgreement: a run is one epoch's. The certificates' signature bytes and the view kept with a
  stage are left out.
- Liveness of Minimmit: only that an honest run can finalize.
- SIMD backends: only the scalar little-endian form is modelled.
- Sockets, TLS, timeouts and asynchronous plumbing: the packed client keeps the state transitions, with signing,
  writing and incoming frames as inputs.
- PackedClient.PackedClient.SendBatch: the order-batch envelope and its signature are inputs that succeed or fail.
- Ledger.ConstantHashBreaksInverse: the instance uses a constant hash; no collision of SHA-256 is known to put there.
- Wire types outside the custody edge (postcard encodings, consensus messages): only their signed preimages appear.
- Deposit tracking, finality policy tables, session scope checks and version negotiation: a branch or two each.
- The Markdown report, benchmark harness and provenance capture.
