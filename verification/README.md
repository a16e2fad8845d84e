# POLAY in Dafny

A Dafny model of the core of POLAY, a gaming blockchain written in Rust, and proofs about it: the
Tendermint-style consensus machine, the parallel transaction scheduler and executor, the Merkle root,
the execution ledger with stateful validation, and the mempool. `dafny verify dfyconfig.toml` checks
the whole project.

Each imperative component appears twice. A class or method follows the code, field by field and
branch by branch; a function or relation on values says what a call does. The methods are proved
against the functions, and the theorems are about the functions.

## The consensus machine

- `Basics`, `Validators`, `Votes`, `QuorumScan`: saturating arithmetic, the weighted validator set and
  its quorums, votes and evidence, the quorum scan.
- `Machine` gives the handlers as functions, `StateMachine` the object that implements them, `Answers`
  the exact conditions under which it votes, commits, skips rounds and refuses.
- `Reaction` states what one reaction may do. `Network` puts many correct machines together with a
  growing log of votes; validators outside the correct set may send any vote under their own name.
- `Agreement`, `Certificates`, `OneVote`, `OwnVotes`, `Locks`, `VoteBook`, `RoundWrap` hold the theorems.

What the model takes for granted is explicit. `ValidConfig` asks for valid validator sets and faulty
stake below one third at every height; the set of a height is fixed, and changes only with
`HeightAdvances`. Votes are authentic: only the owner of a name adds votes under it. `NoWrap` excludes
a precommit timeout in round `u32::MAX`, where the increment saturates; `WrapBreaksAgreement` shows that
without it agreement fails in every valid configuration with two correct machines, and
`VoteBook.WrapForgets` says exactly what is lost.

The flow drawn in the source delivers a proposal only while the machine waits for one, but
`on_proposal` has no such test and neither has the runtime
(crates/polay-validator/src/validator_loop.rs:510-527). Agreement is proved without it. One vote per
step needs it, and `ForwardExactly` says which calls break it.

An error does not mean an unchanged machine (a wrong proposer of a later round still moves the round),
and a machine can leave the commit step and commit again; agreement covers such repeated commits.

## Parallel execution

`AccessSets`, `Serial`, `Schedule`, `Parallel`, `Overlay` and `ParallelExecutor` treat a transaction as
a step framed by its access set: it depends only on keys of the set and writes only keys of its write
part. `Overlay.ProgramsFramed` derives the frame for programs that stay within their sets.

First-fit may put a later transaction into an earlier batch than a conflicting predecessor, so equality
with block order holds exactly for schedules that do not do so (`BlockOrderExactly`). The source calls
its predicted access sets conservative and the flush order irrelevant because write sets are disjoint
(crates/polay-execution/src/access_set.rs:57-61, crates/polay-execution/src/parallel.rs:155-156), but
every paid fee rewrites the supply record, which no prediction lists, and the accounts of treasury and
proposer: `FeeFrames` proves when the frame holds for the fee code and what a batch does to the fee
counter otherwise, `FeeLosses` what it does to balances and supply. `Predictions` says exactly when
transfers and delegations conflict, and proves the predicted sets sufficient for transfers without fee.

## Merkle root

`Merkle` takes the hash of a pair as an arbitrary function and equates the promotion loop with the tree
shape of section 2.1 of RFC 6962. The source speaks of preventing a repeated last hash
(crates/polay-crypto/src/hash.rs:46-49), which `RepeatedTailDetected` proves; lists of different
lengths can still share a root (`ShorterTwin`).

## Execution ledger and validation

`State`, `Actions`, `Ledger`, `Unbondings`, `Execution`, `Receipts`, `FeeLaws`, `Conservation`,
`GasLimit`, `Transfer`, `Validation`, `Admission`. A store maps keys to records; the key
constructors stand for the prefixes of the byte encoding. Action handlers are functions from a
transaction, a store and a height to an outcome, which may be a failure that keeps its writes or a
panic. Each theorem names the contract it needs of them (`KeepsCounters`, `KeepsNonces`,
`KeepsSessions`, `NeverMints`, `NeverPanics`, `SparesOthers`); the transfer handler is modelled in full
and meets them, and the session actions meet the session contract. Value outside the balances is
either an unbonding entry, which is modelled, or a stake: `Stakes` is any function of the store that
depends on neither accounts, sessions, the supply record, unbonding entries nor block counters. Plain
`u64` additions wrap, as in a release build.

A comment in `execute_block` takes a rejection to mean that no fee was deducted; a handler that panics
is rejected after its fee was taken (`RejectionLeavesStore`, `BlockLedger`).

Validation has two stages. The stateless one refuses, among others, a signer that names itself as
sponsor (crates/polay-execution/src/validator.rs:61-64), and checks action fields only when it is given
a configuration. `ValidatedTransferSucceeds` is about transfers that passed both; their amount and fee
are covered, as the documentation promises, except at the edge of `u64` (`EdgeTransferFails`). The
theorems about runs ask for the stateful stage only.

## Mempool

`Pools`, `PoolLaws`, `AccountLimit` and `Mempool`, used by one caller at a time. Operations are relations, since the choice among
equally cheap transactions to evict depends on hash map order. A second transaction for the same sender
and nonce overwrites the index entry of the first; `RunBijectiveExactly` says when index and pool
correspond. The configuration documents its limit per account as one on pending transactions
(crates/polay-mempool/src/pool.rs:27-28), but only index entries are counted against it:
`AccountLimitExactly` says when the documented limit holds.

## Model

| member | source | states |
|---|---|---|
| `Agreement.AgreementTheorem` | crates/polay-consensus/src/state_machine.rs:138-485 | over every run of correct machines and Byzantine votes, across heights with changing validator sets, any two blocks committed at one height by any correct validators in any rounds are the same block, as long as no round number saturates |
| `Agreement.LockCarryOverTheorem` | crates/polay-consensus/src/state_machine.rs:205-304 | over every run, once a block has a precommit quorum in a round, no other block has a prevote quorum in any later round of the height |
| `Agreement.LockCarryOver` | crates/polay-consensus/src/state_machine.rs:205-304 | the same for any justified vote log, by descent on its prefixes |
| `Agreement.PrecommitQuorumsAgree` | crates/polay-consensus/src/state_machine.rs:388-419 | precommit quorums for two blocks at one height, in the same or different rounds, name one block |
| `Agreement.CertificatesTheorem` | crates/polay-consensus/src/state_machine.rs:388-419 | every commit certificate of a run holds distinct members' precommits actually sent, for its height, round and hash, with quorum stake |
| `Agreement.SkipFollowsCorrect` | crates/polay-consensus/src/state_machine.rs:587-629 | under the one-third fault bound, a vote that moves a machine to another round implies that a correct validator already voted in that round |
| `Agreement.StepInv` | crates/polay-consensus/src/state_machine.rs:138-505 | the inductive invariant of the safety proof is kept by every move of the network: a correct machine's reaction, a height change, any Byzantine vote |
| `Agreement.RunInv` | crates/polay-consensus/src/state_machine.rs:138-505 | hence it holds in every state of every run |
| `Agreement.OwnVoteExtends` | crates/polay-consensus/src/state_machine.rs:205-230 | a vote sent by a correct machine is justified by the log: a precommit by a prevote quorum, a prevote against an earlier precommit by a re-lock |
| `RoundWrap.WrapBreaksAgreement` | crates/polay-consensus/src/state_machine.rs:465-470 | in every valid configuration, at every height and for any two correct machines, the saturated round increment allows a run, without any act of a faulty validator and with timely proposals, in which the two commit different blocks |
| `RoundWrap.OneMachineCommitsTwice` | crates/polay-consensus/src/state_machine.rs:138-231 | if late proposals are allowed as well, any single correct machine of any valid configuration can be made to commit two different blocks at one height, without any act of a faulty validator |
| `RoundWrap.LateProposalMakesEvidence` | crates/polay-consensus/src/state_machine.rs:138-231 | for every validator set, two proposals delivered in one round make a correct machine sign two prevotes that are duplicate-vote evidence |
| `Answers.PrecommitsExactly` | crates/polay-consensus/src/state_machine.rs:243-334 | a prevote makes the machine precommit a hash if and only if it is a member's first prevote of the current round, the machine is in step Propose or Prevote, and the hash then has a quorum |
| `Answers.CommitsExactly` | crates/polay-consensus/src/state_machine.rs:342-424 | a precommit makes the machine commit a hash if and only if it is a member's first precommit of the current round, the machine has not committed, and the non-nil hash then has a quorum |
| `Answers.PrevotesExactly` | crates/polay-consensus/src/state_machine.rs:138-231 | a proposal is answered with a prevote if and only if it is of this height, not of an earlier round, from a member, and from the proposer of its own round or for the valid block; the prevote is for the proposed block, or nil if the machine is locked on another |
| `Answers.ProposalRefusedExactly` | crates/polay-consensus/src/state_machine.rs:138-231 | each of the four errors of a proposal comes if and only if its own condition holds; a refused proposal of a later round still moves the machine there, any other leaves it as it was, and an accepted one is remembered |
| `Answers.VoteRefusedExactly` | crates/polay-consensus/src/state_machine.rs:243-388 | each of the five errors of a vote, of either type, comes if and only if its own condition holds, and leaves the machine as it was |
| `Answers.VoteTakenExactly` | crates/polay-consensus/src/state_machine.rs:243-424 | a vote that is taken is filed, and the answer tells what else changed: nothing, the lock and the step, the step alone, or the round |
| `Answers.SkipsExactly` | crates/polay-consensus/src/state_machine.rs:255-275 | a member's first vote of either type for a later round moves the machine to that round if and only if all voters for it then hold more than a third of the stake; the answer is then the propose timer of 3000 ms, and otherwise nothing but the filed vote changes |
| `Answers.SkipTheorem` | crates/polay-consensus/src/state_machine.rs:255-275 | the same over any sequence of events, counting every vote ever accepted for that round |
| `Answers.TimeoutExactly` | crates/polay-consensus/src/state_machine.rs:431-485 | before the precommit step a timer sends a nil vote of the current height, round and step and moves one step on; in it, it enters the next round with the propose timer and keeps lock and valid block; after a commit it is only rearmed |
| `OwnVotes.StepsAreVoted` | crates/polay-consensus/src/state_machine.rs:138-485 | over every run, a correct machine in the prevote step has sent a prevote of its height and round, and one in the precommit step a precommit |
| `OwnVotes.StepsAreVotedOnce` | crates/polay-consensus/src/state_machine.rs:138-485 | over every run that never goes back it has sent exactly one such vote |
| `OwnVotes.TimersVoteNil` | crates/polay-consensus/src/state_machine.rs:431-463 | over every run, a timer that fires before the precommit step adds exactly one vote to the log, the machine's own nil vote of that step |
| `Locks.MemoryTheorem` | crates/polay-consensus/src/state_machine.rs:291-334 | after any sequence of events at a height, locked block and valid block are both the latest block that got a prevote quorum while the machine could react, with its round, and the valid proposal is the one held at that moment |
| `Locks.VoteRemembers` | crates/polay-consensus/src/state_machine.rs:291-334 | a vote that gives a block a prevote quorum before the precommit step sets that memory to it, and no other vote changes it |
| `Reaction.ReactSound` | crates/polay-consensus/src/state_machine.rs:138-485 | every reaction keeps the vote tables well filed, the lock backed by a prevote quorum of its round, and obeys the locking discipline for what it sends |
| `Reaction.SkipCause` | crates/polay-consensus/src/state_machine.rs:262-268 | a vote changes the round only by bringing the stake of distinct voters of a later round to the skip threshold, and then to exactly that round |
| `OneVote.ForwardExactly` | crates/polay-consensus/src/state_machine.rs:138-485 | a call keeps (round, step) from going back and every vote one step ahead if and only if it is neither a late proposal for the current round nor a precommit timeout in the last round |
| `OneVote.OneVotePerStep` | crates/polay-consensus/src/state_machine.rs:219-485 | over every run without those two calls, a correct validator sends at most one prevote and one precommit per height and round |
| `OneVote.NoEvidenceAgainstCorrect` | crates/polay-consensus/src/evidence.rs:38-52 | hence no duplicate-vote evidence can be built from any two votes of the run if one is by a correct validator |
| `OneVote.EvidenceExactly` | crates/polay-consensus/src/evidence.rs:38-52 | two votes are evidence if and only if they share voter, height, round and type and differ in the block |
| `VoteBook.BookTheorem` | crates/polay-consensus/src/state_machine.rs:255-388 | after any sequence of events the four vote maps together equal one book of the first accepted vote per round and voter, restricted to rounds from the current one on |
| `VoteBook.ReactKeepsBook` | crates/polay-consensus/src/state_machine.rs:138-485 | each event refines the abstract handler that records a vote in a free slot |
| `VoteBook.EnterRoundKeepsBook` | crates/polay-consensus/src/state_machine.rs:561-605 | entering a later round by timeout or skip changes where votes are kept, not which are known |
| `VoteBook.DuplicateExactly` | crates/polay-consensus/src/state_machine.rs:270-289 | an admissible vote is turned away as a duplicate if and only if its slot in the book is taken, buffered or not |
| `VoteBook.FirstVoteStays` | crates/polay-consensus/src/state_machine.rs:255-289 | an entry of the book never changes |
| `VoteBook.WrapForgets` | crates/polay-consensus/src/state_machine.rs:465-470 | the saturated increment keeps the book if and only if the round had no votes |
| `StateMachine.ConsensusStateMachine.constructor` | crates/polay-consensus/src/state_machine.rs:85-106 | a new object is the machine at round 0, step NewRound, with empty tables |
| `StateMachine.ConsensusStateMachine.OnProposal` | crates/polay-consensus/src/state_machine.rs:138-231 | the method computes the handler function on its fields, including the round skip that survives a later error, and keeps the tables well filed |
| `StateMachine.ConsensusStateMachine.OnPrevote` | crates/polay-consensus/src/state_machine.rs:243-334 | the method computes the handler function on its fields and keeps the tables well filed |
| `StateMachine.ConsensusStateMachine.OnPrecommit` | crates/polay-consensus/src/state_machine.rs:342-424 | the method computes the handler function on its fields and keeps the tables well filed |
| `StateMachine.ConsensusStateMachine.OnTimeout` | crates/polay-consensus/src/state_machine.rs:431-485 | the method computes the handler function on its fields and keeps the tables well filed |
| `StateMachine.ConsensusStateMachine.AdvanceHeight` | crates/polay-consensus/src/state_machine.rs:489-505 | a height change leaves a fresh machine with the validator set it had |
| `StateMachine.ConsensusStateMachine.UpdateValidatorSet` | crates/polay-consensus/src/state_machine.rs:511-519 | replaces the validator set and nothing else, votes of former members included |
| `StateMachine.ConsensusStateMachine.SkipIfHeavy` | crates/polay-consensus/src/state_machine.rs:610-629 | enters the target round if and only if the distinct voters buffered for it reach the skip threshold |
| `StateMachine.ConsensusStateMachine.SkipToRound` | crates/polay-consensus/src/state_machine.rs:587-605 | loads the tables buffered for the target round and drops those of earlier rounds |
| `StateMachine.ConsensusStateMachine.StartNewRound` | crates/polay-consensus/src/state_machine.rs:561-583 | the same for the round after a timeout, with the propose timer |
| `QuorumScan.FindQuorum` | crates/polay-consensus/src/state_machine.rs:654-685 | the scan, in any order of the table, returns a hash if and only if the distinct voters for that hash reach the threshold |
| `QuorumScan.QuorumUnique` | crates/polay-consensus/src/state_machine.rs:654-685 | at most one hash of a table has a quorum |
| `QuorumScan.SumStake` | crates/polay-consensus/src/state_machine.rs:610-623 | the stake loop of the skip test gives the exact stake of the set of voters, without saturating |
| `Validators.NewValidatorSet` | crates/polay-consensus/src/types.rs:98-121 | construction succeeds if and only if the addresses are distinct and the stake fits in a u64, and tells the two failures apart |
| `Validators.ProposerRepeatsExactly` | crates/polay-consensus/src/types.rs:129-136 | two rounds of a height have one proposer if and only if they are a multiple of the set's size apart |
| `Validators.EveryValidatorProposes` | crates/polay-consensus/src/types.rs:129-136 | within as many rounds as there are validators every one of them gets its turn |
| `Validators.ProposerFollowsHeight` | crates/polay-consensus/src/types.rs:129-136 | the turn passes with the height as it does with the round, from the first validator at height 0 and round 0 |
| `Validators.ListedExactly` | crates/polay-consensus/src/types.rs:139-141 | the scan for an address finds the members and nobody else |
| `Validators.QuorumExactly` | crates/polay-consensus/src/types.rs:159-161 | a quorum is strictly more than two thirds of all stake |
| `Validators.PowerSingleton` | crates/polay-consensus/src/types.rs:145-151 | the stake lookup is the weight of the one-member set |
| `Validators.QuorumOverlap` | crates/polay-consensus/src/types.rs:159-161 | two quorums share members holding more than a third of the stake |
| `Validators.QuorumsShareCorrect` | crates/polay-consensus/src/types.rs:159-161 | with less than a third faulty, two quorums share a correct member |
| `Validators.SkipThresholdHasCorrect` | crates/polay-consensus/src/state_machine.rs:627-629 | with less than a third faulty, a set at the skip threshold has a correct member |
| `Certificates.CollectedProofValid` | crates/polay-consensus/src/state_machine.rs:400-419 | the certificate collected from a table with a quorum is valid |
| `Certificates.ConflictingProofsConvict` | crates/polay-consensus/src/evidence.rs:38-52 | two valid certificates of one height and round for different hashes share voters with more than a third of the stake, and each of them is convicted by evidence from the two certificates |
| `Schedule.ScheduleParallel` | crates/polay-execution/src/scheduler.rs:28-63 | the schedule places every index exactly once, in ascending batches free of conflicts, and no transaction could have gone into an earlier batch |
| `Schedule.FirstFitUnique` | crates/polay-execution/src/scheduler.rs:28-63 | there is only one such schedule of a block |
| `Schedule.BatchCountBound` | crates/polay-execution/src/scheduler.rs:28-63 | the number of batches is at most one more than the number of conflicts of some transaction |
| `ParallelExecutor.StatsMeasure` | crates/polay-execution/src/scheduler.rs:83-101 | the statistics count every transaction once, name the size of a largest batch, and give a parallelism ratio between one and that size |
| `AccessSets.IndependentExactly` | crates/polay-execution/src/access_set.rs:34-47 | the conflict test is negative if and only if neither writes what the other touches |
| `AccessSets.ConflictSymmetric` | crates/polay-execution/src/access_set.rs:34-47 | the conflict test is symmetric |
| `Serial.TraceEquivalence` | crates/polay-execution/src/parallel.rs:53-84 | two orders of the same framed transactions that order every conflicting pair alike give the same store and the same receipts |
| `Serial.SwapFront` | crates/polay-execution/src/parallel.rs:113-173 | two neighbours that do not conflict can be swapped |
| `Serial.MoveToFront` | crates/polay-execution/src/parallel.rs:113-173 | a transaction that conflicts with nothing before it can run first |
| `Parallel.BatchIsolation` | crates/polay-execution/src/parallel.rs:113-173 | running an independent batch on separate overlays and flushing in any order equals running it one by one in any order |
| `Parallel.ParallelIsFlattened` | crates/polay-execution/src/parallel.rs:53-84 | running the batches equals running the flattened batches one transaction at a time |
| `Parallel.BlockOrderExactly` | crates/polay-execution/src/scheduler.rs:41-52 | parallel execution equals block order for every framed block if and only if the schedule inverts no conflicting pair |
| `Parallel.OrderedScheduleIsBlockOrder` | crates/polay-execution/src/parallel.rs:53-84 | a schedule that keeps conflicting pairs in index order gives the store and receipts of block order |
| `Parallel.InversionObservable` | crates/polay-execution/src/scheduler.rs:41-52 | an inverted pair gives some framed block other receipts than block order |
| `FeeFrames.FirstFitCanInvert` | crates/polay-execution/src/scheduler.rs:41-52 | of any three transfers A to C, A to B, B to D the first-fit schedule of their predicted access sets puts the third before the second, which it conflicts with |
| `ParallelExecutor.ExecuteBlockParallel` | crates/polay-execution/src/parallel.rs:53-84 | for any transactions, framed or not, the store ends as the batches of the first-fit schedule leave it and receipt i is the one transaction i gets there, in block order; for framed ones that equals the flattened schedule run one by one |
| `ParallelExecutor.ExecuteBatch` | crates/polay-execution/src/parallel.rs:113-173 | one batch: every transaction runs on the store as it was and the overlays are flushed one after another |
| `ParallelExecutor.SortByIndex` | crates/polay-execution/src/parallel.rs:72-81 | the results come out sorted and are a permutation of the input |
| `ParallelExecutor.SortedIsIdentity` | crates/polay-execution/src/parallel.rs:72-81 | sorting results that carry each index once puts the receipt of transaction i at position i |
| `Overlay.OverlayStore.Get` | crates/polay-state/src/overlay.rs:67-75 | a read through the overlay sees its own writes and tombstones first |
| `Overlay.OverlayStore.Put` | crates/polay-state/src/overlay.rs:77-82 | a write shows in the overlay's view and leaves the base alone |
| `Overlay.OverlayStore.Delete` | crates/polay-state/src/overlay.rs:84-87 | a delete hides the key and leaves the base alone |
| `Overlay.OverlayStore.Flush` | crates/polay-state/src/overlay.rs:42-53 | flushing entry by entry in any order leaves the base as the overlay showed it |
| `Overlay.OverlayFaithful` | crates/polay-state/src/overlay.rs:19-87 | any program reads on an overlay, and leaves after the flush, what it would on the store itself |
| `Overlay.ProgramsFramed` | crates/polay-execution/src/parallel.rs:113-173 | programs that touch only their access sets are framed by them, so the theorems above apply to overlay execution |
| `Merkle.MerkleRoot` | crates/polay-crypto/src/hash.rs:50-83 | the level-by-level loop computes the root of the tree that splits at the largest power of two below the length, for every list |
| `Merkle.NextLevel` | crates/polay-crypto/src/hash.rs:58-80 | one turn of the loop pairs neighbours and promotes the unpaired last node |
| `Merkle.ParentsKeepTree` | crates/polay-crypto/src/hash.rs:58-80 | going one level up keeps the recursive root |
| `Merkle.EqualLengthBinding` | crates/polay-crypto/src/hash.rs:58-82 | two different lists of one length with one root yield an explicit collision of the pair hash |
| `Merkle.RootsBindLists` | crates/polay-crypto/src/hash.rs:50-83 | for a collision-free pair hash and lists of one length, roots are equal if and only if the lists are |
| `Merkle.ShorterTwin` | crates/polay-crypto/src/hash.rs:50-83 | without the length nothing is bound: every list of two or more hashes shares its root with a shorter list |
| `Merkle.RepeatedTailDetected` | crates/polay-crypto/src/hash.rs:41-49 | repeating the last hash of an odd list changes the root, or a collision or a fixed point of the pair hash is found |
| `Merkle.RootsJoin` | crates/polay-crypto/src/hash.rs:50-83 | a full left subtree of any power-of-two size joins with what fits beside it, left before right |
| `Merkle.SmallRoots` | crates/polay-crypto/src/hash.rs:50-57 | no hashes give the zero hash, one gives itself, two their combination in order |
| `Ledger.SharesAddUp` | crates/polay-execution/src/executor.rs:189-199 | burned, treasury and proposer shares add up to the fee for every split that construction accepts |
| `Ledger.FeeConservation` | crates/polay-execution/src/executor.rs:124-230 | whoever coincides among signer, sponsor, treasury and proposer, the fee phase lowers all balances together by exactly the burned share if and only if neither credit saturates |
| `Ledger.SupplyCoversBalances` | crates/polay-execution/src/executor.rs:124-230 | if the recorded supply covers all balances, nothing saturates and balances and recorded supply drop by the same burned share |
| `Ledger.ChargeTakesFee` | crates/polay-execution/src/executor.rs:129-187 | charging takes exactly the fee, from signer or sponsor |
| `Ledger.FeeCounters` | crates/polay-execution/src/executor.rs:218-229 | the fee and burn counters grow by exactly the fee and its burned share while they fit |
| `Ledger.RewardMints` | crates/polay-execution/src/executor.rs:338-364 | the block reward raises all balances together and the recorded supply by exactly the reward, or by nothing for the zero address |
| `FeeLaws.GasGrows` | crates/polay-execution/src/gas.rs:74-78 | gas is that of the action and grows by the base gas and by the rate for each byte, modulo the width of a u64 |
| `Actions.GasOfActions` | crates/polay-execution/src/gas.rs:14-68 | actions without a list cost between 5000 and 100000, the two with one 40000 and 5000 more for each entry |
| `FeeLaws.FeeIsPrice` | crates/polay-execution/src/gas.rs:81-83 | the fee is gas times price, or u64::MAX where that does not fit |
| `FeeLaws.ShareBounds` | crates/polay-execution/src/executor.rs:189-199 | burned and treasury share are each their basis points of the fee, rounded down |
| `FeeLaws.FeeRefusedExactly` | crates/polay-execution/src/executor.rs:124-187 | each error of the fee phase comes if and only if its own condition holds, and the fee is charged if and only if none does |
| `FeeLaws.FeeBalances` | crates/polay-execution/src/executor.rs:129-216 | the fee phase takes the fee from the payer and gives the treasury and the proposer their shares, and no other balance changes |
| `FeeLaws.FeeBooked` | crates/polay-execution/src/executor.rs:218-229 | every field of the supply record after a fee: fees, burned and treasury grow by fee and shares, supply drops by what is burned, stakes and minting stay, and what circulates is supply less stakes less treasury |
| `FeeLaws.BlockSplit` | crates/polay-execution/src/executor.rs:422-510 | over a block the burn and treasury counters grow by their basis points of what the fee counter grows by, up to one rounding per transaction |
| `FeeLaws.ChainSplit` | crates/polay-execution/src/executor.rs:338-510 | the same over any chain of blocks, with unbondings and rewards |
| `FeeLaws.RewardPays` | crates/polay-execution/src/executor.rs:338-364 | the reward goes to the proposer alone, no other balance and no nonce changes |
| `FeeLaws.RewardBooked` | crates/polay-execution/src/executor.rs:350-364 | the reward is booked as minted and as supply, and what circulates is recomputed |
| `Ledger.RewardCountsBlock` | crates/polay-execution/src/executor.rs:366-381 | the block counter of a registered and rewarded proposer, and of nobody else, grows by one |
| `Execution.Execute` | crates/polay-execution/src/executor.rs:104-311 | the step-by-step code computes the transaction function: an early rejection leaves the store, a handler error keeps the fee, a success charges the session |
| `Execution.ChargeFee` | crates/polay-execution/src/executor.rs:129-187 | the code charges the payer and raises the signer's nonce, or fails without a write |
| `Execution.DistributeFee` | crates/polay-execution/src/executor.rs:189-230 | the code splits a positive fee and books it in the supply record |
| `Execution.CreditBlockReward` | crates/polay-execution/src/executor.rs:338-381 | the code credits the reward, books it where a supply record exists and counts the block of a registered validator |
| `Execution.ExecuteBlock` | crates/polay-execution/src/executor.rs:422-510 | the code releases mature unbondings and its loop then computes the block function |
| `Unbondings.ProcessMatureUnbondings` | crates/polay-execution/src/modules/staking.rs:205-241 | credits every mature entry to its delegator and deletes it, in any order with one result, or does nothing if one of them cannot be read |
| `Unbondings.ReleaseAny` | crates/polay-execution/src/modules/staking.rs:215-238 | the order of releases does not matter |
| `Unbondings.ReleaseConserves` | crates/polay-execution/src/modules/staking.rs:205-241 | balances and unbonding entries together keep their sum while it fits in a u64, no mature entry is left, and nothing but accounts and unbonding entries changes |
| `Unbondings.ReleasePays` | crates/polay-execution/src/modules/staking.rs:205-241 | every account receives the sum of all its entries with a completion height up to the current one, up to saturation, which cannot happen while balances and entries together fit in a u64; nonces stay, later entries stay, and one mature entry that cannot be read holds everything up |
| `Execution.OneReceiptEach` | crates/polay-execution/src/executor.rs:449-500 | one receipt per transaction in block order, naming its payer, with either its full gas and fee or none |
| `Receipts.ReceiptsExactly` | crates/polay-execution/src/executor.rs:449-500 | transaction by transaction, a receipt is a success if and only if the transaction fit the gas left, paid its fee and its handler returned ok; it shows fee and gas if and only if the handler returned; and the gas counted so far is that on the receipts so far |
| `Execution.GasWithinLimit` | crates/polay-execution/src/executor.rs:450-475 | the gas of all receipts stays within a block limit below u64::MAX |
| `GasLimit.GasBoundedExactly` | crates/polay-execution/src/executor.rs:450-475 | for every handler that neither panics nor takes from others, the gas limit holds for every block if and only if it is below u64::MAX |
| `GasLimit.RushOverruns` | crates/polay-execution/src/gas.rs:74-78 | at the limit u64::MAX, transfers (or delegations) of any one size by enough distinct signers all run, and their gas together exceeds the limit |
| `Execution.BlockLedger` | crates/polay-execution/src/executor.rs:422-510 | over a block the fee counter grows by exactly the fees on the receipts and those lost to panics, the burn counter by exactly the burned shares of both |
| `Execution.NothingLostExactly` | crates/polay-execution/src/executor.rs:387-407 | no fee is lost if and only if no handler of the block panics after a positive fee was taken |
| `Execution.RejectionLeavesStore` | crates/polay-execution/src/executor.rs:387-407 | a transaction leaves the store as it was if and only if the fee phase turns it away; it is rejected also when its handler panics, after the fee was taken |
| `Conservation.BlockConservation` | crates/polay-execution/src/executor.rs:422-510 | over a block the recorded supply drops by exactly the burned shares on the receipts and those lost to panics, all balances together by the same but for what handlers move in and out of them, and the supply goes on covering balances, unbonding entries and stakes |
| `Conservation.ConservedBlockHasNoFlow` | crates/polay-execution/src/executor.rs:422-510 | handlers that keep all value in balances move nothing in or out |
| `Conservation.ChainSupply` | crates/polay-execution/src/executor.rs:338-510 | over any chain of blocks, unbondings and rewards the recorded supply changes by exactly minted less burned, balances by the same plus what matures and what handlers move, and the supply goes on covering all value |
| `Transfer.ExecuteTransfer` | crates/polay-execution/src/modules/transfer.rs:15-61 | the transfer code moves the amount, creating the receiver, or fails without a write |
| `Transfer.TransferConserves` | crates/polay-execution/src/modules/transfer.rs:15-61 | a transfer keeps the total of all balances if and only if the credit does not saturate, and to oneself changes nothing |
| `Transfer.TransferMoves` | crates/polay-execution/src/modules/transfer.rs:15-61 | a transfer fails exactly for want of the sender or of funds; otherwise the amount leaves the sender and reaches the receiver, and no other balance, no nonce and no other key changes |
| `Transfer.TransferHandlerLawful` | crates/polay-execution/src/modules/transfer.rs:15-61 | the transfer handler meets every handler contract used by the block theorems |
| `Validation.ValidatedIsCharged` | crates/polay-execution/src/validator.rs:167-245 | the fee phase accepts a validated transaction if and only if its maximum fee covers the actual one |
| `Admission.StatefulExactly` | crates/polay-execution/src/validator.rs:167-285 | stateful validation passes if and only if the signer exists with this nonce, payer and signer can cover maximum fee and amount, and a session, if one signs, is granted, neither revoked nor expired, permits the action and has enough left to spend |
| `Admission.StatefulRefusal` | crates/polay-execution/src/validator.rs:167-285 | which error comes when, check by check |
| `Admission.StatelessExactly` | crates/polay-execution/src/validator.rs:31-70 | the stateless checks that are modelled pass if and only if the signer is not the zero address, the fee is positive, a sponsor is neither the zero address nor the signer, and the input is sound where inputs are checked |
| `Admission.RunAuthorised` | crates/polay-execution/src/validator.rs:247-285 | over a validated run every transaction is funded, and one signed by a session is permitted by its grant, in the state it runs in and at its height |
| `Admission.GrantExactly` | crates/polay-execution/src/modules/session.rs:15-83 | a session is granted if and only if it expires later and no valid one is in its place, and starts unspent with the terms given |
| `Admission.RevokeExactly` | crates/polay-execution/src/modules/session.rs:86-112 | revoking needs a grant that is not revoked and changes nothing else about it |
| `Admission.RevokedSessionIsRefused` | crates/polay-execution/src/validator.rs:262-270 | whatever a grant allowed, nothing signed with a revoked session passes validation |
| `Validation.ValidatedTransferSucceeds` | crates/polay-execution/src/validator.rs:31-285 | a transfer that passes both stages of validation succeeds, in any state, if and only if it has a sponsor or amount and fee together pass u64::MAX by no more than the signer gets back of the fee |
| `Validation.TransferSucceedsExactly` | crates/polay-execution/src/validator.rs:167-245 | a transfer that passes the stateful stage succeeds if and only if the amount fits into what the fee leaves its signer, counting the shares of the fee that come back to it as treasury or proposer |
| `Validation.EdgeTransferFails` | crates/polay-execution/src/validator.rs:225-233 | a fully validated transfer of u64::MAX from a balance of u64::MAX fails, and pays its fee |
| `Validation.NoncesConsecutive` | crates/polay-execution/src/validator.rs:175-187 | over a validated run each signer's nonces count up one by one from its nonce at the start, in u64 arithmetic |
| `Validation.NoncesNeverRepeat` | crates/polay-execution/src/validator.rs:175-187 | no signer uses a nonce twice within 2^64 transactions |
| `Validation.SessionsStayWithinLimits` | crates/polay-execution/src/executor.rs:252-263 | over a validated run no session counter passes its limit |
| `Validation.SessionMeter` | crates/polay-execution/src/executor.rs:252-263 | while a grant stays valid, its counter grows by exactly the fees of the successful transactions signed with it, which stay within the rest of the limit, for every limit below u64::MAX |
| `Validation.MeterHoldsExactly` | crates/polay-execution/src/executor.rs:252-263 | the counter of every valid grant with a given limit follows its fees if and only if that limit is below u64::MAX |
| `Validation.UnlimitedSessionWraps` | crates/polay-types/src/session.rs:52-54 | with the limit u64::MAX the spending check passes and the counter can wrap |
| `Validation.SessionActionsKeepGrants` | crates/polay-execution/src/modules/session.rs:15-112 | creating and revoking sessions keeps the spending of every valid grant, and a revoked grant is no longer valid |
| `FeeFrames.FramedExactly` | crates/polay-execution/src/access_set.rs:62-82 | an access set that holds signer and payer and not the supply record, as every prediction does, frames the fee phase if and only if no fee can be taken |
| `FeeFrames.PredictPredicts` | crates/polay-execution/src/access_set.rs:62-92 | the predicted sets of transfers, delegations and reward distributions hold signer and payer and not the supply record |
| `Predictions.ConflictsExactly` | crates/polay-execution/src/access_set.rs:62-190 | transactions that touch the balance of one account, or delegate to one validator, conflict; transfers and delegations conflict only then |
| `Predictions.FreeTransfersInParallel` | crates/polay-execution/src/parallel.rs:53-84 | for transfers without fee and session the predicted access sets frame the whole execution, so a schedule that keeps conflicting pairs in order ends as the block run one by one |
| `Predictions.FreeTransferFaithful` | crates/polay-execution/src/parallel.rs:113-173 | the recorded writes of such a transfer give the store it leaves |
| `FeeFrames.WritesFaithful` | crates/polay-execution/src/executor.rs:124-230 | the recorded overlay writes of a fee phase give the store it leaves |
| `FeeFrames.BatchCountsFeesExactly` | crates/polay-execution/src/parallel.rs:113-173 | for any batch of independent predictions the flushed fee counter never exceeds the one-by-one counter, and equals it if and only if at most one transaction then pays a fee |
| `FeeLosses.BatchTotals` | crates/polay-execution/src/parallel.rs:113-173 | for any batch of independent predictions, whoever signs, pays or fails in it: run one by one all balances together drop by what is burned in turn; flushed they drop by what those paying against the base burn and by everything treasury and proposer gain or pay in all but the last of them |
| `FeeLosses.OutsiderLoses` | crates/polay-execution/src/parallel.rs:150-173 | for a treasury or proposer not involved in the batch that loss is every share but the last, and nothing is lost if and only if at most one transaction gives it a share |
| `FeeLosses.InsiderMayWin` | crates/polay-execution/src/parallel.rs:150-173 | a treasury that also signs can win by a flush, which drops its charge behind a later share |
| `FeeLosses.BatchSupplyExcess` | crates/polay-execution/src/parallel.rs:150-173 | the recorded supply of the flushed store exceeds that of the one-by-one run by exactly all that is burned in turn but the last share |
| `FeeLosses.FlushAccount` | crates/polay-execution/src/parallel.rs:150-173 | in a flushed batch the last paying fee phase that writes an account decides its balance |
| `FeeLosses.RunAccount` | crates/polay-execution/src/executor.rs:124-230 | run one by one, every account moves by the charges and shares of those that can pay in their turn |
| `FeeFrames.FlushCountsLast` | crates/polay-execution/src/parallel.rs:150-173 | the flushed fee counter holds only the last positive fee that the batch pays against its base |
| `Pools.RunSound` | crates/polay-mempool/src/pool.rs:113-471 | over every sequence of operations, index entries point to pending transactions of that sender and nonce, no queue is empty, the size limit holds, and no account has more indexed transactions than its limit, reading 0 as 1 |
| `Pools.NextSound` | crates/polay-mempool/src/pool.rs:113-471 | each single operation keeps that invariant |
| `AccountLimit.AccountLimitExactly` | crates/polay-mempool/src/pool.rs:27-28 | no account ever has more pending transactions than the limit, over every sequence of operations, if and only if the limit is 1 or the whole pool is no larger |
| `AccountLimit.SenderFillsPool` | crates/polay-mempool/src/pool.rs:147-197 | from a limit of 2 up one sender fills the whole pool by repeating a nonce |
| `AccountLimit.RunAtLimitOne` | crates/polay-mempool/src/pool.rs:147-160 | with the limit 1 index and pending transactions stay one to one over every sequence of operations |
| `Pools.IndexLimitExactly` | crates/polay-mempool/src/pool.rs:147-160 | no account ever has more indexed transactions than the limit if and only if the limit is at least 1 or the pool can hold nothing |
| `Pools.RunBijectiveExactly` | crates/polay-mempool/src/pool.rs:189-231 | along a run the index and the pending transactions stay one to one if and only if no two pending transactions ever share sender and nonce |
| `Pools.UniqueNowNotEnough` | crates/polay-mempool/src/pool.rs:213-231 | uniqueness in the last state alone is not enough: removing an overwritten transaction takes the index entry of its successor along |
| `Pools.AddKeeps` | crates/polay-mempool/src/pool.rs:189-197 | an insertion keeps the links, and keeps the one-to-one correspondence if and only if its slot was free |
| `Pools.ForgetTwice` | crates/polay-mempool/src/pool.rs:239-243 | removing in two goes is removing at once, so the order of a batch does not matter |
| `Pools.FailedInsertExactly` | crates/polay-mempool/src/pool.rs:113-187 | a failing insert changes the pool if and only if it was full, passed the first checks and found a cheaper transaction to evict |
| `Pools.FailedInsertEvicts` | crates/polay-mempool/src/pool.rs:138-187 | a full pool loses its transaction to one with a higher fee that is then refused for its signature |
| `Pools.PruneExactly` | crates/polay-mempool/src/pool.rs:428-471 | pruning keeps all other transactions and removes every stale one if and only if each was indexed |
| `Pools.SeenStaysOut` | crates/polay-mempool/src/pool.rs:123-126 | a hash marked as seen and not pending cannot come back before the next clearing |
| `PoolLaws.MarkedStaysOut` | crates/polay-mempool/src/pool.rs:399-408 | hence a hash marked as seen while not pending stays out of the pool until the next clearing |
| `PoolLaws.RemovedStaysOut` | crates/polay-mempool/src/pool.rs:213-243 | a removed hash is gone until it is inserted again |
| `PoolLaws.PendingCameIn` | crates/polay-mempool/src/pool.rs:113-197 | over every run, whatever is pending was inserted as it is, pays the minimum fee, is signed where signatures are checked, and is of this chain |
| `PoolLaws.InsertWithRoom` | crates/polay-mempool/src/pool.rs:113-197 | into a pool with room a transaction goes if and only if it is new, passes the checks and fits its account; otherwise nothing changes |
| `PoolLaws.InsertWhenFull` | crates/polay-mempool/src/pool.rs:138-145 | into a full pool it goes only in place of one with the lowest fee, which is below its own, and not at all if nobody pays less |
| `PoolLaws.InsertRefusal` | crates/polay-mempool/src/pool.rs:113-187 | with room, each error comes if and only if its own check is the first to fail |
| `PoolLaws.GapReported` | crates/polay-mempool/src/pool.rs:346-359 | the gap reported is the distance to the lowest indexed nonce of the sender |
| `PoolLaws.ExpireExactly` | crates/polay-mempool/src/pool.rs:295-328 | exactly the transactions older than the time to live go, and none without one |
| `PoolLaws.ClearExactly` | crates/polay-mempool/src/pool.rs:331-337 | clearing the seen hashes keeps the pool, clearing the pool forgets everything |
| `Mempool.Mempool.Insert` | crates/polay-mempool/src/pool.rs:113-208 | the checks in the code's order, with eviction of a cheapest transaction when full; keeps the invariant |
| `Mempool.Mempool.TryEvictLowestFee` | crates/polay-mempool/src/pool.rs:365-394 | evicts if and only if some pending fee is lower, and then one of the lowest |
| `Mempool.Mempool.CheckNonceGap` | crates/polay-mempool/src/pool.rs:346-359 | fails if and only if the nonce is too far beyond some indexed nonce, reporting the gap to the lowest |
| `Mempool.Mempool.Remove` | crates/polay-mempool/src/pool.rs:213-233 | removes the transaction, its slot and an emptied queue, and returns it |
| `Mempool.Mempool.RemoveBatch` | crates/polay-mempool/src/pool.rs:239-243 | removes exactly the transactions of the batch |
| `Mempool.Mempool.EvictExpired` | crates/polay-mempool/src/pool.rs:295-328 | removes exactly the transactions older than the cutoff and counts them |
| `Mempool.Mempool.PruneBelowNonce` | crates/polay-mempool/src/pool.rs:428-471 | removes exactly the indexed transactions of the sender below the nonce |
| `Mempool.Mempool.MarkSeenBatch` | crates/polay-mempool/src/pool.rs:404-408 | adds exactly these hashes to the seen ones |
| `Mempool.Mempool.ClearRecentlySeen` | crates/polay-mempool/src/pool.rs:412-414 | forgets the seen hashes and nothing else |
| `Mempool.Mempool.Clear` | crates/polay-mempool/src/pool.rs:331-337 | empties all three collections |
| `Mempool.Mempool.GetAccountTxs` | crates/polay-mempool/src/pool.rs:275-284 | all indexed transactions of the sender, none dropped, in the order of their nonces; all its pending ones if the correspondence is one to one |
| `Mempool.Mempool.GetPendingForBlock` | crates/polay-mempool/src/pool.rs:259-272 | distinct pending transactions, highest fees first, as many as asked for or there are, and none left out pays more than one taken |

## Left out

- Signatures, SHA-256 and serialisation: votes are authentic by assumption, the signature check of the mempool is a flag, the pair hash is a parameter.
- Networking, RPC, indexer, storage engines, snapshots, metrics, configuration and the command line: input and output around the core.
- Liveness and timers: a timeout is an event that may happen at any time.
- Agreement.AgreementTheorem: assumes that no precommit timeout fires in round u32::MAX; every configuration has a run in which the assumption and agreement fail, but not every run that breaks the assumption disagrees.
- Conservation.BlockConservation: leaves the value that handlers move between balances and stakes, deposits or prizes as a sum of their own effects, since only the transfer handler is modelled.
- A validator set that changes inside a height: the network theorems fix it, although the object allows it.
- Commit certificates hold a set of votes, so their order in the source's vector is not modelled; log output is not modelled anywhere.
- Action handlers other than transfer and sessions (staking, market, tournaments, guilds, rentals, governance, assets, identity, attestation): only their contracts appear.
- Unbonding entries are kept once, by completion height; the copy the source keeps by delegator is left out.
- Actions.GasOfActions: bounds the constants of the gas table instead of repeating them; the table of action labels is likewise taken over without a property of its own.
- Predictions.FreeTransfersInParallel: leaves out transfers that pay a fee or spend from a session, whose keys no prediction lists.
- GasLimit.GasBoundedExactly: speaks of all stores, also of those whose balances no recorded supply covers.
- FeeFrames.PredictPredicts: covers transfers, delegations and the balances of reward distributions; the theorems use only what all predictions have in common (`FeeFrames.Predicts`).
- The parallel path of the source omits unbonding, the gas cap and panic catching, so its equality with the sequential block executor is not claimed; it is modelled on a step function.
- Prefix scans through an overlay and its count of pending writes: transaction steps here read and write single keys.
- Thread interleavings: each batch runs on independent overlays, and the mempool has one caller at a time.
- Chain identifier, size, hash and public key in stateless validation, and its checks of fields that are not modelled: they only turn transactions away.
- The evidence pool, mempool lookups by hash, rate limiters, peer scoring, market and reputation formulas: single-branch facts that would only add easy members.
