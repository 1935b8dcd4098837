# ZyronChain: a verified model

This project models the protocol core of ZyronChain and proves what it promises:

- **v6 consensus**: the locked two-phase protocol with prepare certificates, timeout
  certificates, the SAFE-VOTE rule and commit certificates. Honest validators follow the real
  vote handlers and the real signing journal; every other key signs anything at any time.
  The theorem is agreement over every run with fewer than a third of the validators faulty,
  first for given validator sets and then for sets that every node reads from the governance
  transactions of the chain it finalized itself. The other side is proved too: exactly when an
  honest node's lock makes it refuse a valid request, and that it votes for every justified one.
- **Pacemaker**: closed-form round offsets and their inverse.
- **Block building and governance**: the heap merge that orders the pool, told key by key from
  its result; the greedy selector that must agree with the block validator; and the governance
  schedules over whole runs, every entry of which more than two thirds of the validators then in
  force approved.
- **Mempool**: the object with its redundant indexes, counters and eviction cache, proved to
  follow plain list operations, exactly which transactions those take, and the bounds they keep
  over whole runs.
- **Authenticated data**: canonical JSON (one-shot and streaming) with readers that give every
  value back from its text and every text back from its bytes, the duplicate-last Merkle tree,
  the State v2 sparse Merkle tree with its compressed form, its proofs and its verifier.
- **Money over time**: the rolling 24-hour activity cap, the vesting and liquidity locks, and the
  legacy Python ledger with its validator, its selector, its miner and its chain replacement.
- **P2P frames**: the chunk-by-chunk frame reader, the writer and the shared byte budget.

## How to read it

Signatures are symbolic terms: a signature of an honest key exists only after its journal row
was reserved. Hashes are function parameters. Nothing assumes a hash that never collides, since
a fixed-length hash must; where a proof needs collision freedom it asks for it on the finite set
of inputs the two computations at hand actually hash (`InjectiveOn`, `NoCollision`).

Where the source computes by changing variables, the model is a method with loops, or a class
whose methods update its fields, proved against specification functions. The lemmas about those
functions are the results. Main results are marked as such in their comments. Beside each set of
rules stands a lemma that says exactly what passes them in terms of its own: rows, counts, sums,
indexes and numbers, not the rules' own helper functions.

| files | part of the system |
|---|---|
| Quorum, V6Certificates, V6Quorums, SigningJournal, V6Agreement, V6Progress, V6Witness, LightClient, TimeoutAssembly, TimeoutReports, Pacemaker | v6 consensus |
| ChainTypes, PendingOrder, PendingPriority, BinaryHeap, LaneHeap, Governance, BlockBuilding, BlockBytes, GovernanceRuns, GovernanceApprovals | block building and governance |
| V6Governed, ScheduledAgreement, GovernedClients | consensus, governance and light clients together |
| MempoolSpec, MempoolAdmission, Mempool | mempool |
| Digests, SparseTree, SparseMerkle, Merkle, CanonicalText, JsonReader, CanonicalJson, CanonicalStream, Utf8Reader | authenticated data |
| LegacyLedger, LegacyValidator, LegacyMiner, LegacyRules, LegacyBlockchain, LegacyRuns, LegacyFailure, ActivityCap, AllocationLocks | money over time |
| P2PFrame | P2P framing |
| Arithmetic, Constants, Sorting, Strings, Sums | shared helpers |

`dafny verify dfyconfig.toml` checks the whole project.

## Properties that do not hold as one might expect

- The transfer byte reserve of the mempool is no invariant: `MempoolSpec.ByteReserveFails` is a
  run that breaks it and `MempoolSpec.ByteReserveCondition` says exactly which accepted adds do.
- A mined legacy block can be invalid, because the pool admits transactions dated ahead:
  `LegacyFailure.MiningCanFail` is such a run, with a transaction the pool admits, and
  `LegacyMiner.MinedChainValid` gives the exact condition.
- Streaming and one-shot canonical JSON differ on some objects with array-index keys:
  `CanonicalJson.IndexKeysDiffer` is such an object and `CanonicalJson.StreamingMatches` gives
  the exact condition.
- Different transaction lists can have one Merkle root: `Merkle.RepeatedLastCollides` on the
  lowest level, `Merkle.RepeatedBlockCollides` on every level. `Merkle.SharedRootIff` is the exact
  condition: both lists fill to the same complete tree. It follows that refusing repeats in the
  longer list is enough (`Merkle.MerkleBinding`).
- A chain replacement can lose a pending legacy transaction that the new chain would still allow,
  because the old pool is offered before the orphaned transactions: `LegacyRuns.FollowerIsLost` for
  any transaction that follows an orphaned one of its sender, `LegacyFailure.RecoveryLosesTheFollower`
  for two concrete ones. `LegacyRuns.SurvivesIff` says exactly which transactions survive.
- The assembled timeout certificate is documented to carry the highest verified QC among all
  responses, but a second valid response of a validator replaces its first:
  `TimeoutReports.SecondAnswerHidesTheFirst` is an input where the QC is lost.
  `TimeoutReports.HighestOfAllIff` is the exact condition, and in runs
  `TimeoutReports.HonestReportsAreCarried` shows that only a faulty validator that answers twice
  can cause it, so the certificate carries at least what every honest validator reported.

## Model

| member | source | states |
|---|---|---|
| Quorum.QuorumIntersection | l1/src/block.ts:257-260 | two quorums of floor(2n/3)+1 share a validator outside any faulty set smaller than n/3 |
| Quorum.LeadersDiffer | l1/src/block.ts:247-255 | rounds of one height fewer than n apart are led by different validators |
| Quorum.EveryoneLeads | l1/src/block.ts:247-255 | any n rounds of one height in a row give every validator the lead |
| Quorum.NextHeightLeader | l1/src/block.ts:247-255 | round 0 of the next height is led by the successor of the leader of round 0 of this one |
| V6Quorums.VoteSetIff | l1/src/consensus-v6.ts:341-360 | a vote set passes exactly when more than two thirds of the validators' keys sign the payload, each once, and nobody else does |
| V6Quorums.PrepareQCIff | l1/src/consensus-v6.ts:380-385 | a prepare certificate passes exactly when its target and hash have the prescribed form and more than two thirds signed it |
| V6Quorums.CommitCertificateIff | l1/src/consensus-v6.ts:523-536 | a block is certified exactly when more than two thirds signed its commit in one round, not before its own and at most a million |
| V6Quorums.TimeoutCertificateIff | l1/src/consensus-v6.ts:433-467 | a timeout certificate passes exactly when more than two thirds report, each once, and it carries the highest reported certificate, none only if none is reported |
| V6Certificates.ValidateVoteSet | l1/src/consensus-v6.ts:341-360 | the vote loop accepts exactly the sets of distinct, member, correctly signed votes that reach the quorum |
| V6Certificates.ValidatePrepareQC | l1/src/consensus-v6.ts:380-385 | accepts exactly the prepare certificates of the given chain and height with a valid vote set |
| V6Certificates.ValidateTimeoutCertificate | l1/src/consensus-v6.ts:433-467 | accepts exactly the timeout certificates whose carried QC is the highest one the votes report, and returns that highest round |
| V6Certificates.MaxReportedIsUnique | l1/src/consensus-v6.ts:445-467 | a timeout certificate determines one highest reported round |
| V6Certificates.ValidatePrepareRequestCertificates | l1/src/consensus-v6.ts:476-510 | accepts exactly the fresh proposals and the re-proposals justified by the timeout certificate's QC, and returns the justifying QC |
| SigningJournal.PrepareReservation | l1/src/storage.ts:1509-1527 | a prepare row is new or identical, its round is open, it passes SAFE-VOTE against the lock, and the journal stays coherent |
| SigningJournal.CommitReservation | l1/src/storage.ts:1534-1556 | a commit row is new or identical, no vote exists above its round, it becomes the lock, the lock round never falls, and the journal stays coherent |
| SigningJournal.PrepareGrantedIff | l1/src/storage.ts:1509-1527 | a prepare vote is granted exactly when its row is already there, or no timeout at or above and no vote above its round exists and the newest commit row is for its block or older than its justification |
| SigningJournal.CommitGrantedIff | l1/src/storage.ts:1534-1556 | a commit vote is granted exactly when its row is already there, or the round is open and no other block was prepared in it |
| SigningJournal.OthersGrantedIff | l1/src/storage.ts:1492-1507 | a timeout is granted unless the round has another one; a proposal exactly when its row is already there or the round is open |
| SigningJournal.Journal.ReserveV6Prepare | l1/src/storage.ts:1509-1527 | the stored journal changes exactly as the prepare reservation says, or not at all on refusal |
| SigningJournal.Journal.ReserveV6Commit | l1/src/storage.ts:1534-1556 | the stored journal changes exactly as the commit reservation says, or not at all on refusal |
| V6Agreement.SafeVoteHasEvidence | l1/src/consensus-v6.ts:513-515 | an honest prepare above an own commit for another block implies a newer prepare quorum for that block |
| V6Agreement.JustifyIsQuorum | l1/src/consensus-v6.ts:476-510 | an accepted justified proposal rests on a real prepare quorum for its block |
| V6Agreement.PrepareKeepsInv | l1/src/node-base.ts:1479-1510 | an honest prepare keeps the protocol invariant |
| V6Agreement.CommitKeepsInv | l1/src/node-base.ts:1513-1544 | an honest commit keeps the protocol invariant |
| V6Agreement.TimeoutKeepsInv | l1/src/node-base.ts:1552-1614 | an honest timeout keeps the protocol invariant whatever QC, or none, it reports |
| V6Agreement.ProposalKeepsInv | l1/src/node-base.ts:1649-1682 | a leader's signed proposal keeps the protocol invariant |
| V6Agreement.FreshBlockKeepsInv | l1/src/node-base.ts:1622-1638 | signing a fresh block keeps the protocol invariant |
| V6Agreement.RunKeepsInv | l1/src/node-base.ts:1479-1682 | the invariant holds in every state of every run and signatures are never unsaid |
| V6Agreement.PrepareQCsFollowCommit | l1/src/consensus-v6.ts:513-536 | in every run, once a commit certificate for (H, r, B) can be shown, every prepare certificate at H in a round from r on is for B |
| V6Agreement.Agreement | l1/src/consensus-v6.ts:523-536 | in every run, two valid commit certificates at one height name the same block |
| V6Progress.RefusedIff | l1/src/consensus-v6.ts:513-515 | in every run, a valid, known request of a new, open round is refused by an honest node exactly when its newest commit names another block and is at least as new as the justification |
| V6Progress.JustifiedRequestsAreVoted | l1/src/storage.ts:1509-1527 | in every run with fewer than a third faulty, an honest node locked at a round votes for every valid, known request of a new, open round whose justification is at least that new |
| V6Witness.ABlockIsFinalized | l1/src/node-base.ts:1479-1682 | a run exists in which a block is proposed, prepared, committed, certified and finalized |
| V6Governed.SameSetSameStep | l1/src/node-base.ts:1479-1682 | a handler depends on the validator schedule only through the set of its own next height |
| V6Governed.FinalizesTheCommonBlock | l1/src/consensus-v6.ts:523-536 | a block finalized where an honest chain already has one is that block |
| V6Governed.CommonChain | l1/src/chain.ts:620-638 | every run in which nodes read the sets from their own chains is a run under the sets of one certified chain that all honest chains begin |
| V6Governed.HonestChainsAgree | l1/src/chain.ts:620-638 | of the chains any two honest nodes hold at any two times, one begins the other |
| V6Governed.GovernedAgreement | l1/src/consensus-v6.ts:523-536 | in every run from any common chain on, two commit certificates of one height above it, each valid under the set some honest node's own chain decides, name the same block |
| V6Governed.CertificateNamesTheChain | l1/src/consensus-v6.ts:523-536 | a commit certificate of a height an honest chain has reached, valid under the set in force there, names that chain's block |
| ScheduledAgreement.SchedulesAgree | l1/src/chain.ts:495-506 | the validator schedules of an accepted chain and of any continuation agree on the next 100 heights |
| ScheduledAgreement.HonestNodesReadTheSame | l1/src/chain.ts:495-506 | what an honest node's schedule names for a height up to 100 blocks ahead of its tip is what is in force when that height is decided |
| ScheduledAgreement.ScheduledCertificatesAgree | l1/src/chain.ts:620-638 | in every run from an accepted chain on, such as the one below the v6 upgrade height, two commit certificates of one height, each checked against the set an honest node reads from its own governance schedule up to 100 blocks ahead, name the same block |
| GovernedClients.ActivateNextValidatorSet | l1/src/light-client.ts:176-193 | activates exactly the well-formed sets proved against the anchored state root for the very next height |
| GovernedClients.ActivatedIsInForce | l1/src/light-client.ts:176-193 | with the next height's schedule entry, or its absence, proved, the client holds the validators governance puts in force there |
| GovernedClients.ClientFollowsTheChain | l1/src/light-client.ts:95-157 | in every run a client that starts on an honest chain and authenticates each next height's validators ends on that chain's block with the validators in force there |
| GovernedClients.GovernedClientsAgree | l1/src/light-client.ts:95-193 | two such clients at one height hold the same block, validators and state root, across validator changes and whatever they are shown |
| LightClient.OneStepAgrees | l1/src/light-client.ts:101-157 | two clients at one position that each accept a next header move to the same block hash |
| LightClient.LightClientsAgree | l1/src/light-client.ts:101-157 | two clients following any accepted proofs from one anchor hold the same hash at the same height, and the same anchor when header hashes do not collide |
| LightClient.VerifyIff | l1/src/light-client.ts:101-157 | a proof advances an anchor exactly when it is linked, later, hashed as it says, signed by the proposer whose turn it was and committed by more than two thirds |
| LightClient.FollowIff | l1/src/light-client.ts:101-157 | a client follows a list of proofs exactly when each continues the one before it, and ends at the last one |
| TimeoutAssembly.CountedResponses | l1/src/node.ts:622-629 | keeps exactly the last valid response of each validator |
| TimeoutAssembly.MaxQC | l1/src/consensus-v6.ts:570-576 | returns the first QC of the highest round among the candidates, none only if there is none |
| TimeoutAssembly.AssembledIsValid | l1/src/node.ts:630-637 | a certificate assembled from counted responses with a quorum left passes full validation |
| TimeoutAssembly.AssembleTimeoutCertificate | l1/src/node.ts:615-638 | returns a certificate exactly when a quorum agrees after dropping conflicting reports; its own final check never fails; the carried QC has the highest counted round |
| TimeoutReports.HighestOfAllIff | l1/src/node.ts:610-629 | the carried QC is the highest of all valid responses exactly when every valid response its sender superseded is matched by a counted one |
| TimeoutReports.OneAnswerEach | l1/src/node.ts:610-629 | when no validator sends two valid responses the carried QC is the highest of all valid responses |
| TimeoutReports.SecondAnswerHidesTheFirst | l1/src/node.ts:622-629 | a validator that first reports a QC and then none leaves a quorum certificate without the QC |
| TimeoutReports.RunKeepsTimeouts | l1/src/node-base.ts:1552-1614 | in every run an honest key has at most one timeout payload per height and round, and its journal holds it |
| TimeoutReports.HonestAnswersAgree | l1/src/node-base.ts:1563-1585 | two valid responses of one honest validator carry the same vote; their QCs differ at most in the vote list |
| TimeoutReports.HonestReportsAreCarried | l1/src/node.ts:610-638 | in every run the carried QC is at least what every honest responder reported, and it is the highest of all exactly when the superseded responses of faulty validators are matched |
| TimeoutAssembly.AssembledProposalAccepted | l1/src/consensus-v6.ts:476-510 | the leader's request built on an assembled certificate is accepted exactly for the block the certificate obliges it to propose |
| TimeoutAssembly.NothingConflictsInARun | l1/src/node.ts:630-633 | in a run the dropping of conflicting reports drops nothing |
| Pacemaker.OffsetIsTotalDuration | l1/src/consensus-v6.ts:57-71 | the closed-form offset of a round is the sum of all earlier round durations |
| Pacemaker.RoundsTile | l1/src/consensus-v6.ts:66-79 | rounds follow each other without gap and no instant lies in two rounds |
| Pacemaker.RoundTimes | l1/src/consensus-v6.ts:57-79 | round 0 starts 30 seconds after the tip, round r lasts 30 + 5r seconds but at most 120, and timeouts open 2 seconds before its end |
| Pacemaker.ClockRound | l1/src/consensus-v6.ts:90-108 | for any seed, returns the round holding the instant, and null exactly before round 0 or past the last round |
| Pacemaker.LeaderOpensWithTimeouts | l1/src/node.ts:657-659 | a leader reaches round r exactly when timeout votes for r-1 become allowed |
| PendingOrder.MergeIsUnique | l1/src/chain.ts:1798-1834 | repeatedly taking the least lane head determines one result |
| PendingOrder.MergeKeepsLanes | l1/src/chain.ts:1798-1834 | a merge restricted to one sender is that sender's lane |
| PendingOrder.OrderedIsPermutation | l1/src/chain.ts:1722-1836 | the ordered pool is a permutation of the pool in which every sender's nonces ascend |
| PendingOrder.OrderedProtocolFirst | l1/src/chain.ts:1748-1775 | every authorized protocol transaction precedes every transfer with none of its own sender's behind it |
| PendingOrder.InputOrderIrrelevant | l1/src/chain.ts:1722-1836 | under fee priority the result does not depend on the order the pool is given in |
| PendingPriority.OrderedByPriority | l1/src/chain.ts:1748-1775 | whenever a transaction comes out, the rest of its lane precedes that of every other sender whose next transaction comes later, by class, rank, activation, fee or arrival, time, txid and sender |
| PendingPriority.OrderedByFee | l1/src/chain.ts:1758-1775 | under fee priority, of two senders' next transfers the earlier one pays at least as much unless a protocol transaction lifts it |
| PendingPriority.OrderedByArrival | l1/src/chain.ts:1728-1775 | without fee priority, of two senders' next transfers the earlier one arrived first unless a protocol transaction lifts it |
| PendingPriority.SameNonceOrder | l1/src/chain.ts:1784-1788 | of one sender's transactions with one nonce none follows one it precedes by fee or arrival, time and txid |
| BinaryHeap.SiftUp | l1/src/chain.ts:1802-1809 | restores the heap order after an insertion and permutes the entries |
| BinaryHeap.SiftDown | l1/src/chain.ts:1810-1821 | restores the heap order after the root changed and permutes the entries |
| BinaryHeap.RootIsLeast | l1/src/chain.ts:1799-1826 | nothing in a heap precedes its root |
| LaneHeap.BuildLanes | l1/src/chain.ts:1776-1797 | groups the pool by sender and sorts each group, losing nothing |
| LaneHeap.MergeLanes | l1/src/chain.ts:1822-1835 | the heap loop computes the merge that repeatedly takes the least lane head |
| LaneHeap.OrderPendingByFeePriority | l1/src/chain.ts:1722-1836 | the whole ordering function computes the specified order |
| BlockBuilding.ValidateAndApply | l1/src/chain.ts:1036-1122 | the validation loop accepts exactly the lists whose every transaction is new, authorized and applicable in turn, and ends in their state and cursors |
| BlockBuilding.ValidateSnoc | l1/src/chain.ts:1036-1122 | validating a longer list is validating the shorter one and then the last transaction from its state |
| BlockBuilding.SelectInOrder | l1/src/chain.ts:880-970 | the greedy loop returns a list that validates to the state and cursors it ended in, within both limits, and leaves out only what it could not take in turn |
| BlockBuilding.SelectValidPending | l1/src/chain.ts:856-970 | the same, over the ordered pool |
| BlockBuilding.ProposeAndValidate | l1/src/chain.ts:856-970 | whatever the pool, block validation accepts the selection and reaches the very state and governance cursors the selector ended in, within the count and byte limits |
| BlockBytes.ListBytesAreText | l1/src/chain.ts:933-934 | what selection counts is the UTF-8 length of the selected list inside its JSON array, elements and commas |
| Governance.RecordTxKeeps | l1/src/chain.ts:1141-1151 | recording an authorized governance transaction keeps the schedules well formed and only appends entries at least 100 blocks ahead |
| Governance.AppendsKeepInForce | l1/src/chain.ts:495-531 | appending later entries does not change what is in force below them |
| Governance.RecordValidatorUpdate | l1/src/chain.ts:1417-1462 | an authorized validator update extends the validator schedule validly |
| Governance.RecordProtocolUpgrade | l1/src/chain.ts:1474-1506 | an authorized upgrade extends the protocol schedule without a downgrade from v6 on |
| Governance.RecordOracleGovernance | l1/src/chain.ts:1381-1415 | an authorized oracle action extends the oracle schedule validly |
| GovernanceRuns.RunKeeps | l1/src/chain.ts:620-638 | any run of accepted blocks keeps the schedules well formed and only appends beyond the delay |
| GovernanceRuns.ReachableSchedulesGood | l1/src/chain.ts:455-480 | every schedule reachable from genesis is well formed |
| GovernanceRuns.NearFutureIsFixed | l1/src/chain.ts:495-531 | no continuation changes validators, protocol version or oracle control at a height below the next one plus 100 |
| GovernanceRuns.NoDowngradeEver | l1/src/chain.ts:1304-1324 | once a version of 6 or more is in force, no later height in any continuation has a lower one |
| GovernanceRuns.OracleControlIs | l1/src/chain.ts:1203-1215 | the oracle is paused at a height exactly when a pause up to it is followed by no resume up to it, and a key revoked exactly when an entry up to it lists the key |
| GovernanceApprovals.ApprovedIff | l1/src/chain.ts:1440-1462 | a governance transaction is authorized exactly when a validator sent it and more than two thirds of the validators approve it, each once and verified |
| GovernanceApprovals.ValidatorUpdateIff | l1/src/chain.ts:1417-1462 | exactly which validator updates are accepted: approvals, at least 100 blocks' notice, after the last scheduled one, 1 to 100 distinct validators, possession proofs |
| GovernanceApprovals.ProtocolUpgradeIff | l1/src/chain.ts:1474-1506 | exactly which upgrades are accepted: approvals, notice, order, a version of 1 to 65535 and none below a scheduled 6 or more |
| GovernanceApprovals.OracleGovernanceIff | l1/src/chain.ts:1381-1415 | exactly which oracle actions are accepted: approvals, notice, order, pause and resume in turn, 1 to 100 distinct registered keys not yet revoked |
| GovernanceApprovals.OtherKindsIff | l1/src/chain.ts:1064-1080 | transfers need the chain, a signature and the version in force; settlements also the oracle checks |
| GovernanceApprovals.ValidatesIff | l1/src/chain.ts:1036-1122 | a list validates exactly when identifiers are distinct, each transaction is authorized after those before it, and the ledger takes all |
| GovernanceApprovals.AcceptIff | l1/src/chain.ts:620-638 | the next block is taken exactly when its protocol version is 1, 2, 3, 5 or 6 and its list validates so, and to what state |
| GovernanceApprovals.HistoryIs | l1/src/chain.ts:620-638 | each block of an accepted run was checked at its height against the validators in force there |
| GovernanceApprovals.EveryEntryCarried | l1/src/chain.ts:1141-1151 | over every run of accepted blocks, every entry the three schedules gain was written by a transaction of one of the blocks that more than two thirds of the validators in force there approved, verified and one by one, at least 100 blocks ahead |
| GovernanceApprovals.HonestBehindEveryDecision | l1/src/chain.ts:1440-1462 | with fewer than a third of the set in force faulty, an honest member of it approved |
| GovernanceRuns.ValidateValidatorSchedule | l1/src/chain.ts:1256-1302 | the checkpoint loop accepts exactly the well-formed validator schedules |
| GovernanceRuns.ValidateProtocolSchedule | l1/src/chain.ts:1304-1324 | the checkpoint loop accepts exactly the well-formed protocol schedules |
| GovernanceRuns.ValidateOracleSchedule | l1/src/chain.ts:1338-1379 | the checkpoint loop accepts exactly the non-empty well-formed oracle schedules |
| GovernanceRuns.CheckpointAccepted | l1/src/chain.ts:455-480 | the checkpoint of every reachable chain passes its own schedule validators |
| GovernanceRuns.ZyronChain.ValidatorsAtHeight | l1/src/chain.ts:495-506 | the scan returns the validators of the last entry active at the height |
| GovernanceRuns.ZyronChain.ProtocolVersionAtHeight | l1/src/chain.ts:520-531 | the scan returns the version of the last entry active at the height |
| GovernanceRuns.ZyronChain.RecordGovernanceUpdates | l1/src/chain.ts:1141-1151 | the schedules become the old ones with every governance transaction recorded in order |
| GovernanceRuns.ZyronChain.AcceptBlock | l1/src/chain.ts:620-638 | accepts exactly the valid next blocks, moves to the specified state and keeps the schedules well formed |
| MempoolSpec.VictimIsWeakest | l1/src/mempool.ts:448-462 | the victim is a sender's highest-nonce transfer of minimal fee rate, and there is one exactly when such a transfer exists |
| MempoolSpec.BumpRaisesRate | l1/src/mempool.ts:500-507 | a replacement or eviction that meets the bump strictly raises the fee rate |
| MempoolSpec.AddKeepsInv | l1/src/mempool.ts:167-214 | every add, accepted or refused, keeps slots, bytes, the transfer slot reserve, the sender cap and the one-per-slot rule |
| MempoolSpec.RefusedAddIsAtomic | l1/src/mempool.ts:184-253 | a refused add, a refused replacement included, changes neither contents nor admission times |
| MempoolSpec.InsertEffect | l1/src/mempool.ts:220-253 | an insert adds the newcomer and removes exactly the victim when room is needed |
| MempoolSpec.AcceptedAdd | l1/src/mempool.ts:167-214 | an accepted add adds the newcomer, removes the transaction of its slot and at most one victim, and keeps the slot's first admission time |
| MempoolAdmission.VictimIs | l1/src/mempool.ts:448-462 | the transfer that would be evicted is the tail transfer of lowest fee rate, then earliest timestamp, then earliest admission, and no other |
| MempoolAdmission.AddAcceptedIff | l1/src/mempool.ts:167-253 | exactly which transactions are taken: fee rule, new identifier, 1 to maxBytes bytes; a free slot below the sender cap, or a held one outbid by fee and 11/10 of the rate; and slots, bytes and transfer shares with room, or the weakest tail transfer to make it |
| MempoolAdmission.InsertedIs | l1/src/mempool.ts:220-253 | with a free slot the pool then holds, in order, what it held without the one that gave way, and the newcomer last |
| MempoolAdmission.ReplacedIs | l1/src/mempool.ts:186-208 | with a held slot also without the replaced transaction |
| MempoolSpec.RemoveKeepsInv | l1/src/mempool.ts:271-277 | remove drops exactly the named transactions and keeps the bounds |
| MempoolSpec.PruneKeepsInv | l1/src/mempool.ts:279-287 | prune drops exactly the selected transactions and keeps the bounds |
| MempoolSpec.RunKeepsInv | l1/src/mempool.ts:167-287 | the bounds hold after any sequence of add, remove and prune |
| MempoolSpec.ByteReserveCondition | l1/src/mempool.ts:236-249 | an accepted add keeps the transfer byte reserve exactly when its eviction does not overrun it |
| MempoolSpec.ByteReserveFails | l1/src/mempool.ts:236-249 | a concrete pool and add that break the transfer byte reserve |
| Mempool.StoreKeepsIndexes | l1/src/mempool.ts:255-269 | storing updates every index and counter to the fold over the new contents |
| Mempool.DropKeepsIndexes | l1/src/mempool.ts:397-410 | deleting updates every index and counter to the fold over the new contents |
| Mempool.DropIsAdjustable | l1/src/mempool.ts:370-387 | deleting a pending transaction never meets the occupancy error |
| Mempool.MempoolObject.AdjustOccupancy | l1/src/mempool.ts:370-387 | changes the four counters by one transaction, refusing exactly when one would leave its range |
| Mempool.MempoolObject.StoreTx | l1/src/mempool.ts:255-269 | stores without error, keeps every index agreeing with the contents and invalidates the cache |
| Mempool.MempoolObject.DeleteTransaction | l1/src/mempool.ts:397-410 | deletes without error and keeps every index agreeing with the contents |
| Mempool.MempoolObject.ComputeLowestPriorityEvictableTransfer | l1/src/mempool.ts:448-462 | the two scans find exactly the specified victim |
| Mempool.MempoolObject.LowestPriorityEvictableTransfer | l1/src/mempool.ts:440-446 | the cached victim is always what a fresh scan would find |
| Mempool.MempoolObject.InsertIfRoom | l1/src/mempool.ts:220-253 | inserts as specified, or changes nothing when the transaction does not fit |
| Mempool.MempoolObject.Replace | l1/src/mempool.ts:186-208 | replaces the transaction of the slot as specified, or restores it on refusal |
| Mempool.MempoolObject.AddTx | l1/src/mempool.ts:167-214 | accepts, changes the contents and keeps all indexes exactly as the list operation says |
| Mempool.MempoolObject.RemoveTxs | l1/src/mempool.ts:271-277 | removes as the list operation says and keeps all indexes |
| Mempool.MempoolObject.PruneTxs | l1/src/mempool.ts:279-287 | prunes as the list operation says, returns the number removed and keeps all indexes |
| Mempool.MempoolObject.PendingTransferSpend | l1/src/mempool.ts:329-331 | the spend index answers the sum over the sender's pending transfers |
| Mempool.MempoolObject.HasValidatorUpdateFrom | l1/src/mempool.ts:325-327 | answers whether the sender has a pending validator update |
| Mempool.MempoolObject.ConflictingTransaction | l1/src/mempool.ts:333-336 | answers with the pending transaction of the slot, none exactly when there is none |
| SparseTree.SamePathSameKey | l1/src/state-v2.ts:1142-1145 | keys whose 256 bits agree are equal |
| SparseTree.BitsAre | l1/src/state-v2.ts:1142-1145 | the path bits of a byte are its binary digits, the highest first |
| SparseTree.OneAnswer | l1/independent-light-client/verify_vector.py:336-368 | one root never verifies two answers for one key |
| SparseTree.Soundness | l1/independent-light-client/verify_vector.py:336-368 | a sibling chain that rebuilds the root of an assignment claims exactly the assignment's answer |
| SparseMerkle.CompressionIsExact | l1/src/state-v2.ts:1010-1018 | the compressed tree hashes to the root of the fully written-out 256-level tree |
| SparseMerkle.UpdateIsExact | l1/src/state-v2.ts:924-993 | an update never fails on a well-placed tree, changes one key's answer only and keeps leaves on their paths |
| SparseMerkle.MergeUpdates | l1/src/state-v2.ts:956-993 | splitting a leaf keeps the old answer and adds the new one |
| SparseMerkle.SameContentsSameRoot | l1/src/state-v2.ts:124-135 | runs of sets with the same final contents end in the same root whatever their order |
| SparseMerkle.EmptyHashes | l1/independent-light-client/verify_vector.py:324-330 | the loop computes the hash of the empty subtree of every depth |
| SparseMerkle.LeafSiblings | l1/src/state-v2.ts:1020-1041 | the siblings appended below a lone leaf are the tree's own |
| SparseMerkle.Prove | l1/src/state-v2.ts:279-303 | the proof of any key carries the tree's own siblings and rebuilds its root |
| SparseMerkle.VerifyStateProof | l1/independent-light-client/verify_vector.py:336-368 | the verifier's loop accepts exactly the proofs whose chain rebuilds the anchored root |
| SparseMerkle.AcceptedIsTrue | l1/independent-light-client/verify_vector.py:336-368 | an accepted proof against the root of a state yields exactly the value the state holds at the key, or its absence |
| SparseMerkle.ProveText | l1/src/state-v2.ts:279-303 | after any run of sets, the tree's proof of a held or absent key is accepted with the true value |
| SparseMerkle.ActivateNextProtocolVersion | l1/independent-light-client/verify_vector.py:371-382 | activates exactly the supported versions whose schedule entry is proved |
| SparseMerkle.OneNextVersion | l1/independent-light-client/verify_vector.py:371-382 | one anchor activates at most one next protocol version |
| SparseMerkle.ScheduleKeyDiffers | l1/src/light-client.ts:210-211 | every height has its own protocol-schedule key |
| GovernedClients.ValidatorKeyDiffers | l1/src/light-client.ts:187-188 | every height has its own validator-schedule key |
| Merkle.MerkleRoot | l1/src/merkle.ts:3-15 | the loop that pushes the duplicate and folds pairs computes the root |
| Merkle.SharedRootIff | l1/src/merkle.ts:3-15 | two lists of long leaf texts share a root exactly when they fill to the same complete tree |
| Merkle.FilledKeepsRoot | l1/src/merkle.ts:6-7 | every list shares its root with the complete list its duplicated nodes stand for |
| Merkle.RootOfTwo | l1/src/merkle.ts:8-12 | the root of two texts is the hash of the left digest followed by the right one |
| Merkle.RootByHalves | l1/src/merkle.ts:5-14 | the root of 2^(k+1) texts is the hash of the roots of its halves, left before right |
| Merkle.RootIsTree | l1/src/merkle.ts:3-15 | the root of any list is that of the top-down tree over the complete list it fills to |
| Merkle.MerkleBinding | l1/src/chain.ts:250-257 | lists of long leaf texts that share a root are equal unless they differ in length and the longer one repeats a text |
| Merkle.RepeatedBlockCollides | l1/src/merkle.ts:6-7 | an odd number of blocks of 2^k texts and the same list with its last block repeated share a root, on every level and for every hash |
| Merkle.RepeatedLastCollides | zyron/block.py:67-82 | an odd list and the list with its last text repeated share a root |
| JsonReader.DigitsReadBack | l1/src/codec.ts:54-56 | the digits of a number have its decimal value and no leading zero |
| JsonReader.CharsReadBack | l1/src/codec.ts:154-168 | the quoted form of any string, escapes included, reads back as the string, whatever follows it |
| JsonReader.ParseEncode | l1/src/codec.ts:54-56 | reading the text of any value by the JSON grammar gives the value back |
| JsonReader.EncodeInjective | l1/src/codec.ts:54-56 | equal texts come from equal values with fields in the same order |
| JsonReader.EncodePaired | l1/src/codec.ts:54-56 | the text of a value has no lone surrogate, whatever its strings hold |
| JsonReader.VerbatimIff | l1/src/codec.ts:154-168 | a string is quoted as it stands exactly when it has no control unit, quotation mark, backslash or lone surrogate |
| CanonicalJson.NormalizeIs | l1/src/codec.ts:16-52 | normalization fails exactly on too deep nesting or an unsafe number, and otherwise sorts every object and lets the runtime order it |
| CanonicalJson.CanonicalIff | l1/src/codec.ts:14-56 | a value has a canonical text exactly when its numbers are safe integers and it nests at most 65 containers, and the text reads back as the sorted value |
| CanonicalJson.ArrayIndexIff | l1/src/codec.ts:31-38 | exactly the decimal numerals below 2^32 - 1 are array indexes |
| CanonicalJson.StreamedKeysAscend | l1/src/codec.ts:4-6 | the streamed form lists an object's keys in strictly ascending order of code units |
| CanonicalJson.StreamingMatches | l1/src/codec.ts:82-128 | the streamed text equals the one-shot text exactly when no object has keys the runtime moves |
| CanonicalJson.NoIndexKeysSafe | l1/src/codec.ts:31-38 | a value without array-index keys has no such object |
| CanonicalJson.IndexKeysDiffer | l1/src/codec.ts:31-38 | the keys "10" and "9" make the two texts differ |
| CanonicalJson.CanonicalIsInjective | l1/src/codec.ts:54-56 | two encodable values have the same canonical text exactly when they are the same up to key order |
| CanonicalStream.ChunkEnd | l1/src/codec.ts:156-162 | a chunk is never empty and never ends inside a surrogate pair |
| CanonicalStream.WriteCanonicalString | l1/src/codec.ts:154-168 | the chunks of a string of any length concatenate to its quoted form |
| CanonicalStream.EmitCanonicalJson | l1/src/codec.ts:82-152 | emission succeeds exactly on encodable values and writes the text of the sorted value |
| CanonicalStream.CanonicalJsonDigest | l1/src/codec.ts:71-80 | the digested bytes and their count are those of the canonical text, fragment by fragment, when no object has keys the runtime moves |
| Utf8Reader.Utf8ReadsBack | l1/src/codec.ts:71-80 | the bytes of a text without a lone surrogate read back as the text |
| Utf8Reader.CanonicalBytesIff | l1/src/codec.ts:54-80 | two values have the same canonical bytes exactly when they are the same up to key order |
| LegacyLedger.NoncesAreConsecutive | zyron/blockchain.py:705-737 | in a valid chain every sender's nonces are 1, 2, 3, ... |
| LegacyLedger.NeverOverdrawn | zyron/blockchain.py:705-737 | in a valid chain no balance is negative after any transaction |
| LegacyLedger.Conservation | zyron/blockchain.py:519-741 | all non-SYSTEM balances of a valid chain sum to the minted subsidies, at most the maximum supply |
| LegacyLedger.StaysValid | zyron/blockchain.py:600-601 | a valid chain stays valid as time passes |
| LegacyLedger.SubsidyHalves | zyron/blockchain.py:209-213 | the subsidy starts at the initial reward and halves every 100,000 blocks down to nothing |
| LegacyRules.SubsidyIs | zyron/blockchain.py:209-213 | the subsidy is 50 coins divided by two to the number of full 100,000 blocks, in whole atoms |
| LegacyRules.RetargetExactly | zyron/blockchain.py:162-187 | in a valid chain every fifth block from the tenth on is one harder exactly when the five blocks before span less than 75 s and the difficulty was below 8, one easier exactly when they span more than 300 s and it was above 2; every other block keeps the difficulty |
| LegacyRules.MinedDifficulty | zyron/blockchain.py:1033-1041 | the miner builds its block at that difficulty |
| LegacyRules.MinedBlockIs | zyron/blockchain.py:1000-1050 | the mined block is dated now or just after the tip, links to it, and holds the selection and then the payment due, if any |
| LegacyRules.ValidIff | zyron/blockchain.py:500-741 | a chain is valid exactly when it starts at genesis and every later block follows, is sealed, retargeted and filled as the rules say, in numbers |
| LegacyRules.SpendsAreSigned | zyron/transaction.py:253-326 | in a valid chain every spend of an account carries a key whose address is that account and a signature that verifies |
| LegacyRules.PaymentsAreLast | zyron/blockchain.py:680-703 | the only unsigned transactions are the payments due, last in their blocks |
| LegacyValidator.GetNonceBeforeBlock | zyron/blockchain.py:310-322 | the scan with its break returns the highest nonce over the blocks before the index |
| LegacyValidator.GetBalanceAtomsBeforeBlock | zyron/blockchain.py:748-770 | the scan with its break returns the balance over the blocks before the index |
| LegacyValidator.GetBalanceAtoms | zyron/blockchain.py:1066-1082 | returns the balance over the whole chain |
| LegacyValidator.GetTotalSupplyAtoms | zyron/blockchain.py:238-256 | on a valid chain returns the minted subsidies, which are what all accounts hold |
| LegacyValidator.CheckTransactions | zyron/blockchain.py:640-678 | accepts exactly the lists of valid, timely transactions whose identifiers are new to chain and block |
| LegacyValidator.CheckReward | zyron/blockchain.py:680-703 | accepts exactly one final SYSTEM payment of the due amount, or none when nothing is due |
| LegacyValidator.CheckSpends | zyron/blockchain.py:705-737 | accepts exactly when nonces run on and each sender spends only what it had before the block |
| LegacyValidator.IsValidChain | zyron/blockchain.py:519-741 | the validator accepts exactly the valid chains |
| LegacyValidator.GetAllAddresses | zyron/blockchain.py:1132-1149 | the address list of a valid chain covers every account, its balances sum to the supply, and none exceeds it |
| LegacyMiner.ChoiceIsBest | zyron/blockchain.py:466-474 | each chosen transaction is spendable and no other candidate has a higher fee or the same fee and a later date |
| LegacyMiner.SelectIsSelection | zyron/blockchain.py:418-486 | the selection consists of distinct pool transactions whose nonces and spending the validator accepts |
| LegacyMiner.SelectIsMaximal | zyron/blockchain.py:437-465 | selection stops only at a full block or when nothing more is spendable |
| LegacyMiner.FeesWithinMinted | zyron/blockchain.py:1000-1006 | a selection's fees never exceed what was minted, so the miner's payment fits the maximum |
| LegacyMiner.DifficultyInRange | zyron/blockchain.py:162-187 | retargeting moves the difficulty by at most one and keeps it in range |
| LegacyMiner.SlowerIsNotHarder | zyron/blockchain.py:175-187 | a later tip never raises the next difficulty |
| LegacyMiner.RewardIsNew | zyron/blockchain.py:1018-1031 | the reward's identifier is new to chain and block because it is dated with its own block |
| LegacyMiner.MinedChainValid | zyron/blockchain.py:983-1061 | the mined block extends a valid chain to a valid chain exactly when the tip is not too far ahead, no selected transaction is dated after the block, and the block fits |
| LegacyFailure.MiningCanFail | zyron/blockchain.py:925-932 | a valid chain and a transaction dated ahead that its pool admits and that makes the mined chain invalid |
| LegacyFailure.RecoveryLosesTheFollower | zyron/blockchain.py:821-830 | two concrete transfers of one sender of which recovery in the source's order loses one and the other order none |
| LegacyBlockchain.Blockchain.GetSortedPendingTransactions | zyron/blockchain.py:418-486 | the greedy loops compute the specified selection |
| LegacyBlockchain.Blockchain.MinePendingTransactions | zyron/blockchain.py:983-1061 | mining appends the specified block, drops what it confirmed, keeps the pool sound and keeps the chain valid exactly when the block is mineable |
| LegacyBlockchain.Blockchain.AddTransaction | zyron/blockchain.py:912-981 | admits exactly the admissible transactions; pending spending stays within confirmed balances |
| LegacyBlockchain.AdmissibleIff | zyron/blockchain.py:912-981 | exactly which transactions the pool takes: valid, dated within an hour and two minutes, new, outbidding a full pool of 5000, next in nonce, covered by the balance |
| LegacyBlockchain.LimitedIs | zyron/blockchain.py:376-392 | what stays in the pool is no older than an hour, at most 5000, and no worse than anything left out for want of room |
| LegacyBlockchain.WorkIs | zyron/blockchain.py:86-91 | a block's work is two to the power of four times its difficulty, four bits for each zero digit of the hash |
| LegacyBlockchain.Blockchain.ReplaceChain | zyron/blockchain.py:773-841 | adopts exactly the valid chains with more work; the rebuilt pool is what offering the old pool and then the orphaned transactions in turn leaves, and it is sound |
| LegacyRuns.Perform | zyron/blockchain.py:773-1061 | offering, mining and replacing change the node object exactly as the run's step says |
| LegacyRuns.CallKeepsSound | zyron/blockchain.py:773-1061 | a call keeps chain and pool sound exactly when it does not mine a block the validator refuses |
| LegacyRuns.RunStaysSound | zyron/blockchain.py:773-1061 | over any sequence of calls at growing times the chain stays valid and the pool sound as long as no mined block is refused |
| LegacyRuns.WorkNeverFalls | zyron/blockchain.py:773-793 | no call lowers the work of the chain |
| LegacyRuns.SurvivesIff | zyron/blockchain.py:821-830 | while the pool has room for all candidates, the transactions that survive a replacement are exactly those admissible when their turn comes |
| LegacyRuns.SurvivorsWereAdmitted | zyron/blockchain.py:821-830 | however many candidates there are, every survivor was admissible when its turn came |
| LegacyRuns.FollowerIsLost | zyron/blockchain.py:821-830 | a pending transaction that follows an orphaned one of its sender is lost, and would survive in the other order |
| ActivityCap.SettlementWithinCap | l1/src/activity.ts:51-63 | returns the total exactly when every amount is non-negative and the total is within the cap |
| ActivityCap.ActivityLedger.Settle | l1/src/state.ts:210-250 | accepts exactly the allowed settlements (sender, receivers, epoch, nonce, caps, pool, lock, overflow) and updates epochs, record, nonce and every balance as specified |
| ActivityCap.AcceptsIff | l1/src/state.ts:210-250 | exactly which settlements are accepted, in milliseconds and atoms |
| ActivityCap.CreditAll | l1/src/state.ts:278-285 | crediting in turn succeeds exactly when no receiver ends above the maximum supply |
| ActivityCap.CreditIs | l1/src/state.ts:278-285 | crediting adds to every account exactly what the entries name it for |
| ActivityCap.SettlementConserves | l1/src/state.ts:242-244 | a settlement keeps the sum of all balances |
| ActivityCap.EpochsDistinct | l1/src/chain.ts:1076-1080 | each epoch settles at most once and in increasing order |
| ActivityCap.RollingCap | l1/src/activity.ts:87-107 | in every run, with any other transactions between settlements, the settlements in any open 24-hour window sum to at most the cap though only the last one is remembered |
| ActivityCap.PoolPaysOut | l1/src/state.ts:241-244 | in every run the pool holds its opening balance less all that settled, and settlements never exceed that balance |
| AllocationLocks.VestingShape | l1/src/founder-vesting.ts:19-27 | vesting is nothing up to the cliff, never falls, never exceeds the total and ends at the total |
| AllocationLocks.VestingIsLinear | l1/src/founder-vesting.ts:24-26 | between cliff and end the vested amount is the linear share rounded down |
| AllocationLocks.FounderVests | l1/src/founder-vesting.ts:40-63 | the founder's allocation vests nothing for 365 days and then linearly over 1095 days |
| AllocationLocks.HeightScheduleIsTimeSchedule | l1/src/founder-vesting.ts:40-63 | with blocks exactly 30 seconds apart the height schedule equals the timestamp schedule |
| AllocationLocks.SpendableIsExact | l1/src/allocation-locks.ts:159-189 | a non-empty outflow passes the balance and lock checks exactly when it is within the reported spendable amount |
| AllocationLocks.NeverNegative | l1/src/allocation-locks.ts:159-189 | in every run of covered debits no balance is ever negative |
| AllocationLocks.FounderNeverBelowLocked | l1/src/allocation-locks.ts:114-131 | in every run the founder balance is at least the part still locked |
| AllocationLocks.ReleaseNeverBelowLocked | l1/src/allocation-locks.ts:141-154 | the same for the public-distribution account |
| AllocationLocks.FounderOutflowBounded | l1/src/allocation-locks.ts:169-189 | what the founder ever sent is at most what has vested plus what was received |
| AllocationLocks.LiquidityNeverDecreases | l1/src/allocation-locks.ts:178-180 | the permanent-liquidity balance never decreases along a run |
| P2PFrame.LengthOrders | l1/src/p2p-frame.ts:91-92 | the length stands most significant byte first: headers compare as their lengths do |
| P2PFrame.FramesAreOneFrame | l1/src/p2p-frame.ts:91-96 | the streams the reader's length rule admits are exactly the written frames |
| P2PFrame.Budget.Reserve | l1/src/p2p-frame.ts:26-40 | reserves exactly when the bytes fit; use and peak never exceed the maximum |
| P2PFrame.Reservation.Release | l1/src/p2p-frame.ts:35-39 | gives the bytes back once however often it is called |
| P2PFrame.SendFrame | l1/src/p2p-frame.ts:91-96 | the chunks sent concatenate to the header and the body |
| P2PFrame.WriteFrame | l1/src/p2p-frame.ts:65-105 | sends the frame exactly when the body and the budget fit, and leaves the budget as it was |
| P2PFrame.Reader.Feed | l1/src/p2p-frame.ts:162-225 | whatever other users of the budget hold at that moment, takes a chunk exactly when the bytes so far still begin one readable frame and its needs fit beside theirs, and leaves their share as it was |
| P2PFrame.ReadFrameRetained | l1/src/p2p-frame.ts:140-246 | however the stream is cut and whatever other users hold of the budget at each chunk, succeeds exactly on one readable frame and yields its body; a failed read holds nothing and a successful one two frame lengths |
| P2PFrame.ReadFrame | l1/src/p2p-frame.ts:126-138 | alone on the budget a read needs room for three copies, and the budget is back where it started on every path |
| P2PFrame.RoundTrip | l1/src/p2p-frame.ts:65-246 | a written frame re-cut into any chunks within the limit is read back as written |

## Left out

- TimeoutAssembly.AssembleTimeoutCertificate: its contract says what the code computes, the highest QC among the last valid response of each validator; how that compares with the documented one is in TimeoutReports.
- V6Agreement.TimeoutKeepsInv: an honest report is any valid QC known so far or none, which is weaker than the code's own highest QC, so that a lost QC file is covered.
- LightClient.LightClientsAgree: the validators are fixed; following validator changes is GovernedClients.ClientFollowsTheChain. Protocols below v6 are not followed.
- GovernedClients.ClientFollowsTheChain: the client proves the absence of a schedule entry too, as the source asks of its callers; the canonical text of a validator list and the hexadecimal form of roots are parameters.
- ScheduledAgreement.ScheduledCertificatesAgree: a block hash is taken to determine the block's contents, as a parameter of the run.
- SigningJournal.Journal.ReserveV6Prepare: the journal file, its replay and its torn-append recovery are not modelled; a reservation is one atomic step. Heights of older protocols and malformed hashes are not refused here.
- SigningJournal.Journal.ReserveV6Commit: the same.
- GovernanceRuns.ValidateValidatorSchedule: address and key formats and the address derived from a key are not modelled.
- GovernanceRuns.ZyronChain.AcceptBlock: envelope, finality, state root and block size checks are not modelled; the transactions are.
- SparseMerkle.VerifyStateProof: anchor validation and the hexadecimal form of hashes are not modelled; digests are byte strings of length 32.
- LegacyValidator.IsValidChain: version 1 blocks after genesis, version 1 and 2 transactions and float timestamps are not modelled.
- CanonicalJson.NormalizeIs: fractional numbers, NaN and negative zero, undefined, functions, symbols and cyclic objects are not JSON values here.
- LegacyMiner.MinedChainValid: timestamps are integer milliseconds; the float seconds derived from them are not modelled.
- LegacyLedger.Conservation: version 1 and 2 transactions with float amounts and version 1 blocks other than genesis are not modelled.
- P2PFrame.ReadFrameRetained: the transfer meter, time limits and the JSON complexity scan (part of the decoder parameter) are not modelled.
- P2PFrame.Reader.Feed: the same.
- P2PFrame.ReadFrame: the same.
- ActivityCap.ActivityLedger.Settle: oracle approval and the allocation lock on the pool are parameters; the rolling window is always on, as under the fixed-supply profile.
- AllocationLocks.FounderOutflowBounded: a step is any debit with its credits; which transaction kinds produce debits is not modelled.
- The ledger and State v2 appliers are one abstract all-or-nothing partial step in block building.
- The leader's main loop, its vote collection for prepare and commit votes, and the remote signer.
- Agreement for protocols v1 to v5, which v6 replaces.
- Signature schemes, key derivation, address and key formats; domain prefixes of hashes are constructors.
- The 2^53 bounds of JavaScript numbers outside canonical JSON.
- The retired mining claim transactions.
- State sync record streams, portable snapshots and node storage.
- HTTP and libp2p transport, rate limits, peer reputation, file custody, command line, web site, wallet and game.
