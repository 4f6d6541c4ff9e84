# BLEEP: verified models of consensus, ledger and authentication

A Dafny model of the state machines at the centre of BLEEP, with proofs of what they guarantee over
whole runs. `dafny verify dfyconfig.toml` checks everything.

| part | files | main results |
|---|---|---|
| Weighted finality | `Committee`, `BlockHeader`, `Finality`, `Agreement` | no two nodes finalize different blocks at a height unless more than a third of that height's power signed twice, however the validator set changes |
| Block production | `Blocks`, `Totals`, `Ledger`, `Startup`, `Chain`, `Producer`, `Replica`, `Node`, `Slots`, `Runs`, `Accounting`, `Follower` | every slot and every inbound block is all or nothing; over all runs from any start, the first on an empty disk included, chain and store stay in step, no sender and nonce repeats, balance tables agree and the supply is accounted for; exactly which blocks another node takes; forks leave no trace |
| Sessions | `Session` | revocation is permanent although the deny-list is purged; the key is the last one confirmed |
| Audit logs | `HashChain`, `AuditLog`, `AuditStore` | the tip fixes the history; what disk and bounded cache hold over every run of appends, lost writes and restarts |
| Rate limiter | `RateLimiter` | exact bound on any sliding window |
| Advisory aggregation | `Advisory` | a strict majority bounds every median |
| Layer 3 bridge | `Bridge` | intents are batched once, move forward only and are conserved; the calls alone decide their fate |
| Governance | `Governance` | one execution per acceptance, in every stretch of every run |
| Adaptive driver | `Adaptive` | the validators at construction decide every outcome |
| Validator binding | `ValidatorBinding` | the exact sets of pairs for which lookup is right |
| Epochs | `Epoch` | epochs tile the heights; exact conditions for 64-bit wrap-around |

`Encoding` and `Arithmetic` hold the byte encodings and number facts that several parts share.

## How the model is built

Objects whose methods update fields are classes; each method's contract equates its new abstract state
with a specification function of the old one. Runs are sequences of such steps, and the main theorems
quantify over all runs. Code that only computes is written as functions.

Given from outside, as parameters: hashes, state roots, signature verification, block validation, key
decoding and encapsulation, random ids, clock readings, disk writes, proof generation, leader election,
finality waiting, the virtual machine's verdicts and side effects, and the iteration order of hash maps.

Assumptions, each written as a precondition where it is used:

- A hash is collision-free on the finite set of inputs that the statement is about.
- A signature that verifies for a certificate was made under that key for a certificate with the same
  message; signing is an explicit step of the agreement model.
- A state root tells the two account sets it is compared on apart.
- Token ids are fresh, and clocks do not run backwards, in the session and rate limiter runs.
- A RocksDB write batch is atomic, what is written is read back, and keys are iterated in byte order.
- Validators in the adaptive driver are filed under their own ids.
- Authorized senders are account addresses, as their signatures show, and block validation admits only
  blocks whose transactions are authorized.

Machine integers are modelled with their widths. Where the source does not check for overflow the model
wraps around, as a release build does; a debug build would stop instead.

## Findings

Where the code does not do what its documentation says or a reader would expect, the model follows the code:

- `AuditLogStore::verify_chain` promises to verify the cached chain. It returns false on an intact store
  once an entry has been evicted, because it expects the zero hash first (`AuditStore.WindowVerifies`).
- A finality header taken from a block of the current protocol fails its own hash check unless the block's
  VRF output is all zeros, because the proof bytes are not carried over (`BlockHeader.FromBlockVerifies`).
- The audit record format separates fields by NUL bytes without escaping; it is unambiguous exactly for
  records without NUL (`AuditStore.RecordBytesUnique`).
- `apply_transfer` from an account to itself creates money (`Ledger.MovedSupply`). The chain's own table
  rejects such a block, so it is never committed, but every slot that picks one up fails
  (`Accounting.ProducedIff`).
- Reverting a transaction is not its inverse when the receiver's balance wrapped around
  (`Chain.RevertOneIff`); below a total of 2^64 it is.
- A bridge batch whose proof fails is dropped from the queue, and its intents stay Initiated forever;
  nothing else strands an intent (`Bridge.StrandedIffProofFailed`).
- When the write of a block fails after the chain accepted it, the rollback does not return its
  transactions to the pool: a background task still removes them (`Slots.RefusedWriteLosesBlock`).
- The id under which transactions leave the pool has no nonce in it, although the pool admits transactions
  that differ in the nonce only. When a block is produced, a pending transaction that was not looked at is
  lost exactly when one that was has the same sender, receiver, amount and timestamp, for addresses without
  colons (`Slots.UnseenLostIff`).
- A replica replays transfers only. It takes a produced block if and only if every virtual machine account
  ends the proposer's slot with what it had and what the block sends it (`Follower.BlockIsFollowedIff`); a
  block whose one side effect credits one unit to an empty account is refused (`Follower.OneCoinIsRefused`).
- `record_proof` replaces an earlier proof of the same height. Any proof that can be recorded can be
  recorded again with another Merkle path (`Agreement.RecordedAgain`), and nothing else changes a recorded
  proof (`Agreement.ProofReplacedIff`).
- After lost writes and a restart the audit cache is not the last 10000 entries: it is exactly when every
  entry of the window that was there at the restart had reached the disk (`AuditStore.CacheIsWindowIff`).
- Scores are clamped to 100 when they are created but not when they are decoded. Overall health is the
  average exactly when the four parts sum to between 0 and 403; when the Byzantine likelihood outweighs
  everything healthy, it is a perfect 100 (`Advisory.OverallHealthInRange`).
- Binding ids are hashes of two ids run together, so ids of uneven length can clash
  (`ValidatorBinding.UnevenIdsClash`).
- Proof-of-work is unreachable in the adaptive driver, because the worst reliability equals the threshold
  (`Adaptive.SwitchAvoidsPoW`).
- The epoch length put into the proof inputs does not recover epoch 0 for heights 100 to 999
  (`Epoch.DivisorRecoversEpoch`).
- Aggregation logs a missing quorum but does not refuse it (`Advisory.AggregateReports`).

## Model

| member | source | states |
|---|---|---|
| `Committee.EncodeMembersInjective` | crates/bleep-consensus/src/finality.rs:326-353 | the length-prefixed member encoding is uniquely decodable |
| `Committee.ThresholdIsTwoThirds` | crates/bleep-consensus/src/finality.rs:355-357 | the split formula is floor(2T/3), never leaves 128 bits, and exceeding it means more than two thirds |
| `Committee.QuorumIntersection` | crates/bleep-consensus/src/finality.rs:181-186 | two quorums of one committee share signers with more than a third of its power |
| `Committee.CommitteeFromRegistry` | crates/bleep-consensus/src/finality.rs:289-343 | a committee exists exactly when the validators in good standing have valid keys of their own and their stakes add up within 128 bits; it lists exactly them, with their total stake, and otherwise the first offender is reported |
| `Committee.MemberIffStaked` | crates/bleep-consensus/src/validator_identity.rs:230-252 | a member is an active validator with positive reputation and stake and no double sign, with its id, decoded key and exactly its stake, and every such validator is one |
| `Committee.PowerIsStake` | crates/bleep-consensus/src/finality.rs:315-320 | the voting power of any set of signers, and of all, is the sum of their stakes |
| `Committee.FormsIffStaked` | crates/bleep-consensus/src/finality.rs:289-343 | when a committee exists, in terms of the validators' own fields |
| `Committee.FirstOffender` | crates/bleep-consensus/src/finality.rs:298-320 | which of the three errors the first offender gets, and that zero power is never one |
| `Committee.MembersAreActive` | crates/bleep-consensus/src/finality.rs:289-343 | committee members have distinct ids and are active validators of the registry |
| `Committee.CommitteeHashBinds` | crates/bleep-consensus/src/finality.rs:289-353 | equal committee hashes mean the same ids, keys, powers and total |
| `BlockHeader.FromBlockVerifies` | crates/bleep-consensus/src/finality.rs:37-91 | a header made from a block verifies if and only if the protocol predates VRF outputs or the output is zero |
| `BlockHeader.RealVrfOutputIsRejected` | crates/bleep-consensus/src/finality.rs:63-91 | a family of blocks of the current protocol for which the check fails |
| `BlockHeader.CanonicalBytesInjective` | crates/bleep-core/src/block.rs:193-244 | every field of a header can be recovered from its canonical bytes |
| `Finality.MessageBinds` | crates/bleep-consensus/src/finality.rs:132-142 | certificates with the same signing message differ at most in their signatures |
| `Finality.NewCertificate` | crates/bleep-consensus/src/finality.rs:106-128 | exactly when a certificate can be opened, and that it starts without signatures for the registered committee |
| `Finality.AddValidatorSignature` | crates/bleep-consensus/src/finality.rs:146-169 | only new, non-empty ids are added, so signers stay distinct |
| `Finality.SignersInOrderMeans` | crates/bleep-consensus/src/finality.rs:246-267 | the walk over the signers succeeds exactly when they are distinct committee members |
| `Finality.SignerVotingPower` | crates/bleep-consensus/src/finality.rs:246-267 | the sum is the power of the set of signers, never above the total, so the overflow error cannot occur |
| `Finality.VerifySignatures` | crates/bleep-consensus/src/finality.rs:188-244 | accepts exactly consistent certificates of the registered committee with distinct, valid member signatures |
| `Finality.MeetsQuorum` | crates/bleep-consensus/src/finality.rs:181-186 | true exactly when three times the stake of the signers exceeds twice the stake of all validators in good standing |
| `Finality.VerifyCertificate` | crates/bleep-consensus/src/finality.rs:386-395 | both checks together, if and only if |
| `Finality.FinalizesMeans` | crates/bleep-consensus/src/finality.rs:181-267 | a certificate finalizes exactly when it is consistent, names the registered committee, and is signed by different validators in good standing, each under its registered key, with more than two thirds of the stake |
| `Finality.QuorumIsSnapshotIndependent` | crates/bleep-consensus/src/finality.rs:181-244 | two registry snapshots that match a certificate name the same members and give the same verdict |
| `Finality.FinalityManager.constructor` | crates/bleep-consensus/src/finality.rs:406-412 | starts with nothing finalized |
| `Finality.FinalityManager.FinalizeBlock` | crates/bleep-consensus/src/finality.rs:414-439 | a height is finalized once and only by a verified quorum of stake, and exactly that certificate is stored; nothing changes on error |
| `Finality.FinalityManager.RecordProof` | crates/bleep-consensus/src/finality.rs:441-457 | a proof is recorded exactly when its verified certificate has the message finalized at its height |
| `Agreement.NodesAgree` | crates/bleep-consensus/src/finality.rs:181-235 | in every run of any number of nodes whose registries name one committee for a height, two managers finalize the same block hash there unless members that signed certificates for two block hashes hold more than a third of its power; other heights may have other committees |
| `Agreement.ConflictExposesThird` | crates/bleep-consensus/src/finality.rs:246-267 | two finalized certificates in conflict mean that members with more than a third of the power signed both |
| `Agreement.EquivocatorsSignedTwice` | crates/bleep-consensus/src/finality.rs:132-142 | whoever counts as a double signer signed two different messages, so a key that signed one message never does |
| `Agreement.MessageFixesHeader` | crates/bleep-consensus/src/finality.rs:132-142 | among the certificates of a run the signed message fixes the header, block hash included |
| `Agreement.ProofReplacedIff` | crates/bleep-consensus/src/finality.rs:441-457 | a recorded proof changes in a step if and only if a different proof of that height is recorded at that node |
| `Agreement.RecordedAgain` | crates/bleep-consensus/src/finality.rs:441-457 | whatever can be recorded can be recorded again with any Merkle path and dependent blocks, and replaces the first |
| `Agreement.FinalityIsPermanent` | crates/bleep-consensus/src/finality.rs:414-457 | in every continuation a finalized certificate stays unchanged, and a recorded proof is replaced only by one of the same message |
| `Ledger.MovedView` | crates/bleep-state/src/state_manager.rs:737-805 | a transfer changes the two accounts it names, the sender's nonce by one, and nothing else |
| `Ledger.MovedSupply` | crates/bleep-state/src/state_manager.rs:737-805 | the supply is conserved exactly when sender and receiver differ |
| `Ledger.StateManager.constructor` | crates/bleep-state/src/state_manager.rs:118-150 | opens on the stored height with an empty cache |
| `Ledger.StateManager.CacheEntry` | crates/bleep-state/src/state_manager.rs:964-976 | caching an account changes no answer |
| `Ledger.StateManager.SetBalance` | crates/bleep-state/src/state_manager.rs:170-174 | replaces one balance and marks the entry |
| `Ledger.StateManager.IncrementNonce` | crates/bleep-state/src/state_manager.rs:176-181 | one nonce moves by one, wrapping at 64 bits |
| `Ledger.StateManager.ApplyTransferWithNonce` | crates/bleep-state/src/state_manager.rs:737-805 | accepts exactly the exact next nonce, a positive covered amount and a receiver that does not overflow; a rejection leaves the ledger identical |
| `Ledger.StateManager.ApplyTransfer` | crates/bleep-state/src/state_manager.rs:713-735 | the same within 30 seconds of the clock |
| `Ledger.StateManager.TotalSupply` | crates/bleep-state/src/state_manager.rs:855-880 | the sum of all balances, cache over store, modulo 2^128 |
| `Ledger.StateManager.GetAccount` | crates/bleep-state/src/state_manager.rs:953-962 | the cache overrides the store, absent accounts are empty |
| `Ledger.StateManager.Restore` | crates/bleep-state/src/state_manager.rs:200-213 | a checkpoint brings back cache and height and leaves the store alone |
| `Ledger.StateManager.CheckNextCanonicalBlock` | crates/bleep-state/src/state_manager.rs:398-444 | exactly the next height, the stored chain and the stored tip are accepted |
| `Ledger.StateManager.Batch` | crates/bleep-state/src/state_manager.rs:466-472 | the batch holds exactly the marked accounts, in any iteration order |
| `Ledger.StateManager.FlushWithCanonicalBlock` | crates/bleep-state/src/state_manager.rs:446-481 | one write holds every changed account, the block and the metadata |
| `Ledger.StateManager.PersistCanonicalBlock` | crates/bleep-state/src/state_manager.rs:231-249 | commits or leaves the ledger identical, height included |
| `Ledger.StateManager.ApplyCanonicalBlock` | crates/bleep-state/src/state_manager.rs:256-309 | an inbound block is applied whole or the ledger is identical to before |
| `Ledger.StateManager.Mint` | crates/bleep-state/src/state_manager.rs:818-848 | credits exactly when the supply stays within the cap and nothing overflows |
| `Ledger.MintSupply` | crates/bleep-state/src/state_manager.rs:818-848 | minting adds its amount to the supply and never passes the cap |
| `Ledger.StateManager.FlushInternal` | crates/bleep-state/src/state_manager.rs:978-1008 | writes the marked accounts and the height, or nothing |
| `Ledger.SyncSettles` | crates/bleep-state/src/state_manager.rs:978-1008 | after it the store alone answers as the ledger did |
| `Ledger.ExportedIsView` | crates/bleep-state/src/state_manager.rs:886-911 | an exported balance is the one the ledger answers if and only if no positive stored balance is hidden by a zero in the cache |
| `Startup.LaunchGenesis` | src/bin/main.rs:479-515 | mints the allocation into an empty ledger at height 0 only, and comes up exactly with the launch supply there |
| `Startup.LaunchKeeps` | src/bin/main.rs:479-515 | a started ledger stands on its store, and everything beyond the store is marked |
| `Startup.EmptyStoreLaunches` | src/bin/main.rs:479-515 | an allocation within the cap starts on an empty store, and every account holds what the allocation gives it |
| `Startup.LaunchAfterSync` | crates/bleep-state/src/state_manager.rs:518-530 | a ledger that answers as its store would start still does after writing its cache out |
| `Ledger.PersistSettles` | crates/bleep-state/src/state_manager.rs:446-481 | after a commit the store alone answers as the ledger did |
| `Ledger.ReplayedSupply` | crates/bleep-state/src/state_manager.rs:256-288 | replay changes the supply by exactly what accounts send to themselves |
| `Ledger.ReplayConverges` | crates/bleep-state/src/state_manager.rs:256-288 | two ledgers that answer alike accept the same transfers and answer alike afterwards |
| `Ledger.KeysSortByHeight` | crates/bleep-state/src/state_manager.rs:340-346 | the zero-padded block keys sort by height |
| `Ledger.ContentsSame` | crates/bleep-state/src/state_manager.rs:495-515 | what the state root commits to fixes every balance and nonce, and is fixed by them |
| `Ledger.ReadRecords` | crates/bleep-state/src/state_manager.rs:331-367 | the walk succeeds exactly when keys count from 1 and every record links to the one before |
| `Ledger.LoadCanonicalBlocks` | crates/bleep-state/src/state_manager.rs:313-396 | succeeds exactly on one chain from genesis to the stored tip, and returns its blocks in order |
| `Ledger.LoadableIff` | crates/bleep-state/src/state_manager.rs:313-396 | loading succeeds exactly with one record per height up to the stored one, each with its own index, chain and block hash on the hash below it, and the last hash as tip |
| `Ledger.PersistKeepsLoadable` | crates/bleep-state/src/state_manager.rs:231-396 | what a commit writes, loading accepts |
| `Chain.BlockchainState.Credit` | crates/bleep-core/src/blockchain.rs:34-36 | adds to one balance, wrapping at 64 bits |
| `Chain.BlockchainState.Debit` | crates/bleep-core/src/blockchain.rs:42-52 | refuses exactly an uncovered amount |
| `Chain.BlockchainState.ApplyTransaction` | crates/bleep-core/src/blockchain.rs:63-73 | refuses self-transfers, zero amounts and uncovered amounts, and nothing else |
| `Chain.BlockchainState.ApplyBlock` | crates/bleep-core/src/blockchain.rs:79-103 | all transactions in order, or the exact table from before |
| `Chain.BlockchainState.RevertBlock` | crates/bleep-core/src/blockchain.rs:106-114 | undoes from the last transaction to the first |
| `Chain.BlockKeepsTotal` | crates/bleep-core/src/blockchain.rs:63-103 | while the total fits in 64 bits nothing wraps and blocks conserve it |
| `Chain.RevertOneIff` | crates/bleep-core/src/blockchain.rs:63-114 | reverting a transaction restores every balance if and only if the credit did not wrap |
| `Chain.RevertUndoes` | crates/bleep-core/src/blockchain.rs:79-114 | reverting any block just applied restores every balance, while the total fits in 64 bits |
| `Chain.Blockchain.constructor` | crates/bleep-core/src/blockchain.rs:127-139 | starts with the genesis block and the given table |
| `Chain.SameApplied` | crates/bleep-core/src/blockchain.rs:55-103 | applying depends on the balances only, not on zero entries in the table |
| `Chain.Blockchain.AddBlock` | crates/bleep-core/src/blockchain.rs:196-252 | appends exactly a valid block whose transactions apply |
| `Chain.Blockchain.RestoreBlocks` | crates/bleep-core/src/blockchain.rs:143-172 | restores stored blocks exactly when each follows the one before it and is valid on it |
| `Chain.Blockchain.Rollback` | crates/bleep-core/src/blockchain.rs:382-388 | drops the tip and reverts its transactions |
| `Chain.CountCommon` | crates/bleep-core/src/blockchain.rs:347-352 | the length of the common prefix by hash |
| `Chain.BlockchainState.RevertAll` | crates/bleep-core/src/blockchain.rs:359-361 | undoes orphaned blocks from the tip down |
| `Chain.BlockchainState.ApplyAll` | crates/bleep-core/src/blockchain.rs:362-369 | applies candidate blocks in order, or reports failure |
| `Chain.Blockchain.HandleFork` | crates/bleep-core/src/blockchain.rs:308-379 | chain and table change together or not at all, exactly for a longer chain from the same genesis whose blocks follow and validate one on another and replay |
| `Chain.UndoSound` | crates/bleep-core/src/blockchain.rs:357-361 | undoing the last blocks leads back to the replay of the others |
| `Chain.ForkSound` | crates/bleep-core/src/blockchain.rs:308-379 | a fork becomes the chain exactly when it is longer, valid, from the same genesis and replays over the first table, and the table is then that replay |
| `Chain.BalancesAreReplay` | crates/bleep-core/src/blockchain.rs:196-388 | over every run of additions, rollbacks and forks, balances are the replay of the chain |
| `Chain.ChainStaysValid` | crates/bleep-core/src/blockchain.rs:196-388 | over every run of additions, rollbacks and forks each block of the chain was valid on its parent, but for empty ones that claim index 0 |
| `Producer.PhaseB` | crates/bleep-consensus/src/block_producer.rs:542-635 | transfers and side effects of the pending transactions in order, with the included list and the failed ids |
| `Producer.PhaseInTurns` | crates/bleep-consensus/src/block_producer.rs:542-635 | the ledgers a slot goes through: an executed, authorized, recent transaction of this chain with the next nonce, a positive covered amount and room at the receiver is included with its transfer and side effects; any other is reported failed and changes nothing |
| `Producer.IncludedIsPresentable` | crates/bleep-consensus/src/block_producer.rs:556-568 | every included transaction was executed, for this chain, authorized, and within 30 seconds of the clock |
| `Producer.FitIsIncluded` | crates/bleep-consensus/src/block_producer.rs:556-589 | one that is all that, and payable at its turn, is included |
| `Producer.UnfitFails` | crates/bleep-consensus/src/block_producer.rs:556-568 | one that is not is among the failed and leaves the ledger as it was |
| `Producer.ApplyBalanceEffects` | crates/bleep-consensus/src/block_producer.rs:592-606 | saturating deltas, skipping sender and receiver |
| `Producer.ApplyNonceEffects` | crates/bleep-consensus/src/block_producer.rs:612-622 | nonces climb to the reported value, never down, skipping the sender |
| `Producer.ExecutedView` | crates/bleep-consensus/src/block_producer.rs:570-622 | every account as an admitted transaction leaves it, side effects included |
| `Producer.ExecutedNonces` | crates/bleep-consensus/src/block_producer.rs:570-622 | the sender's nonce moves by one, no nonce goes down, others move only for virtual machine accounts |
| `Producer.PhaseKeeps` | crates/bleep-consensus/src/block_producer.rs:542-650 | the store is not touched, and a slot in which every transaction fails changes nothing |
| `Producer.EveryTxPlaced` | crates/bleep-consensus/src/block_producer.rs:542-640 | each pending transaction ends in the block or among the failed |
| `Producer.IncludedWasPending` | crates/bleep-consensus/src/block_producer.rs:542-635 | each transaction of the block was pending and admitted at its turn |
| `Producer.NoncesConsecutive` | crates/bleep-consensus/src/block_producer.rs:542-635 | each sender's nonces in a block count up from its nonce in the parent state |
| `Producer.AddressIsNoVmName` | crates/bleep-crypto/src/tx_signer.rs:64-73 | an account address is never a hexadecimal virtual machine name |
| `Producer.PhaseUses` | crates/bleep-consensus/src/block_producer.rs:542-635 | whatever was committed before, a block repeats no pair of sender and nonce |
| `Replica.EffectsShowIff` | crates/bleep-consensus/src/block_producer.rs:592-622 | one transaction with any list of side effects leaves the ledger as its transfer alone would if and only if every delta cancels out and no target exceeds a nonce |
| `Replica.ReplicaTracksIff` | crates/bleep-state/src/state_manager.rs:256-288 | a replica in the same state accepts every transfer and stays alike after every transaction if and only if all side effects come to nothing at their turn |
| `Replica.AlikeIffNoTrace` | crates/bleep-state/src/state_manager.rs:256-309 | a replica in the same state accepts the block and answers like the proposer after it if and only if every virtual machine account ends the slot with what it had and what the block sends it |
| `Replica.ReceiversStaySmall` | crates/bleep-state/src/state_manager.rs:737-805 | whatever the side effects, an account that a slot sends to ends within 128 bits |
| `Replica.ScopedTx` | crates/bleep-core/src/blockchain.rs:63-73 | among accounts that can send, nothing wraps while their total fits in 64 bits, and transactions never raise that total |
| `Replica.ScopedRevert` | crates/bleep-core/src/blockchain.rs:106-114 | rolling back restores all those accounts, whatever happens to the others |
| `Replica.PhaseAgrees` | crates/bleep-core/src/blockchain.rs:63-103 | of the transactions a slot admits, whatever their side effects, the chain accepts exactly the lists without self-transfers, and its table then agrees with the ledger |
| `Replica.ReplayAgrees` | crates/bleep-core/src/blockchain.rs:63-103 | a block that both sides accept keeps the chain's table in agreement with the replayed ledger |
| `Replica.ReplayUses` | crates/bleep-state/src/state_manager.rs:256-288 | whatever was committed before, a replayed block repeats no pair of sender and nonce |
| `Replica.PhaseSupply` | crates/bleep-consensus/src/block_producer.rs:542-635 | a slot changes the supply by exactly what its side effects do and what accounts send to themselves |
| `Replica.NoEffectsAreQuiet` | crates/bleep-consensus/src/block_producer.rs:592-622 | no side effects come to nothing and change no supply |
| `Node.BlockProducer.ProduceOne` | crates/bleep-consensus/src/block_producer.rs:335-343 | the whole new state of ledger, chain and pool on every path, with the checkpoint restored on error |
| `Node.BlockProducer.ProduceOneInner` | crates/bleep-consensus/src/block_producer.rs:345-837 | the same for one slot before the restore: no error path touches the store |
| `Node.BlockProducer.Commit` | crates/bleep-consensus/src/block_producer.rs:736-768 | chain first, then the store; the chain is rolled back if the write fails |
| `Node.BlockProducer.RemoveConfirmed` | crates/bleep-core/src/transaction_pool.rs:197-212 | drops exactly the transactions with these ids, in order |
| `Node.DropSnoc` | crates/bleep-core/src/transaction_pool.rs:197-212 | removal keeps the order of what stays |
| `Node.BlockProducer.RunBackgroundTask` | crates/bleep-core/src/blockchain.rs:226-240 | a background task removes one confirmed id some time after the block was added |
| `Node.BlockProducer.HandleInbound` | src/bin/main.rs:1310-1365 | the whole new state for an inbound block: preflight on a copy, then the store, then the chain |
| `Runs.EmptyDiskStarts` | src/bin/main.rs:479-566 | a new node starts on an empty disk, with every account at its allocation |
| `Runs.StartIsSafe` | src/bin/main.rs:479-566 | every start, at any height, is in step and answers as its store |
| `Slots.SafeIsSettled` | crates/bleep-state/src/state_manager.rs:446-481 | above height 0 the store alone answers as the ledger does |
| `Slots.DeliveryAllOrNothing` | src/bin/main.rs:1310-1365 | an inbound block is stored and added together or changes nothing, and exactly when; after the preflight the chain never refuses what the store has taken |
| `Runs.SnapshotSafe` | crates/bleep-state/src/state_manager.rs:518-530 | writing the cache out at any height changes no answer, nor what a restart would answer |
| `Slots.AllOrNothing` | crates/bleep-consensus/src/block_producer.rs:335-343 | every slot adds one block to chain and store together or leaves ledger, blocks and balances as they were, and exactly when it adds one |
| `Slots.SlotOutcome` | crates/bleep-consensus/src/block_producer.rs:345-768 | exactly when a slot is skipped, and exactly when it produces which block, in terms of pool, leader, seal, validation, table and disk |
| `Slots.NextFollows` | crates/bleep-state/src/state_manager.rs:398-444 | the block built on the tip always passes the store's checks, so only the disk can refuse it |
| `Slots.PoolIsDrained` | crates/bleep-consensus/src/block_producer.rs:638-819 | a block takes exactly the transactions looked at out of the pool, and the others keep their order |
| `Slots.UnseenLostIff` | crates/bleep-core/src/transaction_pool.rs:197-212 | a transaction the slot did not look at is not in the block, and leaves the pool, for addresses without colons, if and only if one looked at has the same sender, receiver, amount and timestamp |
| `Blocks.TxIdIff` | crates/bleep-consensus/src/block_producer.rs:839-844 | for addresses without colons an id stands for sender, receiver, amount and timestamp, whatever the nonce |
| `Slots.RefusedWriteLosesBlock` | crates/bleep-core/src/blockchain.rs:226-240 | when the disk refuses a block the chain accepted, its transactions leave the pool uncommitted; no other slot without a block spawns removals |
| `Runs.RunsAreSafe` | crates/bleep-consensus/src/block_producer.rs:335-837 | over every run from any start, with side effects, inbound blocks, snapshots and restarts, chain and store are in step, a start on the store would answer like the ledger, and no sender and nonce is committed twice |
| `Runs.RestartLosesNothing` | src/bin/main.rs:479-566 | a restart always comes up, at height 0 too, with the same valid chain and the same answers |
| `Accounting.EmptyDiskBalanced` | src/bin/main.rs:479-566 | a new node on an empty disk starts with the chain's table in agreement with the ledger on every account |
| `Accounting.ProducedIff` | crates/bleep-consensus/src/block_producer.rs:736-768 | whatever the side effects, a slot that gets as far as a valid sealed block commits exactly when nobody in it sends to itself and the disk takes it |
| `Accounting.TablesAgree` | crates/bleep-consensus/src/block_producer.rs:335-837 | over every run the two balance tables agree on any accounts that include the senders and exclude the side effects |
| `Accounting.AddressesAgree` | crates/bleep-core/src/transaction.rs:139-157 | over every run with any side effects the two tables agree on all account addresses |
| `Accounting.AllAccountsAgree` | crates/bleep-consensus/src/block_producer.rs:335-837 | over every run without balance side effects they agree on every account |
| `Accounting.SupplyFollowsEffects` | crates/bleep-consensus/src/block_producer.rs:335-837 | over every run the supply moves by exactly what the side effects of committed blocks add or take |
| `Accounting.PlainRunsConserve` | crates/bleep-consensus/src/block_producer.rs:335-837 | over every run without side effects, restarts included, the tables agree and the supply never changes |
| `Follower.BlockIsFollowedIff` | crates/bleep-state/src/state_manager.rs:256-309 | a node in the same state takes a produced block, root check included, if and only if the proposer's slot leaves no trace beyond its transfers and the write succeeds, and then stays in the same state |
| `Follower.OneCoinIsRefused` | crates/bleep-state/src/state_manager.rs:289-301 | a family of produced blocks that are refused: one transaction whose one side effect credits one unit to an empty third account |
| `Follower.DeliveryIsFollowed` | crates/bleep-state/src/state_manager.rs:256-309 | a block that one node took from elsewhere is taken by every node in the same state whose write succeeds |
| `Follower.FollowerTracks` | crates/bleep-state/src/state_manager.rs:256-309 | over every run a node keeps up if and only if no produced block leaves a trace and its writes succeed, and for as long as it does it answers every question as the proposer |
| `Follower.FollowerKeepsUp` | crates/bleep-state/src/state_manager.rs:256-309 | it keeps up when all side effects come to nothing at their turn and its writes succeed |
| `Session.SessionManager.constructor` | crates/bleep-auth/src/session.rs:87-104 | starts with the secret and nothing issued or revoked |
| `Session.SessionManager.PrepareSecretRotation` | crates/bleep-auth/src/session.rs:107-126 | stages a secret and its expiry in five minutes; the key stays |
| `Session.SessionManager.ConfirmSecretRotation` | crates/bleep-auth/src/session.rs:128-147 | succeeds exactly on the pending, unexpired challenge, and then the staged secret is the key; an error keeps the key, and drops the rotation only when it has expired |
| `Session.SessionManager.ApplySecretRotation` | crates/bleep-auth/src/session.rs:149-176 | the new secret becomes the key, and every issued claim and revocation is forgotten |
| `Session.SessionManager.IssueToken` | crates/bleep-auth/src/session.rs:189-235 | signs and files exactly the claims asked for |
| `Session.SecondsAreWhole` | crates/bleep-auth/src/session.rs:211-212 | the times in a token are whole seconds, rounded down |
| `Session.SessionManager.ValidateToken` | crates/bleep-auth/src/session.rs:237-271 | the checks on signature, expiry, filed claims and deny-list, in that order |
| `Session.SessionManager.RevokeToken` | crates/bleep-auth/src/session.rs:273-284 | the id joins the deny-list at this instant |
| `Session.SessionManager.PurgeExpiredRevocations` | crates/bleep-auth/src/session.rs:286-291 | keeps exactly the claims that have not expired and the revocations newer than the longest lifetime |
| `Session.PurgingChangesNoAnswer` | crates/bleep-auth/src/session.rs:237-291 | at every later instant the manager answers as one that never purged |
| `Session.AcceptedExactly` | crates/bleep-auth/src/session.rs:189-291 | a token is accepted if and only if it was handed out under the key of its time, not revoked or rotated away since, and not expired; and exactly when it is called expired |
| `Session.KeyIsLastConfirmed` | crates/bleep-auth/src/session.rs:107-176 | over every run, on clocks of any kind, the key is the secret staged by the last rotation that was confirmed within five minutes, with what is pending and how often it rotated |
| `Session.RevocationIsPermanent` | crates/bleep-auth/src/session.rs:149-291 | once revoked, or issued before a confirmed rotation, no continuation accepts it |
| `HashChain.TipDeterminesChain` | crates/bleep-auth/src/audit.rs:110-164 | two intact chains of any lengths with one tip are the same chain |
| `AuditLog.VerifyChain` | crates/bleep-auth/src/audit.rs:135-164 | accepts exactly the hash chains from genesis and reports the first offending entry |
| `AuditLog.Log.constructor` | crates/bleep-auth/src/audit.rs:101-106 | an empty log that verifies |
| `AuditLog.Log.Verify` | crates/bleep-auth/src/audit.rs:135-164 | the verdict on the log as it stands |
| `AuditLog.Log.Record` | crates/bleep-auth/src/audit.rs:110-131 | appends one event, keeps all others, and the log still verifies |
| `AuditLog.TipDeterminesHistory` | crates/bleep-auth/src/audit.rs:110-164 | logs that verify and share a tip hold the same events |
| `AuditLog.TamperingIsDetected` | crates/bleep-auth/src/audit.rs:135-164 | a log with other events fails to verify or ends in another tip |
| `AuditStore.RecordBytesUnique` | crates/bleep-auth/src/audit_store.rs:350-369 | a record's encoding is its own if and only if no field holds a NUL byte |
| `AuditStore.OtherReading` | crates/bleep-auth/src/audit_store.rs:350-369 | otherwise, a different record with the same bytes |
| `AuditStore.TipDeterminesRecords` | crates/bleep-auth/src/audit_store.rs:350-369 | the tip fixes every record of a complete log without NUL bytes |
| `AuditStore.AppendHolds` | crates/bleep-auth/src/audit_store.rs:154-197 | every append, written or not, extends the history and keeps the cache at its last entries |
| `AuditStore.DiskContents` | crates/bleep-auth/src/audit_store.rs:251-304 | which entries the disk holds and where its counters stand, after any pattern of lost writes |
| `AuditStore.RestartRestoresExactly` | crates/bleep-auth/src/audit_store.rs:278-338 | a restart gives back the same state if and only if every entry of the window was written |
| `AuditStore.ReopenTruncates` | crates/bleep-auth/src/audit_store.rs:278-338 | after any pattern of lost writes a restart finds the log cut off after the last write, with its whole window exactly when none was lost within it |
| `AuditStore.DiskWellKeyed` | crates/bleep-auth/src/audit_store.rs:251-270 | every disk the store has written can be opened |
| `AuditStore.RestartRefinement` | crates/bleep-auth/src/audit_store.rs:154-338 | over every run of appends that reach the disk and restarts the cache is exactly the last 10000 entries of one history, which holds the appended records and timestamps in order |
| `AuditStore.LossyRuns` | crates/bleep-auth/src/audit_store.rs:154-338 | over every run of appends, lost writes and restarts there is one numbered hash chain of the appends that restarts have kept, with their records and timestamps; the disk holds those written, and the cache the newest 10000 that entered it since the last restart |
| `AuditStore.CacheIsWindowIff` | crates/bleep-auth/src/audit_store.rs:154-338 | that cache is the last 10000 entries if and only if every entry of the window that was there at the last restart had reached the disk |
| `AuditStore.DiskOnlyGrows` | crates/bleep-auth/src/audit_store.rs:251-270 | an entry that reached the disk is never lost or overwritten in any continuation |
| `AuditStore.VerifyEntries` | crates/bleep-auth/src/audit_store.rs:227-240 | true exactly for hash chains from the zero hash |
| `AuditStore.WindowVerifies` | crates/bleep-auth/src/audit_store.rs:227-240 | on an untampered store it is true if and only if nothing was evicted or the boundary hash is zero |
| `AuditStore.InsertEvicting` | crates/bleep-auth/src/audit_store.rs:180-197 | the new entry is in, and nothing but the oldest is out, above 10000 only |
| `AuditStore.LoadCache` | crates/bleep-auth/src/audit_store.rs:306-338 | scanning from the big-endian start key reads exactly the stored window |
| `AuditStore.Store.Open` | crates/bleep-auth/src/audit_store.rs:103-136 | opens any disk the store has written, with or without lost writes |
| `AuditStore.Store.Append` | crates/bleep-auth/src/audit_store.rs:154-197 | the entry under the next number has exactly the given fields and time and the hash of the old tip, the number and the four fields; on disk if the write succeeds |
| `AuditStore.Store.VerifyChain` | crates/bleep-auth/src/audit_store.rs:227-240 | the walk over the cached entries in key order, and its exact answer on the window of a history |
| `RateLimiter.KeysAreDistinct` | crates/bleep-auth/src/rate_limiter.rs:91-93 | keys are distinct for actions without a colon |
| `RateLimiter.ColonInActionCollides` | crates/bleep-auth/src/rate_limiter.rs:91-93 | every action with a colon shares its key with another identity |
| `RateLimiter.Limiter.constructor` | crates/bleep-auth/src/rate_limiter.rs:82-87 | starts without buckets |
| `RateLimiter.Limiter.CheckAndRecord` | crates/bleep-auth/src/rate_limiter.rs:91-121 | allowed exactly below the limit of the live window, with the bucket and the number left |
| `RateLimiter.AnswerMeans` | crates/bleep-auth/src/rate_limiter.rs:91-121 | exactly as many calls as an answer promises succeed at the same instant; after a refusal calls fail until the window ends, which is as far away as the answer says, to the second |
| `RateLimiter.Limiter.Remaining` | crates/bleep-auth/src/rate_limiter.rs:123-137 | exactly how many more calls succeed at this instant |
| `RateLimiter.Limiter.PurgeExpired` | crates/bleep-auth/src/rate_limiter.rs:139-143 | drops exactly the expired buckets |
| `RateLimiter.SlidingBound` | crates/bleep-auth/src/rate_limiter.rs:91-143 | over every run, no interval of one window admits more than 2*max-1 calls for a key |
| `RateLimiter.BoundIsReached` | crates/bleep-auth/src/rate_limiter.rs:91-121 | for every limit a run reaches that bound |
| `RateLimiter.PurgeIsInvisible` | crates/bleep-auth/src/rate_limiter.rs:139-143 | purging changes no later answer |
| `Advisory.Bounded` | crates/bleep-consensus/src/ai_advisory.rs:25-27 | scores are clamped to 100 and otherwise kept |
| `Advisory.MedianScore` | crates/bleep-consensus/src/ai_advisory.rs:259-274 | the middle of any ascending arrangement of the scores, or the floor of the middle two |
| `Advisory.MedianIgnoresOrder` | crates/bleep-consensus/src/ai_advisory.rs:259-274 | the median depends on the scores as a multiset only |
| `Advisory.MedianWithin` | crates/bleep-consensus/src/ai_advisory.rs:259-274 | with fewer than half outliers on each side the median lies between the bounds |
| `Advisory.AggregateReports` | crates/bleep-consensus/src/ai_advisory.rs:181-257 | succeeds exactly for signed reports of one epoch, with the median of each of the four fields; the error says why |
| `Advisory.AggregationIgnoresOrder` | crates/bleep-consensus/src/ai_advisory.rs:181-274 | success and every score are the same for every order of the reports |
| `Advisory.MajorityBoundsMedian` | crates/bleep-consensus/src/ai_advisory.rs:181-274 | a strict majority of honest reports keeps every score in the honest range |
| `Advisory.HalfIsNotEnough` | crates/bleep-consensus/src/ai_advisory.rs:259-274 | half of the reports, of any number, does not |
| `Advisory.OverallHealthInRange` | crates/bleep-consensus/src/ai_advisory.rs:310-316 | for any bytes overall health is within 0 to 100; it is the average if and only if the sum lies in 0 to 403, as for scores up to 100, and otherwise it is 100 |
| `Bridge.IdInjective` | crates/bleep-interop/layer3_bridge.rs:215-246 | different counters give different ids |
| `Bridge.IdRepeatsCounter` | crates/bleep-interop/layer3_bridge.rs:225-231 | an id is the little-endian counter four times over |
| `Bridge.Layer3Bridge.constructor` | crates/bleep-interop/layer3_bridge.rs:205-212 | starts empty, counting from 1 |
| `Bridge.Layer3Bridge.InitiateIntent` | crates/bleep-interop/layer3_bridge.rs:215-246 | files an Initiated intent under the next id and queues it |
| `Bridge.Layer3Bridge.FlushBatch` | crates/bleep-interop/layer3_bridge.rs:129-260 | empties the queue; on success exactly its intents become ProofReady |
| `Bridge.Layer3Bridge.SubmitProof` | crates/bleep-interop/layer3_bridge.rs:262-278 | only a ProofReady intent moves: to Verified with the proof if it verifies, else to Failed |
| `Bridge.Layer3Bridge.FinalizeIntent` | crates/bleep-interop/layer3_bridge.rs:280-288 | only a Verified intent is finalized |
| `Bridge.IdsAreDistinct` | crates/bleep-interop/layer3_bridge.rs:215-246 | all ids handed out in a run are distinct |
| `Bridge.BatchedOnce` | crates/bleep-interop/layer3_bridge.rs:129-260 | over a run each intent enters at most one successful batch |
| `Bridge.OnlyForward` | crates/bleep-interop/layer3_bridge.rs:215-288 | from any point of any run intents only move forward, keep their transfer, and never leave Finalized or Failed |
| `Bridge.FateDecides` | crates/bleep-interop/layer3_bridge.rs:129-288 | over every run the calls alone decide what the bridge holds for each intent: queue, stage, transfer and proof |
| `Bridge.OutcomeIff` | crates/bleep-interop/layer3_bridge.rs:262-288 | an intent is Verified or Finalized if and only if the first proof submitted after the successful flush of its batch verified, Failed if and only if that proof did not, and Finalized if and only if it was finalized after that |
| `Bridge.StrandedIffProofFailed` | crates/bleep-interop/layer3_bridge.rs:129-177 | over every run an intent is stuck as Initiated outside the queue if and only if the proof of its batch failed |
| `Bridge.CountsAddUp` | crates/bleep-interop/layer3_bridge.rs:293-312 | pending, verified, and finalized or failed intents add up to the initiations |
| `Governance.ProposalIdBinds` | crates/bleep-ai/src/governance_integration.rs:98-109 | an id stands for one assessment hash, signature and epoch |
| `Governance.GovernanceIntegration.constructor` | crates/bleep-ai/src/governance_integration.rs:172-179 | starts empty, without a trusted key |
| `Governance.GovernanceIntegration.SetTrustedAiKey` | crates/bleep-ai/src/governance_integration.rs:181-183 | replaces the key and nothing else |
| `Governance.GovernanceIntegration.Position` | crates/bleep-ai/src/governance_integration.rs:214-220 | finds the first proposal with the id |
| `Governance.GovernanceIntegration.RegisterAssessment` | crates/bleep-ai/src/governance_integration.rs:186-206 | exactly signed, matching, intact assessments become pending proposals |
| `Governance.GovernanceIntegration.AcceptRecommendation` | crates/bleep-ai/src/governance_integration.rs:209-232 | marks the first proposal with the id and logs it |
| `Governance.GovernanceIntegration.RejectRecommendation` | crates/bleep-ai/src/governance_integration.rs:235-259 | the same for a rejection |
| `Governance.GovernanceIntegration.ExecuteRecommendation` | crates/bleep-ai/src/governance_integration.rs:262-293 | only an accepted proposal is executed |
| `Governance.GovernanceIntegration.GovernanceFallback` | crates/bleep-ai/src/governance_integration.rs:349-382 | logs a decision, with or without a proposal, and never executes |
| `Governance.GovernanceIntegration.VerifyProposal` | crates/bleep-ai/src/governance_integration.rs:296-319 | repeats the three registration checks on the stored proposal |
| `Governance.CallsDecide` | crates/bleep-ai/src/governance_integration.rs:181-382 | over every run the calls alone decide the key, the proposals, the status of each, the log and the executions; an execution succeeds exactly when the last word on the proposal was an acceptance |
| `Governance.StatusIsLastDecision` | crates/bleep-ai/src/governance_integration.rs:186-382 | in every run a proposal's status is the last decision logged for it |
| `Governance.ExecutesIffLastAccepted` | crates/bleep-ai/src/governance_integration.rs:262-293 | an execution succeeds if and only if the last logged decision is an acceptance |
| `Governance.OneExecutionPerAcceptance` | crates/bleep-ai/src/governance_integration.rs:186-382 | in every stretch of every run executions are bounded by acceptances, fallbacks and duplicate ids included |
| `Governance.HistoryOnlyGrows` | crates/bleep-ai/src/governance_integration.rs:186-382 | decisions, executions and proposals are never lost or altered, except statuses |
| `Governance.ReverificationIsTheKey` | crates/bleep-ai/src/governance_integration.rs:296-319 | a stored proposal verifies again exactly when its signature does under the current key |
| `Adaptive.Leader` | crates/bleep-consensus/src/consensus.rs:275-284 | the validator with the most stake, and among equals the smallest id, whatever the map order |
| `Adaptive.TopIsUnique` | crates/bleep-consensus/src/consensus.rs:275-284 | there is one such validator |
| `Adaptive.EligibleMeans` | crates/bleep-consensus/src/consensus.rs:275-284 | a block can be finalized exactly when that validator is active with a reputation above 0.8 |
| `Adaptive.Mine` | crates/bleep-consensus/src/consensus.rs:298-327 | finds a nonce exactly when one of the first ten million has enough leading zeros |
| `Adaptive.BlockchainState.AddBlock` | crates/bleep-consensus/src/blockchain_state.rs:21-27 | always appends |
| `Adaptive.AdaptiveConsensus.constructor` | crates/bleep-consensus/src/consensus.rs:158-184 | starts in proof-of-stake at reliability 0.95 |
| `Adaptive.AdaptiveConsensus.SwitchConsensusMode` | crates/bleep-consensus/src/consensus.rs:200-225 | PBFT above load 70 or latency 200, else proof-of-stake; the reliability changes with the mode only |
| `Adaptive.AdaptiveConsensus.RunConsensus` | crates/bleep-consensus/src/consensus.rs:265-347 | what each mode accepts and appends |
| `Adaptive.AdaptiveConsensus.FinalizeBlock` | crates/bleep-consensus/src/consensus.rs:231-263 | one retry after a switch, with the whole new state |
| `Adaptive.AdaptiveConsensus.MonitorValidators` | crates/bleep-consensus/src/consensus.rs:361-378 | deactivates exactly the validators with a reputation below 0.30 |
| `Adaptive.SwitchAvoidsPoW` | crates/bleep-consensus/src/consensus.rs:200-225 | no load or latency selects proof-of-work |
| `Adaptive.MonitorKeepsEligibility` | crates/bleep-consensus/src/consensus.rs:361-378 | monitoring never changes whether blocks can be finalized |
| `Adaptive.FateIsFixed` | crates/bleep-consensus/src/consensus.rs:200-378 | over every run either every submitted block is appended once and in order or none is, decided by the first validators |
| `Adaptive.OutcomeIsFixed` | crates/bleep-consensus/src/consensus.rs:231-284 | any finalization in any run succeeds exactly when the first top-stake validator was eligible |
| `ValidatorBinding.ConstantTimeEq` | crates/bleep-auth/src/validator_binding.rs:224-233 | the accumulated difference is zero exactly for equal byte strings |
| `ValidatorBinding.Registry.constructor` | crates/bleep-auth/src/validator_binding.rs:84-90 | starts empty |
| `ValidatorBinding.Registry.IssueChallenge` | crates/bleep-auth/src/validator_binding.rs:100-146 | files the expected response, for keys of the right length only |
| `ValidatorBinding.Registry.BindValidator` | crates/bleep-auth/src/validator_binding.rs:151-204 | consumes the challenge first; succeeds exactly on a pending challenge within five minutes with the expected response, and then files the new binding and retires the old one |
| `ValidatorBinding.BindsIffAnswers` | crates/bleep-auth/src/validator_binding.rs:100-176 | over every run a bind succeeds if and only if it answers a challenge that was handed out for a proper key and not replaced or tried since, correctly and in time; otherwise the error says which of these failed |
| `ValidatorBinding.AtMostOneActive` | crates/bleep-auth/src/validator_binding.rs:151-204 | in every run over separated pairs a validator has at most one active binding |
| `ValidatorBinding.LookupRightIff` | crates/bleep-auth/src/validator_binding.rs:151-217 | lookup returns the latest successful bind in every run over a set of pairs if and only if different validators never share a binding id |
| `ValidatorBinding.ClashMisleads` | crates/bleep-auth/src/validator_binding.rs:151-217 | two binds that share an id: the first validator is answered with the binding of the second |
| `ValidatorBinding.FixedLengthSeparates` | crates/bleep-auth/src/identity.rs:116-123 | operator ids of one length are enough for that |
| `ValidatorBinding.UnevenIdsClash` | crates/bleep-auth/src/validator_binding.rs:178-184 | ids of uneven length can clash under every hash |
| `ValidatorBinding.ChallengesAreSingleUse` | crates/bleep-auth/src/validator_binding.rs:100-161 | over every run each issued challenge serves at most one attempt, successful or not |
| `Epoch.NewConfig` | crates/bleep-consensus/src/epoch.rs:65-78 | refuses exactly an empty epoch, and otherwise keeps the three numbers |
| `Epoch.EpochsTile` | crates/bleep-consensus/src/epoch.rs:85-117 | every height from genesis on lies in exactly the epoch `epoch_id` names |
| `Epoch.RangeAgreesIff` | crates/bleep-consensus/src/epoch.rs:85-107 | `is_in_epoch` agrees with `height_range` exactly when the end of the range fits in 64 bits |
| `Epoch.BelowGenesis` | crates/bleep-consensus/src/epoch.rs:85-107 | below genesis the answer is epoch 0, whose range does not hold the height |
| `Epoch.BuildExactly` | crates/bleep-consensus/src/epoch.rs:156-207 | building always succeeds; the state holds its height exactly when the epoch ends within 64 bits, and then has the epoch's bounds |
| `Epoch.ValidateIff` | crates/bleep-consensus/src/epoch.rs:163-180 | any state validates exactly when its epoch is that of its first height and it spans one epoch, on a circle of 64-bit heights |
| `Epoch.BuildPerEpoch` | crates/bleep-consensus/src/epoch.rs:198-207 | two heights get the same state if and only if they are in one epoch |
| `Epoch.DivisorRecoversEpoch` | crates/bleep-consensus/src/block_producer.rs:880-887 | the derived epoch length recovers the epoch exactly for heights below 100 and from 1000 on |

## Left out

- Session.SessionManager.ValidateToken: does not model the JWT text format; a token is its claims and the key that signed them, and it expires in its expiry second as section 4.1.4 of RFC 7519 says.
- Adaptive.AdaptiveConsensus.MonitorValidators: takes reputations as real numbers, without NaN.
- Node.BlockProducer.ProduceOne: does not model other users of the pool between its steps.
- The inside of the sparse Merkle trie, and snapshot files and their restoration; taking a snapshot is
  modelled as far as it writes the cache out.
- How inbound blocks are received and their headers checked before the block handler.
- Gas accounting, benchmarks, gossip and signature-availability announcements after a block.
- Leader election, VRF and STARK proofs, and the PBFT message exchange behind finality waiting.
- Admission to the transaction pool; runs put any transactions into it.
- Roles, identities, credentials and nullifiers.
- The minimum-entropy check on session secrets.
- Advisory reports' creation, signing and emergency flags.
- Scoring and inference in `bleep-ai`, which works in floating point throughout.
- The chaos engine, command line, RPC and network code.
