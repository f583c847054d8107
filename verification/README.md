# Consensus core of a small proof-of-work blockchain, in Dafny

This project models the consensus rules of the Rust blockchain
Dearmann/blockchain-rust and proves properties about them. The repository
holds two revisions of the same rules, and the model covers both.

- **The older revision** (`src/`) keeps a `Blockchain` of blocks and a
  balance map. `add_block` runs four header checks in order: the index, the
  previous hash, the recomputed hash, and the difficulty (leading zero bits of
  the hash). It then computes the new balances on a copy: first the coinbase,
  which must carry the 100-coin subsidy, then the transfers in list order. A
  block is appended only when all of this succeeds. The older miner tries
  nonces in order until a block's hash, read as a 256-bit number, is strictly
  below `MAX >> difficulty`.
- **The newer revision** (`spec/`, `node/`, `miner/`) keeps a `NodeDatabase`
  of blocks, balances and a mempool. `append_block` asks the validator,
  appends the block, and then applies the transactions one by one to the live
  balances. It prunes the mempool only when every transfer went through. The
  peer service pulls the blocks a peer has beyond the local tip and imports
  them in order. It also pushes the local blocks from a watermark on to every
  peer. The stand-alone mining loop asks the node for templates, puts its
  coinbase in front, reseals the template, mines it, and submits what it found.

The modules are:

| file | module | models |
|---|---|---|
| types.dfy | `Types` | bytes, addresses, coins, `Transaction`, `Network`, the chain errors |
| hash.dfy | `Hash` | `ConsensusHash`: the leading-zero count, the numeric reading, the base16 text form (section 8 of RFC 4648), the conversions |
| block.dfy | `Blocks` | `Block`, `calculate_hash`, `Block::new`, `Block::new_template` |
| ledger.dfy | `Ledger` | the balance store (`add_amount`/`add_funds`, `transfer`) and the sum of all balances |
| mempool.dfy | `Mempools` | `Mempool` |
| blockchain.dfy | `Chain` | the older `Blockchain` |
| node_database.dfy | `NodeDatabases` | the newer `NodeDatabase` |
| miner.dfy | `Mining` | the older `Miner` |
| mining_loop.dfy | `MiningLoop` | the newer `run_mining_loop` |
| peer.dfy | `Peers` | the newer `Peer` |

State that the source changes in place is modelled as classes: `Mempool`,
`Blockchain`, `NodeDatabase`, `Miner` and `Peer`. Their methods are proved
against specification functions such as `RemoveConfirmed`, `Admit`,
`AppendBlockSpec`, `ImportBlocks` and `ReceiveAll`, and the lemmas state what
the source promises about those functions.

The two revisions use different names for the same things. The model picks
one name per concept:

- The recipient field is called `reciever` in `spec/src/types/transaction.rs`
  and `node/src/database.rs`, and `recipient` in `src/miner.rs` and
  `miner/src/mining_loop.rs`. The model uses `recipient`.
- The node client offers `get_template_block`/`send_block`, but the mining
  loop calls `get_block_template`/`submit_block`. The model has neither call:
  the loop is given the templates in order and a function that mines.
- `max_blocks` is read in `miner/src/mining_loop.rs` but is not declared in
  `miner/src/cli.rs`. The model keeps it as a field of `MinerArgs`.

Behaviour that the code has and the model keeps:

- **The miner is stricter than the chain.** The older miner accepts a hash
  strictly below `MAX >> d`. `add_block` accepts at least `d` leading zero
  bits. For d ≤ 256 that is the same as a value at most `MAX >> d`
  (`Hash.LeadingZerosMatchMask`). For d > 256 it is not: the mask is 0, but
  no hash has more than 256 leading zero bits. So when the chain's
  difficulty is at most the miner's, every mined block passes the header
  checks (`Mining.MinedBlockPassesHeader`). Under that same condition, the
  only reason the chain can still refuse it is an uncovered transfer
  (`Mining.MinedBlockRefusedOnlyForFunds`).
- **A shift of 256 bits or more leaves 0.** For a difficulty above 256 the
  target is 0, and the miner finds nothing.
- **Appending in the newer revision is not atomic.** The block is appended
  before its transfers run. Suppose `validate_block` accepts a block with a
  transfer that is not covered. Then the block stays on the chain and the
  earlier transfers stay applied (`NodeDatabases.FailedTransferKeepsBlock`,
  with a worked instance in `NodeDatabases.AppendNotAtomic`). Whether
  `validate_block` lets such a block through is not part of this model.
  The older revision refuses the same transactions outright.
- **An empty transaction list makes `process_transactions` panic** at
  `unwrap`, if `validate_block` accepted such a block. This happens after
  the block was appended. The model returns the
  error `MissingCoinbase` at that point and keeps the appended block.
- **The coinbase sender is not checked** by the older `add_block`.
  `process_transactions` in the newer revision checks neither the coinbase
  sender nor its amount. It credits whatever the first transaction names.
  Whether `validate_block`, which runs first, checks them is not part of
  this model.
- **The watermark block is sent again.** `get_new_blocks_since(Some(i))`
  skips `i` blocks. The watermark is the index of the last block selected,
  which was sent to at least the first peer, whether or not the other sends
  succeeded.
  On a chain indexed by position, the next round therefore starts with that
  same block again (`Peers.WatermarkResendsLastBlock`).
- **Peer blocks are sliced by position, not by their `index` field**
  (`Peers.PositionNotIndex`).
- **The older miner reads the clock for every nonce.** So each trial has its
  own timestamp (`Mining.Miner.Trial`).

`InsufficientFunds` is not one of the `BlockchainError` variants. It stands
for the error that the balance store's `transfer` returns. That store is not
part of this model; the comments at `src/model/blockchain.rs:141` and
`:194-196` describe it.

## Model

| member | source | states |
|---|---|---|
| Hash.ZeroBytes | spec/src/types/hash.rs:22-24 | the default hash is 32 zero bytes |
| Hash.ByteLeadingZeros | spec/src/types/hash.rs:39 | `u8::leading_zeros`: r ≤ 8, b < 2^(8−r), and b ≥ 2^(7−r) when r < 8, which pins r down |
| Hash.LeadingZeros | spec/src/types/hash.rs:36-47 | the byte loop with its early break returns the leading zero bits of the hash and at most 256 |
| Hash.LeadingZeroBitsClosedForm | spec/src/types/hash.rs:36-47 | with k leading zero bytes the count is 8k plus the leading zeros of byte k, so counting stops at the first non-zero byte |
| Hash.DefaultHashLeadingZeros | spec/src/types/hash.rs:22-47 | the all-zero default hash has 256 leading zero bits |
| Hash.LeadingZeroBitsAtMost | spec/src/types/hash.rs:36-47 | no byte string has more leading zero bits than it has bits |
| Hash.LeadingZeroBitsBelow | spec/src/types/hash.rs:36-47 | at least d leading zero bits exactly when the big-endian value is below 2^(8n−d) |
| Hash.BigEndianBound | src/miner.rs:119 | the numeric reading of n bytes is below 2^(8n) |
| Hash.HashValue | src/miner.rs:119 | the hash as an unsigned 256-bit number is below 2^256 |
| Hash.ShiftRightAllOnes | src/miner.rs:97 | shifting n one-bits right by d leaves 2^(n−d)−1, or 0 when d > n |
| Hash.LeadingZerosMatchMask | spec/src/types/hash.rs:36-47 | for d ≤ 256, `leading_zeros(h) >= d` exactly when h ≤ `MAX >> d` |
| Hash.FromBytes | spec/src/types/hash.rs:50-60 | a byte vector converts exactly when it has 32 bytes, which are kept unchanged; otherwise `InvalidLength` |
| Hash.LowerHexDigit | spec/src/types/hash.rs:89 | the digit written for a value below 16 is a lowercase base16 digit |
| Hash.HexDigitValue | spec/src/types/hash.rs:66 | a base16 digit has a value below 16 |
| Hash.DecodePairs | spec/src/types/hash.rs:66 | decoded digit pairs give half as many bytes as there are characters |
| Hash.DecodePairsDefined | spec/src/types/hash.rs:66 | pairs decode exactly when every character is a base16 digit |
| Hash.HexDecode | spec/src/types/hash.rs:66 | `hex::decode` succeeds exactly on even-length base16 text and halves its length |
| Hash.HexEncode | spec/src/types/hash.rs:89 | `hex::encode` writes two characters per byte |
| Hash.HexEncodeDigits | spec/src/types/hash.rs:89 | byte i is written at positions 2i and 2i+1, high nibble first, in lowercase |
| Hash.ToStringShape | spec/src/types/hash.rs:87-91 | `Display` gives 64 lowercase digits, two per byte in byte order |
| Hash.ToString | spec/src/types/hash.rs:81-91 | the text form of a hash; its shape is stated by `ToStringShape` and its inverse by `RoundTrip` and `RoundTripText` |
| Hash.FromString | spec/src/types/hash.rs:62-79 | parsing a hash; its outcomes are stated by `FromStringOutcome`, and it inverts `ToString` by `RoundTrip` |
| Hash.FromStringOutcome | spec/src/types/hash.rs:62-79 | text that is not base16 gives `InvalidFormat`; base16 of the wrong length gives `InvalidLength`; otherwise the decoded bytes |
| Hash.DecodeEncode | spec/src/types/hash.rs:62-91 | decoding the encoding of any bytes gives them back |
| Hash.EncodeDecode | spec/src/types/hash.rs:62-91 | lowercase base16 text decodes, and encoding the result gives the same text |
| Hash.RoundTrip | spec/src/types/hash.rs:73-91 | `from_str(h.to_string()) == Ok(h)`; serde uses the same string form |
| Hash.RoundTripText | spec/src/types/hash.rs:62-91 | 64 lowercase digits parse to a hash whose text is the same 64 digits |
| Blocks.CalculateHashIgnoresHash | spec/src/types/block.rs:60-65 | two blocks that differ only in `hash` have the same `calculate_hash` |
| Blocks.CalculateHash | spec/src/types/block.rs:60-65 | the digest of the block with its hash field reset; `CalculateHashIgnoresHash` and `Seal` state its properties |
| Blocks.NetworkHash | spec/src/types/block.rs:49 | the network's digest, used as the genesis template's previous hash; stated by `NewTemplate` |
| Blocks.Seal | spec/src/types/block.rs:38 | setting `hash := calculate_hash()` seals the block and changes no other field |
| Blocks.NewBlock | spec/src/types/block.rs:24-41 | `Block::new` keeps index, nonce, previous hash and transactions as given, takes the clock's time, and is sealed |
| Blocks.NewTemplate | spec/src/types/block.rs:43-57 | with a tip: index tip+1 and the tip's hash; without one: index 0 and the network's digest; nonce 0, the mempool snapshot in order, sealed |
| Ledger.AddAmount | src/model/blockchain.rs:185 | crediting raises the account by the amount; a missing account counts as 0 |
| Ledger.AddAmountOthers | src/model/blockchain.rs:185 | crediting leaves every other account unchanged |
| Ledger.Transfer | src/model/blockchain.rs:194-198 | refused with `InsufficientFunds` exactly when the sender holds less than the amount; otherwise the sender is debited and the recipient credited (no change when they are the same account) |
| Ledger.TransferOthers | src/model/blockchain.rs:198 | a transfer touches only the sender's and the recipient's accounts |
| Ledger.TotalAddAmount | src/model/blockchain.rs:185 | crediting adds exactly the amount to the sum of all balances |
| Ledger.TotalTransfer | src/model/blockchain.rs:198 | a transfer keeps the sum of all balances |
| Ledger.TransferRun | src/model/blockchain.rs:190-202 | transfers in order up to the first failure; `TransferRunConserves`, `TransferRunStopsAtFirstFailure` and `SameSenderRun` state its properties, and `Chain.ProcessTransfers` is proved equal to it |
| Ledger.TransferRunConserves | src/model/blockchain.rs:197-199 | transfers in order, up to the first failure, keep the sum of all balances |
| Ledger.TransferRunStopsAtFirstFailure | src/model/blockchain.rs:197-199 | a failed run fails with `InsufficientFunds` at a transfer k that is not covered by the balances the first k transfers left |
| Ledger.SameSenderRun | src/model/blockchain.rs:194-199 | several transfers from one sender, each to an account other than the sender, go through exactly when their sum is covered, and the sender then loses that sum |
| Mempools.RemoveConfirmed | node/src/database/mempool.rs:20-23 | the survivors are exactly the entries equal to no confirmed transaction, and the pool never grows |
| Mempools.RemoveConfirmedConcat | node/src/database/mempool.rs:22 | removal works piece by piece, so survivors keep their relative order |
| Mempools.RemoveConfirmedCount | node/src/database/mempool.rs:20-23 | every copy of a confirmed transaction goes; every other transaction keeps all its copies |
| Mempools.RemoveConfirmedTwice | node/src/database/mempool.rs:22 | removing c1 and then c2 is removing c1 + c2 |
| Mempools.RemoveConfirmedIdempotent | node/src/database/mempool.rs:22 | removing the same transactions again changes nothing |
| Mempools.RemoveConfirmedSameElements | node/src/database/mempool.rs:22 | only which transactions are confirmed matters, not their order or repetition |
| Mempools.RemoveNothing | node/src/database/mempool.rs:22 | removing an empty list changes nothing |
| Mempools.Mempool.constructor | node/src/database/mempool.rs:4-7 | the default mempool is empty |
| Mempools.Mempool.GetTransactions | node/src/database/mempool.rs:10-12 | returns the pending list in insertion order and changes nothing |
| Mempools.Mempool.AddTransaction | node/src/database/mempool.rs:15-18 | appends at the end and keeps the earlier entries |
| Mempools.Mempool.RemoveTransactions | node/src/database/mempool.rs:20-23 | the `retain` loop leaves exactly `RemoveConfirmed(old pool, confirmed)` |
| Chain.CreateGenesisBlock | src/model/blockchain.rs:69-83 | index 0, nonce 0, default previous hash, no transactions, timestamp 0, sealed |
| Chain.GenesisIgnoresClock | src/model/blockchain.rs:77-80 | the genesis block is the same whenever it is created |
| Chain.CheckHeader | src/model/blockchain.rs:110-128 | each of the four header errors is reported exactly when its check is the first to fail, and no error exactly when all pass |
| Chain.ProcessCoinbase | src/model/blockchain.rs:167-188 | no coinbase gives `CoinbaseTransactionNotFound`; an amount other than 100 gives `InvalidCoinbaseAmount`; otherwise only the recipient is credited 100 and the total grows by 100 |
| Chain.NewAccountBalancesOutcome | src/model/blockchain.rs:149-165 | an accepted list had a 100-coin coinbase and adds exactly 100 coins; a refused one names a coinbase or funds error; the empty list and a wrong amount give their errors |
| Chain.RefusedOnlyForFunds | src/model/blockchain.rs:149-165 | with a correct coinbase, only `InsufficientFunds` can refuse a list |
| Chain.NewAccountBalances | src/model/blockchain.rs:149-165 | the coinbase and then the transfers; stated by `NewAccountBalancesOutcome` and `RefusedOnlyForFunds`, and `CalculateNewAccountBalances` is proved equal to it |
| Chain.Admit | src/model/blockchain.rs:102-131 | the header checks and then the new balances; `AdmitKeepsValid`, `ResubmitRejected` and `Mining.MinedBlockRefusedOnlyForFunds` state its properties, and `Blockchain.AddBlock` follows it |
| Chain.ProcessTransfers | src/model/blockchain.rs:190-202 | the transfer loop returns the first failure, or the balances after all transfers in order |
| Chain.CalculateNewAccountBalances | src/model/blockchain.rs:149-165 | coinbase then transfers, on a copy: the result is the specified new balances or the first error |
| Chain.ReplayTotal | src/model/blockchain.rs:130-134 | the balances of a chain of n accepted blocks hold exactly 100·n coins |
| Chain.ValidChainIndices | src/model/blockchain.rs:110-113 | in a valid chain every block's index is its position |
| Chain.ResubmitRejected | src/model/blockchain.rs:111-113 | re-submitting any block already on the chain fails with `InvalidIndex` |
| Chain.AdmitKeepsValid | src/model/blockchain.rs:102-137 | appending an accepted block keeps the chain valid, and its replay gives the new balances |
| Chain.Blockchain.constructor | src/model/blockchain.rs:54-67 | a new chain holds only the genesis block and no balances, and is valid |
| Chain.Blockchain.GetLastBlock | src/model/blockchain.rs:86-90 | returns the last block, whose index is the chain length minus one |
| Chain.Blockchain.GetAllBlocks | src/model/blockchain.rs:93-97 | returns every block; each block's index is its position |
| Chain.Blockchain.UpdateAccountBalances | src/model/blockchain.rs:139-147 | the balances are replaced only when every transaction is accepted; otherwise they stay as they were |
| Chain.Blockchain.AddBlock | src/model/blockchain.rs:102-137 | a refused block changes neither blocks nor balances and returns the first error; an accepted one is appended with the new balances; the chain stays valid and holds 100 coins per non-genesis block |
| NodeDatabases.ProcessTransactionsSpec | node/src/database.rs:98-108 | an empty transaction list fails (the panic) and changes no balance; what a non-empty list does is stated by `ProcessTransactionsOutcome`, `AgreesWithOlderRevision` and `FailedTransferKeepsBlock` |
| NodeDatabases.ProcessTransactionsOutcome | node/src/database.rs:98-108 | the coinbase amount is added to the total whatever happens; a failure is an uncovered transfer |
| NodeDatabases.AppendBlockSpec | node/src/database.rs:83-96 | a refused block changes nothing; a valid one is appended and its transactions applied even if a transfer fails; the mempool is pruned only on success |
| NodeDatabases.AppendPrunesMempool | node/src/database.rs:93 | after a successful append no pending transaction equals one of the block's, and every other pending transaction stays |
| NodeDatabases.AgreesWithOlderRevision | node/src/database.rs:98-108 | where the older revision accepts a transaction list, the newer one applies it to the same balances |
| NodeDatabases.FailedTransferKeepsBlock | node/src/database.rs:83-96 | for any block the validator accepts with an uncovered transfer: the block stays appended, the coinbase and the earlier transfers stay applied, the result is `InsufficientFunds` and the mempool is kept |
| NodeDatabases.AppendNotAtomic | node/src/database.rs:87-90 | an example: coinbase of 100, then two transfers of 60 from the miner. The block is appended with the coinbase and the first transfer applied, where the older revision refuses the whole list |
| NodeDatabases.NodeDatabase.constructor | node/src/database.rs:74-81 | no blocks, no balances, an empty mempool |
| NodeDatabases.NodeDatabase.GetNetwork | node/src/database.rs:120-122 | returns the network |
| NodeDatabases.NodeDatabase.GetAllBlocks | node/src/database.rs:124-126 | returns every block in order |
| NodeDatabases.NodeDatabase.GetTipBlock | node/src/database.rs:128-130 | nothing exactly when there are no blocks, otherwise the last block |
| NodeDatabases.NodeDatabase.GetAccountBalance | node/src/database.rs:132-134 | nothing exactly for an unknown account, otherwise its balance |
| NodeDatabases.NodeDatabase.GetMempoolTransactions | node/src/database.rs:136-138 | the pending transactions in order |
| NodeDatabases.NodeDatabase.ProcessTransactions | node/src/database.rs:98-108 | the in-place loop leaves the balances and result of `ProcessTransactionsSpec` |
| NodeDatabases.NodeDatabase.AppendBlock | node/src/database.rs:83-96 | validate, append, apply, prune: the new state and result are `AppendBlockSpec`'s |
| NodeDatabases.NodeDatabase.AddTransaction | node/src/database.rs:110-115 | a refused transaction leaves the mempool unchanged; an accepted one is appended at the end |
| Mining.CreateTarget | src/miner.rs:96-98 | `MAX >> d` is 2^(256−d)−1, or 0 for d > 256 |
| Mining.MustStopMining | src/miner.rs:101-103 | stop exactly when there is a limit and the counter has reached it; `MiningLoop.KeepMiningIsNotStopping` relates it to the newer rule, and `Mining.Miner.StartRound` uses it |
| Mining.CreateCoinbaseTransaction | src/miner.rs:142-148 | default sender, the miner as recipient, 100 coins |
| Mining.CoinbaseAccepted | src/miner.rs:142-148 | the older chain accepts this coinbase and credits the miner 100 coins |
| Mining.CreateNextBlock | src/miner.rs:129-140 | index last+1, the last block's hash, the given nonce, transactions and time, sealed |
| Mining.MinedBlockPassesHeader | src/miner.rs:117-120 | a sealed successor whose hash is below the miner's target passes all header checks for any chain difficulty up to the miner's |
| Mining.MinedBlockRefusedOnlyForFunds | src/miner.rs:78-83 | when the chain's difficulty is at most the miner's, the chain can refuse a mined block carrying the miner's coinbase only with `InsufficientFunds` |
| Mining.Miner.constructor | src/miner.rs:37-49 | keeps the settings, and the target is `MAX >> difficulty` |
| Mining.Miner.Trial | src/miner.rs:108-115 | the trial for a nonce: the coinbase then the pool transactions in order, extending the last block, sealed |
| Mining.Miner.MineBlock | src/miner.rs:108-125 | a result is the first nonce below `max_nonce` whose block is below the target; nothing exactly when no nonce works |
| Mining.Miner.StartRound | src/miner.rs:53-91 | one round of `start`: `Stopped` exactly at the block limit; `Idle` exactly when there are no transactions; `BlockNotMined(last+1)` exactly when no nonce below `max_nonce` passes; otherwise the first passing trial goes to `add_block`. If the chain accepts it, it is appended with the balances `Admit` gives. If the chain refuses it, the round fails with the chain's error for that trial, which is `InsufficientFunds` when the chain's difficulty is at most the miner's. Every outcome except an added block leaves the chain unchanged, and the chain stays valid |
| MiningLoop.ShouldKeepMining | miner/src/mining_loop.rs:50-55 | always without a limit, otherwise exactly while below it; `KeepMiningIsNotStopping` and `SubmissionsCount` state its effect |
| MiningLoop.KeepMiningIsNotStopping | miner/src/mining_loop.rs:50-55 | the newer keep-mining rule is the negation of the older stop rule |
| MiningLoop.WithCoinbase | miner/src/mining_loop.rs:22-25 | the coinbase goes to position 0 ahead of the template's transactions, the block is resealed, and nothing else changes |
| MiningLoop.SubmissionsCount | miner/src/mining_loop.rs:12-39 | one submission per successful cycle, up to the limit |
| MiningLoop.EmptyTemplatesSubmitNothing | miner/src/mining_loop.rs:17-20 | templates without transactions are never mined or submitted |
| MiningLoop.Submissions | miner/src/mining_loop.rs:9-40 | the blocks the loop submits; `SubmissionsCount` and `EmptyTemplatesSubmitNothing` state its properties, and `RunMiningLoop` is proved equal to it |
| MiningLoop.RunMiningLoop | miner/src/mining_loop.rs:9-40 | the loop submits exactly the specified blocks, counts each one, never passes the limit, and stops early only at the limit |
| Peers.Tip | node/src/peer.rs:81-84 | the last block, or nothing when there are none; `NewBlocksFromIndexedPeer` and `ImportAppendsPrefix` state what is fetched against it |
| Peers.NextIndex | node/src/peer.rs:81-84 | tip index + 1, or 0 without a tip; `NewBlocksFromIndexedPeer` shows it is where the fetched blocks start |
| Peers.NewBlocksFromPeer | node/src/peer.rs:80-103 | nothing for an empty list, a peer behind the tip, or an out-of-range slice; otherwise positions next..=last of the peer's list |
| Peers.NewBlocksFromIndexedPeer | node/src/peer.rs:96-102 | from a peer indexed by position, exactly its blocks beyond the local tip, in order |
| Peers.PositionNotIndex | node/src/peer.rs:96-102 | a peer sending only blocks 3 and 4 to an empty node yields nothing |
| Peers.GetNewBlocksSince | node/src/peer.rs:142-149 | all blocks, or those from position i on, or none past the end |
| Peers.NextWatermark | node/src/peer.rs:139 | the index of the last block selected, or nothing when none was |
| Peers.WatermarkResendsLastBlock | node/src/peer.rs:139-149 | the next round sends the last block again, followed by the blocks appended since |
| Peers.PeerAttempts | node/src/peer.rs:126-136 | one block is sent to at most every peer |
| Peers.PeerAttemptsInOrder | node/src/peer.rs:126-136 | the j-th send of a block goes to the j-th peer |
| Peers.PeerAttemptsReach | node/src/peer.rs:126-136 | peer j is tried exactly when the sends to all peers before it succeeded |
| Peers.EveryBlockReachesFirstPeer | node/src/peer.rs:125-137 | a failed send never keeps a later block from the first peer |
| Peers.SendRound | node/src/peer.rs:125-137 | the sends of every selected block in order; `EveryBlockReachesFirstPeer` states its property |
| Peers.ImportAppendsPrefix | node/src/peer.rs:66-78 | importing keeps every block held and appends a prefix of the offered blocks, in order |
| Peers.ImportBlocks | node/src/peer.rs:66-78 | the blocks appended in order up to the first refusal; `ImportAppendsPrefix` states its property |
| Peers.ReceiveAll | node/src/peer.rs:56-64 | pulling from every peer in turn; each step is `ImportBlocks` and so keeps the prefix of `ImportAppendsPrefix` |
| Peers.Peer.constructor | node/src/peer.rs:27-33 | keeps the peers, the interval and the database |
| Peers.Peer.AddNewBlocks | node/src/peer.rs:66-78 | appends in order and stops after the first refusal, as `ImportBlocks` |
| Peers.Peer.ReceiveFromPeer | node/src/peer.rs:57-62 | imports from one peer what it has beyond the current tip |
| Peers.Peer.TryReceiveNewBlocks | node/src/peer.rs:56-64 | each peer in turn, against the tip left by the peers before it, as `ReceiveAll` |
| Peers.Peer.SendToPeers | node/src/peer.rs:126-136 | one block to each peer in order until a send fails, as `PeerAttempts` |
| Peers.Peer.TrySendNewBlocksSince | node/src/peer.rs:122-140 | the sends of every selected block in order, and the new watermark |
| Peers.Peer.SyncCycle | node/src/peer.rs:47-49 | one pass of `start`: pull from every peer, then push from the watermark on |

## Left out

- Integer widths: indices, nonces, amounts and counters are `u64`, and the
  difficulty and leading-zero count are `u32`. The model uses unbounded
  naturals, so overflow in `tip.index + 1`, in `add_amount` or in the block
  counters is not modelled.
- Ledger.AddAmount: the balance store (`AccountBalanceMap`, `AccountDatabase`)
  is not part of this model. It is a map in which a missing account holds
  0, and a `u64` overflow when crediting is not modelled.
- Ledger.Transfer: the store's `transfer` is given the behaviour its callers'
  comments describe: refusal on insufficient funds, otherwise a debit and a
  credit.
- SHA3-256 and bincode inside `ConsensusHash::digest` are an uninterpreted
  deterministic function (`Hash.Digest`) over uninterpreted encodings
  (`Blocks.EncodeBlock`, `Blocks.EncodeNetwork`). Nothing about collisions
  is assumed.
- The wall clock (`Utc::now`) is a parameter: `now` for `Block::new`, and
  for the older miner a function from nonce to time, read once per trial.
- Locks: `Arc<Mutex>` in the older chain and `Arc<RwLock>` in
  `ConcurrentNodeDatabase`. Each public operation is one sequential method,
  and the concurrent wrappers are the plain methods they delegate to.
- A panic while a lock is held poisons it in the source. The model has no
  locks; the `unwrap` panic on an empty transaction list is the error
  `MissingCoinbase`.
- `validate_block` and `validate_transaction` are not part of this model.
  They are verdicts (`NodeDatabase.validateBlock`, `validateTransaction`)
  on the state the database exposes.
- `BlockDatabase` is a sequence of blocks. `TransactionPool::pop` is the
  list of transactions handed to `Mining.Miner.StartRound`.
- `block_miner::mine_block` is a parameter of `MiningLoop.RunMiningLoop`.
  The node client (HTTP, `node_client.rs`) is the finite sequence of
  templates the node hands out plus the list of submitted blocks.
- MiningLoop.RunMiningLoop: the source loops forever while it should keep
  mining and sleeps ten seconds after an empty template. The model stops
  when the given templates run out, and leaves the sleep out.
- Mining.Miner.StartRound: one iteration of `start`'s endless loop. The
  sleep after an empty pool is the result `Idle`. Its guarantee that a
  refusal is `InsufficientFunds` holds only when the chain's difficulty is
  at most the miner's, because the two are set separately.
- Peers.Peer.SyncCycle: one iteration of `start`'s endless loop, without
  the sleep. The early exit of `start` when no peers are configured is not
  modelled.
- HTTP: `get_blocks_from_peer` is the parameter `fetch`, and
  `send_block_to_peer` under `catch_unwind` is the parameter `send`, which
  says whether the send completed without a panic. A failed fetch is the
  empty list, as in the source. The node's HTTP API (`api.rs`, which answers
  every error with status 400), the process start-up, the CLI parsing and
  the logging are not part of this model.
- Transaction.rs and network.rs give plain datatypes only. The network's
  fields are `difficulty` and `timestamp`. In the model, the newer revision
  reads them only through their digest (`Blocks.NetworkHash`, for the
  genesis template). `get_network` also exposes them to the validators,
  and what the validators do with them is not part of this model.
- The older revision's `Block`, its `calculate_hash`, and `BlockHash` (a
  U256 compared with `<`, shifted with `>>`, and counted with
  `leading_zeros()`) are not part of this model. They are modelled by the
  newer `Block` and `calculate_hash`, and by `ConsensusHash` read as a
  big-endian 256-bit number (`Hash.HashValue`). This assumes that the older
  hash has the same 32-byte big-endian layout and the same field set.
- Mining.Miner.StartRound: the transactions are a parameter of the round.
  In the source, `start` takes them out of the pool with `pop`. When no
  nonce works (`BlockNotMined`), or when `add_block` refuses the mined
  block, `start` returns and those transactions are lost. The model does
  not show that loss, because the pool is not part of it.
- `Miner::tx_waiting_ms` is kept as a field, but the sleep that uses it is
  not modelled.
