/**
 * The older revision's miner: it takes the pending transactions, puts a
 * coinbase in front, and tries nonces in order until a block's hash, read as
 * a 256-bit number, is below the target `MAX >> difficulty`.
 */
module Mining {
  import opened Types
  import opened Hash
  import opened Blocks
  import opened Ledger
  import Chain

  /** `create_target`: the mask `MAX >> difficulty` (nothing is left after 256 bits). */
  function CreateTarget(difficulty: nat): (t: nat)
    ensures difficulty <= HashBits ==> t == Pow2(HashBits - difficulty) - 1
    ensures difficulty > HashBits ==> t == 0
  {
    ShiftRightAllOnes(HashBits, difficulty);
    ShiftRight(MaxHashValue(), difficulty)
  }

  /** `must_stop_mining`: a limit of 0 means no limit. */
  function MustStopMining(maxBlocks: nat, blockCounter: nat): (stop: bool)
    ensures maxBlocks == 0 ==> !stop
    ensures maxBlocks > 0 ==> (stop <==> blockCounter >= maxBlocks)
  {
    maxBlocks > 0 && blockCounter >= maxBlocks
  }

  /**
   * `create_coinbase_transaction` (in both revisions): the subsidy, from the
   * default address to the miner.
   */
  function CreateCoinbaseTransaction(minerAddress: Address): (t: Transaction)
    ensures t.sender == NullAddress && t.recipient == minerAddress && t.amount == BlockSubsidy
  {
    Transaction(NullAddress, minerAddress, BlockSubsidy)
  }

  /** The older chain accepts this coinbase and credits the miner with the subsidy. */
  lemma CoinbaseAccepted(m: Balances, minerAddress: Address)
    ensures Chain.ProcessCoinbase(m, Some(CreateCoinbaseTransaction(minerAddress))).Ok?
    ensures Balance(Chain.ProcessCoinbase(m, Some(CreateCoinbaseTransaction(minerAddress))).value, minerAddress)
            == Balance(m, minerAddress) + BlockSubsidy
  {
  }

  /** `create_next_block`: extends `last` with the given transactions and nonce, sealed at time `now`. */
  function CreateNextBlock(last: Block, transactions: seq<Transaction>, nonce: nat, now: int): (b: Block)
    ensures b.index == last.index + 1 && b.previousHash == last.hash
    ensures b.nonce == nonce && b.transactions == transactions && b.timestamp == now
    ensures IsSealed(b)
  {
    NewBlock(last.index + 1, nonce, last.hash, transactions, now)
  }

  /**
   * A block the miner accepts passes every header check of `add_block` for
   * any chain difficulty up to the miner's: the hash is below `MAX >> d`,
   * so it has at least d leading zero bits.
   */
  lemma MinedBlockPassesHeader(last: Block, b: Block, minerDifficulty: nat, chainDifficulty: nat)
    requires b.index == last.index + 1 && b.previousHash == last.hash && IsSealed(b)
    requires chainDifficulty <= minerDifficulty
    ensures HashValue(b.hash) < CreateTarget(minerDifficulty) ==> Chain.CheckHeader(last, chainDifficulty, b) == None
  {
    if minerDifficulty <= HashBits {
      LeadingZerosMatchMask(b.hash, minerDifficulty);
    }
  }

  /**
   * The older chain can refuse a block the miner accepted only for a
   * transfer that is not covered: the header passes and the coinbase is
   * the subsidy.
   */
  lemma MinedBlockRefusedOnlyForFunds(last: Block, balances: Balances, b: Block,
                                      minerDifficulty: nat, chainDifficulty: nat, minerAddress: Address)
    requires b.index == last.index + 1 && b.previousHash == last.hash && IsSealed(b)
    requires |b.transactions| > 0 && b.transactions[0] == CreateCoinbaseTransaction(minerAddress)
    requires HashValue(b.hash) < CreateTarget(minerDifficulty)
    requires chainDifficulty <= minerDifficulty
    ensures Chain.Admit(last, balances, chainDifficulty, b).Err? ==>
      Chain.Admit(last, balances, chainDifficulty, b).error == InsufficientFunds
  {
    MinedBlockPassesHeader(last, b, minerDifficulty, chainDifficulty);
    assert Chain.Admit(last, balances, chainDifficulty, b) == Chain.NewAccountBalances(balances, b.transactions);
    Chain.RefusedOnlyForFunds(balances, b.transactions);
  }

  /** Why one round of `start` ended with an error. */
  datatype MinerError =
    | BlockNotMined(index: nat)
    | AddFailed(error: ChainError)

  /** How one round of `start` ended. */
  datatype Round =
    | Stopped                          // the block limit is reached: `start` returns Ok
    | Idle                             // no pending transactions: sleep and go round again
    | Added(counter: nat, block: Block)
    | Failed(error: MinerError)        // `start` returns this error

  /** The older revision's miner. */
  class Miner {
    const minerAddress: Address
    const maxBlocks: nat
    const maxNonce: nat
    const txWaitingMs: nat
    const blockchain: Chain.Blockchain
    const target: nat
    /** The difficulty the target was made from; the source keeps only the target. */
    ghost const difficulty: nat

    /** The target is the mask for the difficulty. */
    ghost predicate Valid()
    {
      target == CreateTarget(difficulty)
    }

    /** `Miner::new`. */
    constructor (minerAddress: Address, maxBlocks: nat, maxNonce: nat, txWaitingMs: nat,
                 difficulty: nat, blockchain: Chain.Blockchain)
      ensures this.minerAddress == minerAddress && this.maxBlocks == maxBlocks
      ensures this.maxNonce == maxNonce && this.txWaitingMs == txWaitingMs
      ensures this.blockchain == blockchain && this.difficulty == difficulty
      ensures Valid()
    {
      this.minerAddress := minerAddress;
      this.maxBlocks := maxBlocks;
      this.maxNonce := maxNonce;
      this.txWaitingMs := txWaitingMs;
      this.blockchain := blockchain;
      this.difficulty := difficulty;
      target := CreateTarget(difficulty);
    }

    /**
     * The block tried with `nonce`: the coinbase, then the pending
     * transactions in order, timestamped by the clock at that trial.
     */
    function Trial(last: Block, transactions: seq<Transaction>, clock: nat -> int, nonce: nat): (b: Block)
      ensures b.transactions == [CreateCoinbaseTransaction(minerAddress)] + transactions
      ensures b.index == last.index + 1 && b.previousHash == last.hash && b.nonce == nonce
      ensures IsSealed(b)
    {
      CreateNextBlock(last, [CreateCoinbaseTransaction(minerAddress)] + transactions, nonce, clock(nonce))
    }

    /** The miner's test: the hash is strictly below the target. */
    predicate Passes(b: Block)
    {
      HashValue(b.hash) < target
    }

    /** No nonce below `maxNonce` gives a block that passes. */
    predicate NoTrialPasses(last: Block, transactions: seq<Transaction>, clock: nat -> int)
    {
      forall n: nat :: n < maxNonce ==> !Passes(Trial(last, transactions, clock, n))
    }

    /** `nonce` is below `maxNonce`, its trial passes, and no smaller nonce's trial does. */
    predicate FirstPass(last: Block, transactions: seq<Transaction>, clock: nat -> int, nonce: nat)
    {
      nonce < maxNonce && Passes(Trial(last, transactions, clock, nonce)) &&
      forall n: nat :: n < nonce ==> !Passes(Trial(last, transactions, clock, n))
    }

    /** The first passing trial exists, and the chain refuses it with `e`. */
    predicate MinedButRefused(last: Block, balances: Balances, chainDifficulty: nat,
                              transactions: seq<Transaction>, clock: nat -> int, e: ChainError)
    {
      exists nonce: nat :: nonce < maxNonce && FirstPass(last, transactions, clock, nonce) &&
        Chain.Admit(last, balances, chainDifficulty, Trial(last, transactions, clock, nonce)) == Err(e)
    }

    /**
     * `mine_block`: the first trial, in nonce order below `maxNonce`, that
     * passes the test, or nothing when none does.
     */
    method MineBlock(last: Block, transactions: seq<Transaction>, clock: nat -> int) returns (r: Option<Block>)
      ensures r.Some? ==>
        r.value.nonce < maxNonce && r.value == Trial(last, transactions, clock, r.value.nonce) && Passes(r.value)
      ensures r.Some? ==> forall n: nat :: n < r.value.nonce ==> !Passes(Trial(last, transactions, clock, n))
      ensures r.None? <==> NoTrialPasses(last, transactions, clock)
    {
      var blockTransactions := [CreateCoinbaseTransaction(minerAddress)] + transactions;
      var nonce: nat := 0;
      while nonce < maxNonce
        invariant nonce <= maxNonce
        invariant forall n: nat :: n < nonce ==> !Passes(Trial(last, transactions, clock, n))
      {
        var next := CreateNextBlock(last, blockTransactions, nonce, clock(nonce));
        if HashValue(next.hash) < target {
          return Some(next);
        }
        nonce := nonce + 1;
      }
      return None;
    }

    /**
     * One round of `start` with block counter `counter`, given the
     * transactions the pool hands over and the clock for each trial.
     */
    method StartRound(counter: nat, transactions: seq<Transaction>, clock: nat -> int) returns (round: Round)
      requires Valid() && blockchain.Valid()
      modifies blockchain
      ensures blockchain.Valid()
      ensures round.Stopped? <==> MustStopMining(maxBlocks, counter)
      ensures round.Idle? <==> !MustStopMining(maxBlocks, counter) && transactions == []
      ensures !MustStopMining(maxBlocks, counter) && transactions != [] ==>
        (round == Failed(BlockNotMined(old(blockchain.blocks)[|old(blockchain.blocks)| - 1].index + 1)) <==>
         NoTrialPasses(old(blockchain.blocks)[|old(blockchain.blocks)| - 1], transactions, clock))
      ensures round.Failed? && round.error.BlockNotMined? ==>
        round.error.index == old(blockchain.blocks)[|old(blockchain.blocks)| - 1].index + 1 &&
        NoTrialPasses(old(blockchain.blocks)[|old(blockchain.blocks)| - 1], transactions, clock)
      ensures !round.Added? ==>
        blockchain.blocks == old(blockchain.blocks) && blockchain.balances == old(blockchain.balances)
      ensures round.Added? ==>
        round.counter == counter + 1 &&
        round.block == Trial(old(blockchain.blocks)[|old(blockchain.blocks)| - 1], transactions, clock, round.block.nonce) &&
        FirstPass(old(blockchain.blocks)[|old(blockchain.blocks)| - 1], transactions, clock, round.block.nonce) &&
        blockchain.blocks == old(blockchain.blocks) + [round.block] &&
        Chain.Admit(old(blockchain.blocks)[|old(blockchain.blocks)| - 1], old(blockchain.balances),
                    blockchain.difficulty, round.block) == Ok(blockchain.balances)
      ensures round.Failed? && round.error.AddFailed? ==>
        MinedButRefused(old(blockchain.blocks)[|old(blockchain.blocks)| - 1], old(blockchain.balances),
                        blockchain.difficulty, transactions, clock, round.error.error)
      ensures round.Failed? && round.error.AddFailed? && blockchain.difficulty <= difficulty ==>
        round.error.error == InsufficientFunds
    {
      if MustStopMining(maxBlocks, counter) {
        return Stopped;
      }
      if transactions == [] {
        return Idle;
      }
      var last := blockchain.GetLastBlock();
      var mined := MineBlock(last, transactions, clock);
      match mined
      case None =>
        round := Failed(BlockNotMined(last.index + 1));
      case Some(b) =>
        assert FirstPass(last, transactions, clock, b.nonce);
        var added := blockchain.AddBlock(b);
        if added.Err? {
          if blockchain.difficulty <= difficulty {
            MinedBlockRefusedOnlyForFunds(last, old(blockchain.balances), b, difficulty,
                                          blockchain.difficulty, minerAddress);
          }
          round := Failed(AddFailed(added.error));
        } else {
          round := Added(counter + 1, b);
        }
    }
  }
}
