/**
 * The newer revision's node state: blocks, account balances and the mempool,
 * changed by `append_block` and `add_transaction`. Unlike the older chain,
 * a validated block is appended before its transactions are applied, and the
 * transactions are applied to the live balances one by one.
 */
module NodeDatabases {
  import opened Types
  import opened Blocks
  import opened Ledger
  import opened Mempools
  import Chain

  /** A snapshot of everything the validators may look at. */
  datatype NodeState = NodeState(blocks: seq<Block>, accounts: Balances, mempool: seq<Transaction>)

  /** Why `append_block` or `add_transaction` did not complete. */
  datatype NodeError =
    | Rejected                     // the validator refused the block or transaction
    | MissingCoinbase              // `unwrap` on an empty transaction list: a panic
    | TransferFailed(error: ChainError)

  /** The state after applying a block's transactions, and whether all of them went through. */
  datatype Processed = Processed(accounts: Balances, outcome: Result<(), NodeError>)

  /**
   * `process_transactions`: credit the first transaction's recipient with its
   * amount (no subsidy check), then apply the rest as transfers until one
   * fails; the transfers before the failing one stay applied.
   */
  function ProcessTransactionsSpec(m: Balances, txs: seq<Transaction>): (p: Processed)
    ensures |txs| == 0 ==> p == Processed(m, Err(MissingCoinbase))
  {
    if |txs| == 0 then Processed(m, Err(MissingCoinbase))
    else
      var run := TransferRun(AddAmount(m, txs[0].recipient, txs[0].amount), txs[1..]);
      if run.failure.Some? then Processed(run.balances, Err(TransferFailed(run.failure.value)))
      else Processed(run.balances, Ok(()))
  }

  /**
   * Whether or not every transfer goes through, the coins on the accounts
   * grow by exactly the coinbase amount, and a failing transfer is one that
   * is not covered.
   */
  lemma ProcessTransactionsOutcome(m: Balances, txs: seq<Transaction>)
    requires |txs| > 0
    ensures Total(ProcessTransactionsSpec(m, txs).accounts) == Total(m) + txs[0].amount
    ensures ProcessTransactionsSpec(m, txs).outcome.Err? ==>
      ProcessTransactionsSpec(m, txs).outcome == Err(TransferFailed(InsufficientFunds))
  {
    var credited := AddAmount(m, txs[0].recipient, txs[0].amount);
    TotalAddAmount(m, txs[0].recipient, txs[0].amount);
    TransferRunConserves(credited, txs[1..]);
    if TransferRun(credited, txs[1..]).failure.Some? {
      TransferRunStopsAtFirstFailure(credited, txs[1..]);
    }
  }

  /** The state after `append_block` and its result. */
  datatype Appended = Appended(state: NodeState, outcome: Result<(), NodeError>)

  /**
   * `append_block`, given the validator's verdict `valid` on the current
   * state: refuse, or append the block, apply its transactions, and prune
   * the mempool only when every transaction went through.
   */
  function AppendBlockSpec(s: NodeState, valid: bool, b: Block): (a: Appended)
    ensures !valid ==> a == Appended(s, Err(Rejected))
    ensures valid ==> a.state.blocks == s.blocks + [b]
    ensures valid ==> a.state.accounts == ProcessTransactionsSpec(s.accounts, b.transactions).accounts
    ensures a.outcome.Err? ==> a.state.mempool == s.mempool
    ensures a.outcome.Ok? ==> a.state.mempool == RemoveConfirmed(s.mempool, b.transactions)
  {
    if !valid then Appended(s, Err(Rejected))
    else
      var p := ProcessTransactionsSpec(s.accounts, b.transactions);
      var appended := NodeState(s.blocks + [b], p.accounts, s.mempool);
      if p.outcome.Err? then Appended(appended, p.outcome)
      else Appended(appended.(mempool := RemoveConfirmed(s.mempool, b.transactions)), Ok(()))
  }

  /**
   * After a successful append no pending transaction equals one of the
   * block's, and the rest of the mempool keeps its order.
   */
  lemma AppendPrunesMempool(s: NodeState, valid: bool, b: Block)
    requires AppendBlockSpec(s, valid, b).outcome.Ok?
    ensures forall t :: t in AppendBlockSpec(s, valid, b).state.mempool ==> t in s.mempool && t !in b.transactions
    ensures forall t :: t in s.mempool && t !in b.transactions ==> t in AppendBlockSpec(s, valid, b).state.mempool
  {
  }

  /**
   * Where the older revision accepts a transaction list, the newer one
   * applies it to the same balances.
   */
  lemma AgreesWithOlderRevision(m: Balances, txs: seq<Transaction>)
    requires Chain.NewAccountBalances(m, txs).Ok?
    ensures ProcessTransactionsSpec(m, txs) == Processed(Chain.NewAccountBalances(m, txs).value, Ok(()))
  {
    Chain.NewAccountBalancesOutcome(m, txs);
  }

  /**
   * When the validator accepts a block one of whose transfers is not covered,
   * the block stays appended, the coinbase and the transfers before the
   * failing one stay applied, the result is an error and the mempool is kept.
   */
  lemma FailedTransferKeepsBlock(s: NodeState, b: Block)
    requires |b.transactions| > 0
    requires TransferRun(AddAmount(s.accounts, b.transactions[0].recipient, b.transactions[0].amount),
                         b.transactions[1..]).failure.Some?
    ensures AppendBlockSpec(s, true, b).outcome == Err(TransferFailed(InsufficientFunds))
    ensures AppendBlockSpec(s, true, b).state.blocks == s.blocks + [b]
    ensures AppendBlockSpec(s, true, b).state.accounts ==
      TransferRun(AddAmount(s.accounts, b.transactions[0].recipient, b.transactions[0].amount),
                  b.transactions[1..]).balances
    ensures AppendBlockSpec(s, true, b).state.mempool == s.mempool
  {
    TransferRunStopsAtFirstFailure(AddAmount(s.accounts, b.transactions[0].recipient, b.transactions[0].amount),
                                   b.transactions[1..]);
  }

  /**
   * A worked instance of `FailedTransferKeepsBlock`: a block whose second transfer is not
   * covered is still appended, and the coinbase and first transfer stay
   * applied, where the older revision refuses the same transactions outright.
   */
  lemma AppendNotAtomic(s: NodeState, b: Block)
    requires s.accounts == map[]
    requires b.transactions == [Transaction([0], [1], 100), Transaction([1], [2], 60), Transaction([1], [2], 60)]
    ensures AppendBlockSpec(s, true, b).outcome == Err(TransferFailed(InsufficientFunds))
    ensures AppendBlockSpec(s, true, b).state.blocks == s.blocks + [b]
    ensures AppendBlockSpec(s, true, b).state.accounts == map[[1] := 40, [2] := 60]
    ensures Chain.NewAccountBalances(s.accounts, b.transactions) == Err(InsufficientFunds)
  {
    var txs := b.transactions;
    var miner: Address, payee: Address := [1], [2];
    assert miner != payee by { assert miner[0] != payee[0]; }
    var credited := AddAmount(map[], miner, 100);
    assert credited == map[miner := 100];
    var afterFirst := Transfer(credited, miner, payee, 60);
    assert credited[miner := 40] == map[miner := 40];
    assert afterFirst.value == map[miner := 40][payee := 60];
    assert txs[1..][1..] == [txs[2]];
    assert TransferRun(afterFirst.value, [txs[2]]) == Run(map[[1] := 40, [2] := 60], Some(InsufficientFunds));
  }

  /** The newer revision's node database. */
  class NodeDatabase {
    const network: Network
    /** `validate_block` (not part of this model): a verdict on a block against the current state. */
    const validateBlock: (NodeState, Block) -> bool
    /** `validate_transaction` (not part of this model): a verdict on a transaction against the current state. */
    const validateTransaction: (NodeState, Transaction) -> bool
    var blocks: seq<Block>
    var accounts: Balances
    const mempool: Mempool

    /** What the validators see. */
    function State(): NodeState
      reads this, mempool
    {
      NodeState(blocks, accounts, mempool.transactions)
    }

    /** `NodeDatabase::new`: no blocks, no balances, an empty mempool. */
    constructor (network: Network, validateBlock: (NodeState, Block) -> bool,
                 validateTransaction: (NodeState, Transaction) -> bool)
      ensures this.network == network
      ensures this.validateBlock == validateBlock && this.validateTransaction == validateTransaction
      ensures State() == NodeState([], map[], [])
      ensures fresh(mempool)
    {
      this.network := network;
      this.validateBlock := validateBlock;
      this.validateTransaction := validateTransaction;
      blocks := [];
      accounts := map[];
      mempool := new Mempool();
    }

    /** `get_network`. */
    method GetNetwork() returns (n: Network)
      ensures n == network
    {
      n := network;
    }

    /** `get_all_blocks`: every block, oldest first. */
    method GetAllBlocks() returns (all: seq<Block>)
      ensures all == blocks
    {
      all := blocks;
    }

    /** `get_tip_block`: the last block, or nothing when there are no blocks yet. */
    method GetTipBlock() returns (tip: Option<Block>)
      ensures tip.None? <==> |blocks| == 0
      ensures tip.Some? ==> tip.value == blocks[|blocks| - 1]
    {
      if |blocks| == 0 {
        tip := None;
      } else {
        tip := Some(blocks[|blocks| - 1]);
      }
    }

    /** `get_account_balance`: nothing for an account the store has never seen. */
    method GetAccountBalance(a: Address) returns (balance: Option<Coin>)
      ensures balance.None? <==> a !in accounts
      ensures balance.Some? ==> balance.value == accounts[a]
    {
      if a in accounts {
        balance := Some(accounts[a]);
      } else {
        balance := None;
      }
    }

    /** `get_mempool_transactions`. */
    method GetMempoolTransactions() returns (pending: seq<Transaction>)
      ensures pending == mempool.transactions
    {
      pending := mempool.GetTransactions();
    }

    /** `process_transactions`: coinbase credit, then transfers in order, in place. */
    method ProcessTransactions(b: Block) returns (r: Result<(), NodeError>)
      modifies this`accounts
      ensures accounts == ProcessTransactionsSpec(old(accounts), b.transactions).accounts
      ensures r == ProcessTransactionsSpec(old(accounts), b.transactions).outcome
    {
      var txs := b.transactions;
      if |txs| == 0 {
        return Err(MissingCoinbase);
      }
      var coinbase := txs[0];
      accounts := AddAmount(accounts, coinbase.recipient, coinbase.amount);
      ghost var credited := accounts;
      var i := 1;
      while i < |txs|
        invariant 1 <= i <= |txs|
        invariant TransferRun(credited, txs[1..]) == TransferRun(accounts, txs[i..])
      {
        var tx := txs[i];
        assert txs[i..][1..] == txs[i + 1..];
        var step := Transfer(accounts, tx.sender, tx.recipient, tx.amount);
        if step.Err? {
          return Err(TransferFailed(step.error));
        }
        accounts := step.value;
        i := i + 1;
      }
      r := Ok(());
    }

    /** `append_block`: validate, append, apply the transactions, prune the mempool. */
    method AppendBlock(b: Block) returns (r: Result<(), NodeError>)
      modifies this, mempool
      ensures State() == AppendBlockSpec(old(State()), validateBlock(old(State()), b), b).state
      ensures r == AppendBlockSpec(old(State()), validateBlock(old(State()), b), b).outcome
    {
      if !validateBlock(State(), b) {
        return Err(Rejected);
      }
      blocks := blocks + [b];
      r := ProcessTransactions(b);
      if r.Err? {
        return;
      }
      mempool.RemoveTransactions(b.transactions);
    }

    /** `add_transaction`: a refused transaction leaves the mempool as it was. */
    method AddTransaction(t: Transaction) returns (r: Result<(), NodeError>)
      modifies mempool
      ensures validateTransaction(old(State()), t) ==>
        r == Ok(()) && mempool.transactions == old(mempool.transactions) + [t]
      ensures !validateTransaction(old(State()), t) ==>
        r == Err(Rejected) && mempool.transactions == old(mempool.transactions)
    {
      if !validateTransaction(State(), t) {
        return Err(Rejected);
      }
      mempool.AddTransaction(t);
      r := Ok(());
    }
  }
}
