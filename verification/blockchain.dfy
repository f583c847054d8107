/**
 * The older revision's chain: a list of blocks that starts with a fixed
 * genesis block and a balance map. A block is accepted only after four header
 * checks and a balance update computed on a copy, so a rejected block changes
 * nothing.
 */
module Chain {
  import opened Types
  import opened Hash
  import opened Blocks
  import opened Ledger

  // ---------------------------------------------------------------------
  // Genesis
  // ---------------------------------------------------------------------

  /**
   * `create_genesis_block`: built with `Block::new` at time `now`, then the
   * timestamp is cleared and the block resealed.
   */
  function CreateGenesisBlock(now: int): (b: Block)
    ensures b.index == 0 && b.nonce == 0 && b.previousHash == DefaultHash
    ensures b.transactions == [] && b.timestamp == 0
    ensures IsSealed(b)
  {
    Seal(NewBlock(0, 0, DefaultHash, [], now).(timestamp := 0))
  }

  /** The genesis block is the same whenever it is created, so every node agrees on it. */
  lemma GenesisIgnoresClock(now1: int, now2: int)
    ensures CreateGenesisBlock(now1) == CreateGenesisBlock(now2)
  {
    var b1 := NewBlock(0, 0, DefaultHash, [], now1).(timestamp := 0);
    var b2 := NewBlock(0, 0, DefaultHash, [], now2).(timestamp := 0);
    assert b1 == b2.(hash := b1.hash);
    CalculateHashIgnoresHash(b2, b1.hash);
  }

  // ---------------------------------------------------------------------
  // Header checks
  // ---------------------------------------------------------------------

  /**
   * The four checks of `add_block`, in source order; the first that fails
   * names the error.
   */
  function CheckHeader(last: Block, difficulty: nat, b: Block): (r: Option<ChainError>)
    ensures r == None <==>
      b.index == last.index + 1 && b.previousHash == last.hash && IsSealed(b) &&
      LeadingZeroBits(b.hash.bytes) >= difficulty
    ensures r == Some(InvalidIndex) <==> b.index != last.index + 1
    ensures r == Some(InvalidPreviousHash) <==> b.index == last.index + 1 && b.previousHash != last.hash
    ensures r == Some(InvalidHash) <==>
      b.index == last.index + 1 && b.previousHash == last.hash && !IsSealed(b)
    ensures r == Some(InvalidDifficulty) <==>
      b.index == last.index + 1 && b.previousHash == last.hash && IsSealed(b) &&
      LeadingZeroBits(b.hash.bytes) < difficulty
  {
    if b.index != last.index + 1 then Some(InvalidIndex)
    else if b.previousHash != last.hash then Some(InvalidPreviousHash)
    else if b.hash != CalculateHash(b) then Some(InvalidHash)
    else if LeadingZeroBits(b.hash.bytes) < difficulty then Some(InvalidDifficulty)
    else None
  }

  // ---------------------------------------------------------------------
  // Balances
  // ---------------------------------------------------------------------

  /**
   * `process_coinbase`: the first transaction must exist and carry exactly
   * the subsidy; its recipient is credited. The sender is not looked at.
   */
  function ProcessCoinbase(m: Balances, coinbase: Option<Transaction>): (r: Result<Balances, ChainError>)
    ensures r == Err(CoinbaseTransactionNotFound) <==> coinbase.None?
    ensures r == Err(InvalidCoinbaseAmount) <==> coinbase.Some? && coinbase.value.amount != BlockSubsidy
    ensures r.Ok? ==>
      coinbase.Some? &&
      Balance(r.value, coinbase.value.recipient) == Balance(m, coinbase.value.recipient) + BlockSubsidy &&
      forall a :: a != coinbase.value.recipient ==> Balance(r.value, a) == Balance(m, a)
    ensures r.Ok? ==> Total(r.value) == Total(m) + BlockSubsidy
  {
    match coinbase
    case None => Err(CoinbaseTransactionNotFound)
    case Some(t) =>
      if t.amount != BlockSubsidy then Err(InvalidCoinbaseAmount)
      else
        TotalAddAmount(m, t.recipient, t.amount);
        Ok(AddAmount(m, t.recipient, t.amount))
  }

  /** The outcome of applying transfers in order: the first error, or the final balances. */
  function TransfersOutcome(m: Balances, txs: seq<Transaction>): Result<Balances, ChainError>
  {
    var run := TransferRun(m, txs);
    if run.failure.Some? then Err(run.failure.value) else Ok(run.balances)
  }

  /**
   * `calculate_new_account_balances`: the coinbase (the first transaction,
   * if any), then the remaining transactions as transfers, all on a copy.
   */
  function NewAccountBalances(m: Balances, txs: seq<Transaction>): Result<Balances, ChainError>
  {
    var coinbase := if |txs| == 0 then None else Some(txs[0]);
    var rest := if |txs| == 0 then [] else txs[1..];
    match ProcessCoinbase(m, coinbase)
    case Err(e) => Err(e)
    case Ok(credited) => TransfersOutcome(credited, rest)
  }

  /**
   * An accepted transaction list creates exactly the subsidy; a refused one
   * is refused for a missing or wrong coinbase or an uncovered transfer.
   */
  lemma NewAccountBalancesOutcome(m: Balances, txs: seq<Transaction>)
    ensures NewAccountBalances(m, txs).Ok? ==>
      |txs| > 0 && txs[0].amount == BlockSubsidy &&
      Total(NewAccountBalances(m, txs).value) == Total(m) + BlockSubsidy
    ensures NewAccountBalances(m, txs).Err? ==>
      NewAccountBalances(m, txs).error in {CoinbaseTransactionNotFound, InvalidCoinbaseAmount, InsufficientFunds}
    ensures |txs| == 0 ==> NewAccountBalances(m, txs) == Err(CoinbaseTransactionNotFound)
    ensures |txs| > 0 && txs[0].amount != BlockSubsidy ==> NewAccountBalances(m, txs) == Err(InvalidCoinbaseAmount)
  {
    if |txs| > 0 && txs[0].amount == BlockSubsidy {
      var credited := AddAmount(m, txs[0].recipient, txs[0].amount);
      TransferRunConserves(credited, txs[1..]);
      if TransferRun(credited, txs[1..]).failure.Some? {
        TransferRunStopsAtFirstFailure(credited, txs[1..]);
      }
    }
  }

  /** With a correct coinbase, only an uncovered transfer can refuse a transaction list. */
  lemma RefusedOnlyForFunds(m: Balances, txs: seq<Transaction>)
    requires |txs| > 0 && txs[0].amount == BlockSubsidy
    ensures NewAccountBalances(m, txs).Err? ==> NewAccountBalances(m, txs).error == InsufficientFunds
  {
    var credited := AddAmount(m, txs[0].recipient, txs[0].amount);
    assert NewAccountBalances(m, txs) == TransfersOutcome(credited, txs[1..]);
    if TransferRun(credited, txs[1..]).failure.Some? {
      TransferRunStopsAtFirstFailure(credited, txs[1..]);
    }
  }

  /**
   * `process_transfers`: each transfer against the balances the previous ones
   * left; the first failure is returned.
   */
  method ProcessTransfers(m: Balances, txs: seq<Transaction>) returns (r: Result<Balances, ChainError>)
    ensures r == TransfersOutcome(m, txs)
  {
    var current := m;
    var i := 0;
    while i < |txs|
      invariant 0 <= i <= |txs|
      invariant TransferRun(m, txs) == TransferRun(current, txs[i..])
    {
      var tx := txs[i];
      assert txs[i..][1..] == txs[i + 1..];
      var step := Transfer(current, tx.sender, tx.recipient, tx.amount);
      if step.Err? {
        return Err(step.error);
      }
      current := step.value;
      i := i + 1;
    }
    return Ok(current);
  }

  /** `calculate_new_account_balances`, step by step. */
  method CalculateNewAccountBalances(m: Balances, txs: seq<Transaction>) returns (r: Result<Balances, ChainError>)
    ensures r == NewAccountBalances(m, txs)
  {
    var coinbase := if |txs| == 0 then None else Some(txs[0]);
    var credited := ProcessCoinbase(m, coinbase);
    if credited.Err? {
      return Err(credited.error);
    }
    r := ProcessTransfers(credited.value, txs[1..]);
  }

  /**
   * The decision `add_block` makes for block `b` on a chain whose last block
   * is `last`: the header error, or else the balance error, or else the new
   * balances.
   */
  function Admit(last: Block, balances: Balances, difficulty: nat, b: Block): Result<Balances, ChainError>
  {
    match CheckHeader(last, difficulty, b)
    case Some(e) => Err(e)
    case None => NewAccountBalances(balances, b.transactions)
  }

  // ---------------------------------------------------------------------
  // Valid chains
  // ---------------------------------------------------------------------

  /** The balances obtained by applying the blocks' transactions from an empty map. */
  ghost function Replay(bs: seq<Block>): Option<Balances>
  {
    if |bs| == 0 then Some(map[])
    else
      match Replay(bs[..|bs| - 1])
      case None => None
      case Some(m) =>
        var next := NewAccountBalances(m, bs[|bs| - 1].transactions);
        if next.Ok? then Some(next.value) else None
  }

  /** Every block that `add_block` accepts creates exactly the subsidy. */
  lemma {:induction false} ReplayTotal(bs: seq<Block>)
    requires Replay(bs).Some?
    ensures Total(Replay(bs).value) == |bs| * BlockSubsidy
  {
    if |bs| > 0 {
      var prefix := bs[..|bs| - 1];
      ReplayTotal(prefix);
      NewAccountBalancesOutcome(Replay(prefix).value, bs[|bs| - 1].transactions);
    }
  }

  /**
   * A chain the older revision can hold: the genesis block first, then each
   * block passing the header checks against its predecessor.
   */
  ghost predicate ValidChain(blocks: seq<Block>, difficulty: nat)
  {
    |blocks| >= 1 && blocks[0] == CreateGenesisBlock(0) &&
    forall i :: 1 <= i < |blocks| ==> CheckHeader(blocks[i - 1], difficulty, blocks[i]) == None
  }

  /** In a valid chain each block's index is its position. */
  lemma {:induction false} ValidChainIndices(blocks: seq<Block>, difficulty: nat, i: nat)
    requires ValidChain(blocks, difficulty)
    requires i < |blocks|
    ensures blocks[i].index == i
  {
    if i > 0 {
      ValidChainIndices(blocks, difficulty, i - 1);
      assert CheckHeader(blocks[i - 1], difficulty, blocks[i]) == None;
    }
  }

  /** Re-submitting any block already on a valid chain is refused with `InvalidIndex`. */
  lemma ResubmitRejected(blocks: seq<Block>, difficulty: nat, balances: Balances, i: nat)
    requires ValidChain(blocks, difficulty)
    requires i < |blocks|
    ensures Admit(blocks[|blocks| - 1], balances, difficulty, blocks[i]) == Err(InvalidIndex)
  {
    ValidChainIndices(blocks, difficulty, i);
    ValidChainIndices(blocks, difficulty, |blocks| - 1);
  }

  /**
   * Appending a block `add_block` accepts keeps a chain valid, and the new
   * balances are the replay of the longer chain.
   */
  lemma AdmitKeepsValid(blocks: seq<Block>, balances: Balances, difficulty: nat, b: Block)
    requires ValidChain(blocks, difficulty) && Replay(blocks[1..]) == Some(balances)
    requires Admit(blocks[|blocks| - 1], balances, difficulty, b).Ok?
    ensures ValidChain(blocks + [b], difficulty)
    ensures Replay((blocks + [b])[1..]) == Some(Admit(blocks[|blocks| - 1], balances, difficulty, b).value)
  {
    var longer := blocks + [b];
    assert CheckHeader(blocks[|blocks| - 1], difficulty, b) == None;
    forall i | 1 <= i < |longer|
      ensures CheckHeader(longer[i - 1], difficulty, longer[i]) == None
    {
      if i < |blocks| {
        assert longer[i - 1] == blocks[i - 1] && longer[i] == blocks[i];
      } else {
        assert longer[i - 1] == blocks[|blocks| - 1] && longer[i] == b;
      }
    }
    assert longer[1..] == blocks[1..] + [b];
    assert longer[1..][..|longer[1..]| - 1] == blocks[1..];
  }

  /** The older revision's chain: blocks, balances and the difficulty every block must meet. */
  class Blockchain {
    const difficulty: nat
    var blocks: seq<Block>
    var balances: Balances

    /** The chain is valid and the balances are the effect of all its blocks. */
    ghost predicate Valid()
      reads this
    {
      ValidChain(blocks, difficulty) && Replay(blocks[1..]) == Some(balances)
    }

    /** `Blockchain::new` at time `now`: only the genesis block, no balances. */
    constructor (difficulty: nat, now: int)
      ensures Valid()
      ensures this.difficulty == difficulty
      ensures blocks == [CreateGenesisBlock(now)] && balances == map[]
    {
      this.difficulty := difficulty;
      GenesisIgnoresClock(now, 0);
      blocks := [CreateGenesisBlock(now)];
      balances := map[];
    }

    /** `get_last_block`. */
    method GetLastBlock() returns (last: Block)
      requires Valid()
      ensures last == blocks[|blocks| - 1]
      ensures last.index == |blocks| - 1
    {
      ValidChainIndices(blocks, difficulty, |blocks| - 1);
      last := blocks[|blocks| - 1];
    }

    /** `get_all_blocks`. */
    method GetAllBlocks() returns (all: seq<Block>)
      requires Valid()
      ensures all == blocks
      ensures forall i :: 0 <= i < |all| ==> all[i].index == i
    {
      forall i | 0 <= i < |blocks|
        ensures blocks[i].index == i
      {
        ValidChainIndices(blocks, difficulty, i);
      }
      all := blocks;
    }

    /** `update_account_balances`: replaces the balances only when every transaction is accepted. */
    method UpdateAccountBalances(txs: seq<Transaction>) returns (r: Result<(), ChainError>)
      modifies this`balances
      ensures NewAccountBalances(old(balances), txs).Ok? ==>
        r == Ok(()) && balances == NewAccountBalances(old(balances), txs).value
      ensures NewAccountBalances(old(balances), txs).Err? ==>
        r == Err(NewAccountBalances(old(balances), txs).error) && balances == old(balances)
    {
      var next := CalculateNewAccountBalances(balances, txs);
      if next.Err? {
        return Err(next.error);
      }
      balances := next.value;
      return Ok(());
    }

    /**
     * `add_block`: the header checks in order, then the balances; a refused
     * block changes nothing, an accepted one is appended and the chain stays
     * valid.
     */
    method AddBlock(b: Block) returns (r: Result<(), ChainError>)
      requires Valid()
      modifies this`blocks, this`balances
      ensures Valid()
      ensures Admit(old(blocks)[|old(blocks)| - 1], old(balances), difficulty, b).Err? ==>
        r == Err(Admit(old(blocks)[|old(blocks)| - 1], old(balances), difficulty, b).error) &&
        blocks == old(blocks) && balances == old(balances)
      ensures Admit(old(blocks)[|old(blocks)| - 1], old(balances), difficulty, b).Ok? ==>
        r == Ok(()) && blocks == old(blocks) + [b] &&
        balances == Admit(old(blocks)[|old(blocks)| - 1], old(balances), difficulty, b).value
      ensures Total(balances) == (|blocks| - 1) * BlockSubsidy
    {
      var last := blocks[|blocks| - 1];
      if b.index != last.index + 1 {
        r := Err(InvalidIndex);
      } else if b.previousHash != last.hash {
        r := Err(InvalidPreviousHash);
      } else if b.hash != CalculateHash(b) {
        r := Err(InvalidHash);
      } else {
        var zeros := LeadingZeros(b.hash);
        if zeros < difficulty {
          r := Err(InvalidDifficulty);
        } else {
          assert CheckHeader(last, difficulty, b) == None;
          r := UpdateAccountBalances(b.transactions);
          if r.Ok? {
            AdmitKeepsValid(blocks, old(balances), difficulty, b);
            blocks := blocks + [b];
          }
        }
      }
      ReplayTotal(blocks[1..]);
    }
  }
}
