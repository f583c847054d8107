/**
 * The newer revision's stand-alone miner: it asks the node for block
 * templates, skips empty ones, puts its coinbase in front, reseals, mines,
 * and submits what it found, until the block limit is reached.
 */
module MiningLoop {
  import opened Types
  import opened Blocks
  import Mining

  /** The miner's settings (`MinerArgs`); `maxBlocks` 0 means no limit. */
  datatype MinerArgs = MinerArgs(minerAddress: Address, nodeUrl: string, difficulty: nat,
                                 maxNonce: nat, maxBlocks: nat)

  /** `should_keep_mining`: always without a limit, else while below it. */
  function ShouldKeepMining(blocksMined: nat, args: MinerArgs): (keep: bool)
    ensures args.maxBlocks == 0 ==> keep
    ensures args.maxBlocks > 0 ==> (keep <==> blocksMined < args.maxBlocks)
  {
    if args.maxBlocks == 0 then true else blocksMined < args.maxBlocks
  }

  /** The newer keep-mining rule is exactly the negation of the older stop rule. */
  lemma KeepMiningIsNotStopping(blocksMined: nat, args: MinerArgs)
    ensures ShouldKeepMining(blocksMined, args) == !Mining.MustStopMining(args.maxBlocks, blocksMined)
  {
  }

  /**
   * The template with the miner's coinbase inserted at position 0 and the
   * hash recomputed; every other field is the template's.
   */
  function WithCoinbase(template: Block, minerAddress: Address): (b: Block)
    ensures b.transactions == [Mining.CreateCoinbaseTransaction(minerAddress)] + template.transactions
    ensures b.(hash := template.hash, transactions := template.transactions) == template
    ensures IsSealed(b)
  {
    Seal(template.(transactions := [Mining.CreateCoinbaseTransaction(minerAddress)] + template.transactions))
  }

  /**
   * The block one cycle submits for `template`, if any: none for an empty
   * template, otherwise whatever the miner (`block_miner::mine_block`, not
   * part of this model, here the function `mine`) finds.
   */
  function CycleResult(args: MinerArgs, template: Block, mine: Block -> Option<Block>): Option<Block>
  {
    if |template.transactions| == 0 then None
    else mine(WithCoinbase(template, args.minerAddress))
  }

  /** The blocks submitted when the node hands out `templates` in turn. */
  function Submissions(args: MinerArgs, blocksMined: nat, templates: seq<Block>,
                       mine: Block -> Option<Block>): seq<Block>
    decreases |templates|
  {
    if !ShouldKeepMining(blocksMined, args) || |templates| == 0 then []
    else
      match CycleResult(args, templates[0], mine)
      case None => Submissions(args, blocksMined, templates[1..], mine)
      case Some(b) => [b] + Submissions(args, blocksMined + 1, templates[1..], mine)
  }

  /** How many of the templates would lead to a submission, ignoring the limit. */
  function SuccessCount(args: MinerArgs, templates: seq<Block>, mine: Block -> Option<Block>): nat
  {
    if |templates| == 0 then 0
    else (if CycleResult(args, templates[0], mine).Some? then 1 else 0) + SuccessCount(args, templates[1..], mine)
  }

  function Min(a: nat, b: nat): nat
  {
    if a <= b then a else b
  }

  /**
   * Every successful cycle submits one block and failures submit nothing, so
   * the miner submits one block per success until the limit is reached.
   */
  lemma {:induction false} SubmissionsCount(args: MinerArgs, blocksMined: nat, templates: seq<Block>,
                                            mine: Block -> Option<Block>)
    requires args.maxBlocks == 0 || blocksMined <= args.maxBlocks
    ensures args.maxBlocks == 0 ==>
      |Submissions(args, blocksMined, templates, mine)| == SuccessCount(args, templates, mine)
    ensures args.maxBlocks > 0 ==>
      |Submissions(args, blocksMined, templates, mine)| ==
        Min(SuccessCount(args, templates, mine), args.maxBlocks - blocksMined)
    decreases |templates|
  {
    if |templates| > 0 && ShouldKeepMining(blocksMined, args) {
      if CycleResult(args, templates[0], mine).Some? {
        SubmissionsCount(args, blocksMined + 1, templates[1..], mine);
      } else {
        SubmissionsCount(args, blocksMined, templates[1..], mine);
      }
    }
  }

  /** Templates without transactions are never mined nor submitted. */
  lemma {:induction false} EmptyTemplatesSubmitNothing(args: MinerArgs, blocksMined: nat, templates: seq<Block>,
                                                       mine: Block -> Option<Block>)
    requires forall i :: 0 <= i < |templates| ==> templates[i].transactions == []
    ensures Submissions(args, blocksMined, templates, mine) == []
    decreases |templates|
  {
    if |templates| > 0 {
      EmptyTemplatesSubmitNothing(args, blocksMined, templates[1..], mine);
    }
  }

  /**
   * `run_mining_loop` over the templates the node hands out: returns the
   * number of blocks mined, the blocks submitted in order, and how many
   * templates were used. The loop ends early only at the block limit.
   */
  method RunMiningLoop(args: MinerArgs, templates: seq<Block>, mine: Block -> Option<Block>)
    returns (blocksMined: nat, submitted: seq<Block>, cycles: nat)
    ensures submitted == Submissions(args, 0, templates, mine)
    ensures blocksMined == |submitted|
    ensures cycles <= |templates|
    ensures cycles < |templates| ==> args.maxBlocks > 0 && blocksMined == args.maxBlocks
    ensures args.maxBlocks > 0 ==> blocksMined <= args.maxBlocks
  {
    blocksMined := 0;
    submitted := [];
    cycles := 0;
    while ShouldKeepMining(blocksMined, args) && cycles < |templates|
      invariant cycles <= |templates|
      invariant blocksMined == |submitted|
      invariant args.maxBlocks > 0 ==> blocksMined <= args.maxBlocks
      invariant submitted + Submissions(args, blocksMined, templates[cycles..], mine)
                == Submissions(args, 0, templates, mine)
      decreases |templates| - cycles
    {
      var template := templates[cycles];
      assert templates[cycles..][1..] == templates[cycles + 1..];
      cycles := cycles + 1;
      if |template.transactions| == 0 {
        continue;
      }
      var coinbase := Mining.CreateCoinbaseTransaction(args.minerAddress);
      template := template.(transactions := [coinbase] + template.transactions);
      template := template.(hash := CalculateHash(template));
      CalculateHashIgnoresHash(templates[cycles - 1].(transactions := [coinbase] + templates[cycles - 1].transactions),
                               templates[cycles - 1].hash);
      var result := mine(template);
      match result
      case Some(newBlock) =>
        submitted := submitted + [newBlock];
        blocksMined := blocksMined + 1;
      case None =>
    }
  }
}
