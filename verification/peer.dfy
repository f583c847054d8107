/**
 * Peer synchronisation of the newer node: pull the blocks a peer has beyond
 * the local tip and import them in order, and push the local blocks from a
 * watermark on to every peer.
 */
module Peers {
  import opened Types
  import opened Blocks
  import opened NodeDatabases

  /** The last block of a list, if any (`get_tip_block` on a block list). */
  function Tip(blocks: seq<Block>): (tip: Option<Block>)
    ensures tip.None? <==> |blocks| == 0
    ensures tip.Some? ==> tip.value == blocks[|blocks| - 1]
  {
    if |blocks| == 0 then None else Some(blocks[|blocks| - 1])
  }

  /** The index the next block must have: one past the tip, or 0 without a tip. */
  function NextIndex(tip: Option<Block>): (n: nat)
    ensures tip.None? ==> n == 0
    ensures tip.Some? ==> n == tip.value.index + 1
  {
    match tip
    case None => 0
    case Some(b) => b.index + 1
  }

  /**
   * `get_new_blocks_from_peer`, given the list the peer returned: the
   * positions from the next index to the index of the peer's last block,
   * or nothing when that range is empty or out of bounds.
   */
  function NewBlocksFromPeer(tip: Option<Block>, peerBlocks: seq<Block>): (r: seq<Block>)
    ensures |peerBlocks| == 0 ==> r == []
    ensures |peerBlocks| > 0 && peerBlocks[|peerBlocks| - 1].index < NextIndex(tip) ==> r == []
    ensures |peerBlocks| > 0 && peerBlocks[|peerBlocks| - 1].index >= |peerBlocks| ==> r == []
    ensures |peerBlocks| > 0 && NextIndex(tip) <= peerBlocks[|peerBlocks| - 1].index < |peerBlocks| ==>
      r == peerBlocks[NextIndex(tip)..peerBlocks[|peerBlocks| - 1].index + 1]
  {
    if |peerBlocks| == 0 then []
    else
      var next := NextIndex(tip);
      var last := peerBlocks[|peerBlocks| - 1].index;
      if last < next then []
      else if last < |peerBlocks| then peerBlocks[next..last + 1]
      else []
  }

  /** A list whose blocks sit at the positions their indices name, as a valid chain's do. */
  predicate IndexedByPosition(blocks: seq<Block>)
  {
    forall i :: 0 <= i < |blocks| ==> blocks[i].index == i
  }

  /**
   * From a peer whose list is indexed by position, the new blocks are
   * exactly the peer's blocks beyond the local tip, in order.
   */
  lemma NewBlocksFromIndexedPeer(tip: Option<Block>, peerBlocks: seq<Block>)
    requires IndexedByPosition(peerBlocks)
    ensures NewBlocksFromPeer(tip, peerBlocks) ==
      if NextIndex(tip) <= |peerBlocks| then peerBlocks[NextIndex(tip)..] else []
    ensures forall k :: 0 <= k < |NewBlocksFromPeer(tip, peerBlocks)| ==>
      NewBlocksFromPeer(tip, peerBlocks)[k].index == NextIndex(tip) + k
  {
    if |peerBlocks| > 0 {
      assert peerBlocks[|peerBlocks| - 1].index == |peerBlocks| - 1;
    }
  }

  /**
   * Slicing goes by position: a peer that sends only blocks 3 and 4 to a node
   * without blocks yields nothing, although both are new to the node.
   */
  lemma PositionNotIndex(b3: Block, b4: Block)
    requires b3.index == 3 && b4.index == 4
    ensures NewBlocksFromPeer(None, [b3, b4]) == []
  {
  }

  /** `get_new_blocks_since`: all blocks, or those from position `start` on (none past the end). */
  function GetNewBlocksSince(blocks: seq<Block>, start: Option<nat>): (r: seq<Block>)
    ensures start.None? ==> r == blocks
    ensures start.Some? && start.value <= |blocks| ==> r == blocks[start.value..]
    ensures start.Some? && start.value > |blocks| ==> r == []
  {
    match start
    case None => blocks
    case Some(i) => if i <= |blocks| then blocks[i..] else []
  }

  /** The watermark after a send round: the index of the last block selected. */
  function NextWatermark(sent: seq<Block>): (w: Option<nat>)
    ensures w.None? <==> sent == []
    ensures w.Some? ==> w.value == sent[|sent| - 1].index
  {
    if sent == [] then None else Some(sent[|sent| - 1].index)
  }

  /**
   * On a chain indexed by position, the round after a send starts again at
   * the last block sent: that block is sent once more, followed by the
   * blocks appended since.
   */
  lemma WatermarkResendsLastBlock(blocks: seq<Block>, start: Option<nat>, more: seq<Block>)
    requires IndexedByPosition(blocks)
    requires GetNewBlocksSince(blocks, start) != []
    ensures NextWatermark(GetNewBlocksSince(blocks, start)) == Some(|blocks| - 1)
    ensures GetNewBlocksSince(blocks + more, NextWatermark(GetNewBlocksSince(blocks, start)))
            == [blocks[|blocks| - 1]] + more
  {
    var all := blocks + more;
    assert all[|blocks| - 1..] == [blocks[|blocks| - 1]] + more;
  }

  /** Sending `b` to each of the first `j` peers succeeded. */
  predicate SentToFirst(b: Block, peers: seq<string>, send: (Block, string) -> bool, j: nat)
    requires j <= |peers|
  {
    forall k :: 0 <= k < j ==> send(b, peers[k])
  }

  /**
   * The sends of one block: peers in order, up to and including the first
   * one whose send fails.
   */
  function PeerAttempts(b: Block, peers: seq<string>, send: (Block, string) -> bool): (r: seq<(Block, string)>)
    ensures |r| <= |peers|
  {
    if |peers| == 0 then []
    else if send(b, peers[0]) then [(b, peers[0])] + PeerAttempts(b, peers[1..], send)
    else [(b, peers[0])]
  }

  /** The j-th send of a block goes to the j-th peer. */
  lemma {:induction false} PeerAttemptsInOrder(b: Block, peers: seq<string>, send: (Block, string) -> bool)
    ensures forall j :: 0 <= j < |PeerAttempts(b, peers, send)| ==> PeerAttempts(b, peers, send)[j] == (b, peers[j])
  {
    if |peers| > 0 && send(b, peers[0]) {
      PeerAttemptsInOrder(b, peers[1..], send);
      var r := PeerAttempts(b, peers, send);
      var rest := PeerAttempts(b, peers[1..], send);
      forall j | 1 <= j < |r|
        ensures r[j] == (b, peers[j])
      {
        assert r[j] == rest[j - 1] && peers[j] == peers[1..][j - 1];
      }
    }
  }

  /**
   * Peer `j` is tried with block `b` exactly when the sends of `b` to all
   * peers before it succeeded.
   */
  lemma {:induction false} PeerAttemptsReach(b: Block, peers: seq<string>, send: (Block, string) -> bool, j: nat)
    requires j < |peers|
    ensures j < |PeerAttempts(b, peers, send)| <==> SentToFirst(b, peers, send, j)
  {
    if j > 0 {
      if send(b, peers[0]) {
        PeerAttemptsReach(b, peers[1..], send, j - 1);
        if SentToFirst(b, peers[1..], send, j - 1) {
          forall k | 0 <= k < j
            ensures send(b, peers[k])
          {
            if k > 0 {
              assert peers[k] == peers[1..][k - 1];
            }
          }
        }
        if SentToFirst(b, peers, send, j) {
          forall k | 0 <= k < j - 1
            ensures send(b, peers[1..][k])
          {
            assert peers[1..][k] == peers[k + 1];
          }
        }
      } else {
        assert !send(b, peers[0]);
      }
    }
  }

  /** The sends of a whole round: each block in turn, with its own peer attempts. */
  function SendRound(blocks: seq<Block>, peers: seq<string>, send: (Block, string) -> bool): seq<(Block, string)>
  {
    if |blocks| == 0 then [] else PeerAttempts(blocks[0], peers, send) + SendRound(blocks[1..], peers, send)
  }

  /** A failed send never keeps later blocks from the first peer. */
  lemma {:induction false} EveryBlockReachesFirstPeer(blocks: seq<Block>, peers: seq<string>,
                                                      send: (Block, string) -> bool, i: nat)
    requires |peers| > 0 && i < |blocks|
    ensures (blocks[i], peers[0]) in SendRound(blocks, peers, send)
  {
    if i == 0 {
      PeerAttemptsInOrder(blocks[0], peers, send);
      assert PeerAttempts(blocks[0], peers, send)[0] == (blocks[0], peers[0]);
    } else {
      EveryBlockReachesFirstPeer(blocks[1..], peers, send, i - 1);
    }
  }

  /** The effect of `add_new_blocks`: append in order, stopping after the first block refused. */
  function ImportBlocks(s: NodeState, validate: (NodeState, Block) -> bool, bs: seq<Block>): NodeState
    decreases |bs|
  {
    if |bs| == 0 then s
    else
      var a := AppendBlockSpec(s, validate(s, bs[0]), bs[0]);
      if a.outcome.Err? then a.state else ImportBlocks(a.state, validate, bs[1..])
  }

  /**
   * Importing keeps every block already held and appends a prefix of the
   * offered blocks, in their order.
   */
  lemma {:induction false} ImportAppendsPrefix(s: NodeState, validate: (NodeState, Block) -> bool, bs: seq<Block>)
    ensures s.blocks <= ImportBlocks(s, validate, bs).blocks
    ensures ImportBlocks(s, validate, bs).blocks[|s.blocks|..] <= bs
    decreases |bs|
  {
    if |bs| > 0 {
      var a := AppendBlockSpec(s, validate(s, bs[0]), bs[0]);
      if a.outcome.Ok? {
        var rest := ImportBlocks(a.state, validate, bs[1..]);
        assert ImportBlocks(s, validate, bs) == rest;
        ImportAppendsPrefix(a.state, validate, bs[1..]);
        assert a.state.blocks == s.blocks + [bs[0]];
        assert rest.blocks[|s.blocks|..] == [bs[0]] + rest.blocks[|a.state.blocks|..];
      } else {
        assert ImportBlocks(s, validate, bs) == a.state;
      }
    }
  }

  /** One pull round: each peer in turn, importing what it has beyond the current tip. */
  function ReceiveAll(s: NodeState, validate: (NodeState, Block) -> bool, peers: seq<string>,
                      fetch: string -> seq<Block>): NodeState
    decreases |peers|
  {
    if |peers| == 0 then s
    else
      var offered := NewBlocksFromPeer(Tip(s.blocks), fetch(peers[0]));
      ReceiveAll(ImportBlocks(s, validate, offered), validate, peers[1..], fetch)
  }

  /** The peer synchronisation service of one node. */
  class Peer {
    const peerAddresses: seq<string>
    const peerSyncMs: nat
    const database: NodeDatabase

    /** `Peer::new`. */
    constructor (peerAddresses: seq<string>, peerSyncMs: nat, database: NodeDatabase)
      ensures this.peerAddresses == peerAddresses && this.peerSyncMs == peerSyncMs
      ensures this.database == database
    {
      this.peerAddresses := peerAddresses;
      this.peerSyncMs := peerSyncMs;
      this.database := database;
    }

    /** `add_new_blocks`: append in order; the first refusal ends the import. */
    method AddNewBlocks(newBlocks: seq<Block>)
      modifies database, database.mempool
      ensures database.State() == ImportBlocks(old(database.State()), database.validateBlock, newBlocks)
    {
      var i := 0;
      while i < |newBlocks|
        invariant 0 <= i <= |newBlocks|
        invariant ImportBlocks(old(database.State()), database.validateBlock, newBlocks)
                  == ImportBlocks(database.State(), database.validateBlock, newBlocks[i..])
      {
        assert newBlocks[i..][1..] == newBlocks[i + 1..];
        var result := database.AppendBlock(newBlocks[i]);
        if result.Err? {
          return;
        }
        i := i + 1;
      }
    }

    /**
     * `try_receive_new_blocks`, with `fetch` standing for the block list each
     * peer address returns (`get_blocks_from_peer`, an HTTP call).
     */
    method TryReceiveNewBlocks(fetch: string -> seq<Block>)
      modifies database, database.mempool
      ensures database.State() == ReceiveAll(old(database.State()), database.validateBlock, peerAddresses, fetch)
    {
      var i := 0;
      while i < |peerAddresses|
        invariant 0 <= i <= |peerAddresses|
        invariant ReceiveAll(old(database.State()), database.validateBlock, peerAddresses, fetch)
                  == ReceiveAll(database.State(), database.validateBlock, peerAddresses[i..], fetch)
      {
        assert peerAddresses[i..][1..] == peerAddresses[i + 1..];
        ReceiveFromPeer(peerAddresses[i], fetch);
        i := i + 1;
      }
    }

    /** The body of `try_receive_new_blocks` for one peer address. */
    method ReceiveFromPeer(address: string, fetch: string -> seq<Block>)
      modifies database, database.mempool
      ensures database.State() == ImportBlocks(old(database.State()), database.validateBlock,
                                                NewBlocksFromPeer(Tip(old(database.State()).blocks), fetch(address)))
    {
      ghost var before := database.State();
      var tip := database.GetTipBlock();
      assert tip == Tip(before.blocks);
      var newBlocks := NewBlocksFromPeer(tip, fetch(address));
      if newBlocks != [] {
        AddNewBlocks(newBlocks);
      } else {
        assert ImportBlocks(before, database.validateBlock, newBlocks) == before;
      }
    }

    /** The inner loop of `try_send_new_blocks_since`: one block to each peer until a send fails. */
    method SendToPeers(block: Block, send: (Block, string) -> bool) returns (sent: seq<(Block, string)>)
      ensures sent == PeerAttempts(block, peerAddresses, send)
    {
      sent := [];
      var j := 0;
      while j < |peerAddresses|
        invariant 0 <= j <= |peerAddresses|
        invariant sent + PeerAttempts(block, peerAddresses[j..], send) == PeerAttempts(block, peerAddresses, send)
      {
        var address := peerAddresses[j];
        assert peerAddresses[j..][1..] == peerAddresses[j + 1..];
        sent := sent + [(block, address)];
        if !send(block, address) {
          break;
        }
        j := j + 1;
      }
    }

    /**
     * `try_send_new_blocks_since`, with `send` standing for whether sending a
     * block to an address completed without a panic: returns the new
     * watermark and the sends attempted, in order.
     */
    method TrySendNewBlocksSince(start: Option<nat>, send: (Block, string) -> bool)
      returns (watermark: Option<nat>, attempts: seq<(Block, string)>)
      ensures watermark == NextWatermark(GetNewBlocksSince(database.blocks, start))
      ensures attempts == SendRound(GetNewBlocksSince(database.blocks, start), peerAddresses, send)
    {
      var all := database.GetAllBlocks();
      var newBlocks := GetNewBlocksSince(all, start);
      attempts := [];
      var i := 0;
      while i < |newBlocks|
        invariant 0 <= i <= |newBlocks|
        invariant attempts + SendRound(newBlocks[i..], peerAddresses, send) == SendRound(newBlocks, peerAddresses, send)
      {
        var block := newBlocks[i];
        assert newBlocks[i..][1..] == newBlocks[i + 1..];
        var sent := SendToPeers(block, send);
        attempts := attempts + sent;
        i := i + 1;
      }
      watermark := NextWatermark(newBlocks);
    }

    /** One pass of `start`'s loop: pull from every peer, then push from the watermark on. */
    method SyncCycle(lastSent: Option<nat>, fetch: string -> seq<Block>, send: (Block, string) -> bool)
      returns (nextSent: Option<nat>, attempts: seq<(Block, string)>)
      modifies database, database.mempool
      ensures database.State() == ReceiveAll(old(database.State()), database.validateBlock, peerAddresses, fetch)
      ensures nextSent == NextWatermark(GetNewBlocksSince(database.blocks, lastSent))
      ensures attempts == SendRound(GetNewBlocksSince(database.blocks, lastSent), peerAddresses, send)
    {
      TryReceiveNewBlocks(fetch);
      nextSent, attempts := TrySendNewBlocksSince(lastSent, send);
    }
  }
}
