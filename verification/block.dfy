/**
 * The block record, its seal (the hash over the block with the `hash` field
 * cleared), and the template a node hands to miners.
 */
module Blocks {
  import opened Types
  import opened Hash

  datatype Block = Block(
    index: nat,
    timestamp: int,
    nonce: nat,
    previousHash: ConsensusHash,
    hash: ConsensusHash,
    transactions: seq<Transaction>)

  /** The canonical binary encoding of a block (bincode); uninterpreted. */
  const EncodeBlock: Block -> seq<Byte>

  /** The canonical binary encoding of the network parameters (bincode); uninterpreted. */
  const EncodeNetwork: Network -> seq<Byte>

  /** `Network::consensus_hash`. */
  function NetworkHash(network: Network): ConsensusHash
  {
    Digest(EncodeNetwork(network))
  }

  /** `Block::calculate_hash`: the digest of a copy whose `hash` is the default. */
  function CalculateHash(b: Block): ConsensusHash
  {
    Digest(EncodeBlock(b.(hash := DefaultHash)))
  }

  /** A block is sealed when its `hash` field is the hash of its other fields. */
  predicate IsSealed(b: Block)
  {
    b.hash == CalculateHash(b)
  }

  /** The current `hash` field plays no part in the hash. */
  lemma CalculateHashIgnoresHash(b: Block, other: ConsensusHash)
    ensures CalculateHash(b.(hash := other)) == CalculateHash(b)
  {
    assert b.(hash := other).(hash := DefaultHash) == b.(hash := DefaultHash);
  }

  /**
   * Resealing any block gives a sealed block that differs only in `hash`:
   * setting `hash := calculate_hash()` is idempotent.
   */
  function Seal(b: Block): (r: Block)
    ensures IsSealed(r)
    ensures r.(hash := b.hash) == b
  {
    CalculateHashIgnoresHash(b, CalculateHash(b));
    b.(hash := CalculateHash(b))
  }

  /**
   * `Block::new`: stores the given fields, takes `now` as the timestamp
   * (the wall clock in the source) and seals the block.
   */
  function NewBlock(index: nat, nonce: nat, previousHash: ConsensusHash,
                    transactions: seq<Transaction>, now: int): (b: Block)
    ensures b.index == index && b.nonce == nonce && b.previousHash == previousHash
    ensures b.transactions == transactions && b.timestamp == now
    ensures IsSealed(b)
  {
    Seal(Block(index, now, nonce, previousHash, DefaultHash, transactions))
  }

  /**
   * `Block::new_template`: extends the tip, or starts from the network hash
   * when there is no tip, with nonce 0 and the mempool snapshot.
   */
  function NewTemplate(tip: Option<Block>, network: Network,
                       mempool: seq<Transaction>, now: int): (b: Block)
    ensures tip.Some? ==> b.index == tip.value.index + 1 && b.previousHash == tip.value.hash
    ensures tip.None? ==> b.index == 0 && b.previousHash == NetworkHash(network)
    ensures b.nonce == 0 && b.transactions == mempool && b.timestamp == now
    ensures IsSealed(b)
  {
    match tip
    case Some(t) => NewBlock(t.index + 1, 0, t.hash, mempool, now)
    case None => NewBlock(0, 0, NetworkHash(network), mempool, now)
  }
}
