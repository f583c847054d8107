/**
 * Plain value types shared by both revisions of the blockchain: bytes,
 * addresses, coins, transactions, the network parameters, and the error
 * taxonomy that block validation reports.
 */
module Types {

  /** An unsigned 8-bit value. */
  type Byte = x: int | 0 <= x < 256

  datatype Option<+T> = None | Some(value: T)

  datatype Result<+T, +E> = Ok(value: T) | Err(error: E)

  /** An account identifier: an opaque byte string. */
  type Address = seq<Byte>

  /**
   * `Address::default()`, the sender of every coinbase transaction. Its
   * concrete value is fixed but not known to the model.
   */
  const NullAddress: Address

  /** An amount of coins (a `u64` in the source; see README, Left out). */
  type Coin = nat

  /**
   * A transfer of `amount` coins. The newer revision spells the second field
   * `reciever`, the older one `recipient`; the model uses `recipient`.
   */
  datatype Transaction = Transaction(sender: Address, recipient: Address, amount: Coin)

  /** Network parameters; both are hashed into the genesis template of the newer revision. */
  datatype Network = Network(difficulty: nat, timestamp: int)

  /** The reasons a block is refused by the chain. */
  datatype ChainError =
    | InvalidIndex
    | InvalidPreviousHash
    | InvalidHash
    | InvalidDifficulty
    | CoinbaseTransactionNotFound
    | InvalidCoinbaseAmount
    | InsufficientFunds
}
