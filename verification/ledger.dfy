/**
 * The account balance store that both revisions update (`AccountBalanceMap`
 * in the older one, `AccountDatabase` in the newer one). Neither store's
 * source is part of this model; it is modelled from how the chain code uses
 * it: a missing account holds 0, crediting cannot fail, and a transfer fails
 * when the sender cannot cover the amount.
 */
module Ledger {
  import opened Types

  /** The coins every coinbase transaction must create (`BLOCK_SUBSIDY`). */
  const BlockSubsidy: Coin := 100

  type Balances = map<Address, nat>

  function Balance(m: Balances, a: Address): nat
  {
    if a in m then m[a] else 0
  }

  /** `add_amount` / `add_funds`: credits `a`, creating the account if needed. */
  function AddAmount(m: Balances, a: Address, amount: Coin): (r: Balances)
    ensures Balance(r, a) == Balance(m, a) + amount
  {
    m[a := Balance(m, a) + amount]
  }

  /** Crediting an account leaves every other account as it was. */
  lemma AddAmountOthers(m: Balances, a: Address, amount: Coin)
    ensures forall x :: x != a ==> Balance(AddAmount(m, a, amount), x) == Balance(m, x)
  {
  }

  /**
   * `transfer`: refused with `InsufficientFunds` when the sender holds less
   * than `amount`; otherwise debits the sender and credits the recipient.
   */
  function Transfer(m: Balances, sender: Address, recipient: Address, amount: Coin)
    : (r: Result<Balances, ChainError>)
    ensures r.Err? <==> Balance(m, sender) < amount
    ensures r.Err? ==> r.error == InsufficientFunds
    ensures r.Ok? && sender != recipient ==>
      Balance(r.value, sender) == Balance(m, sender) - amount &&
      Balance(r.value, recipient) == Balance(m, recipient) + amount
    ensures r.Ok? && sender == recipient ==> Balance(r.value, sender) == Balance(m, sender)
  {
    if Balance(m, sender) < amount then Err(InsufficientFunds)
    else Ok(AddAmount(m[sender := Balance(m, sender) - amount], recipient, amount))
  }

  /** A transfer touches only the sender's and the recipient's accounts. */
  lemma TransferOthers(m: Balances, sender: Address, recipient: Address, amount: Coin)
    requires Transfer(m, sender, recipient, amount).Ok?
    ensures forall x :: x != sender && x != recipient ==>
      Balance(Transfer(m, sender, recipient, amount).value, x) == Balance(m, x)
  {
  }

  // ---------------------------------------------------------------------
  // The sum of all balances
  // ---------------------------------------------------------------------

  ghost function Total(m: Balances): nat
    decreases |m|
  {
    if m == map[] then 0
    else
      var a :| a in m;
      m[a] + Total(m - {a})
  }

  /** Any account can be taken out first when summing. */
  lemma {:induction false} TotalRemove(m: Balances, a: Address)
    requires a in m
    ensures Total(m) == m[a] + Total(m - {a})
    decreases |m|
  {
    var b :| b in m && Total(m) == m[b] + Total(m - {b});
    if b != a {
      TotalRemove(m - {b}, a);
      TotalRemove(m - {a}, b);
      assert m - {b} - {a} == m - {a} - {b};
    }
  }

  /** Setting one balance changes the sum by the difference. */
  lemma TotalUpdate(m: Balances, a: Address, v: nat)
    ensures Total(m[a := v]) + Balance(m, a) == Total(m) + v
  {
    TotalRemove(m[a := v], a);
    if a in m {
      TotalRemove(m, a);
      assert m[a := v] - {a} == m - {a};
    } else {
      assert m[a := v] - {a} == m;
    }
  }

  /** Crediting creates exactly `amount` coins. */
  lemma TotalAddAmount(m: Balances, a: Address, amount: Coin)
    ensures Total(AddAmount(m, a, amount)) == Total(m) + amount
  {
    TotalUpdate(m, a, Balance(m, a) + amount);
  }

  /** A transfer moves coins and creates none. */
  lemma TotalTransfer(m: Balances, sender: Address, recipient: Address, amount: Coin)
    requires Transfer(m, sender, recipient, amount).Ok?
    ensures Total(Transfer(m, sender, recipient, amount).value) == Total(m)
  {
    var debited := m[sender := Balance(m, sender) - amount];
    TotalUpdate(m, sender, Balance(m, sender) - amount);
    TotalAddAmount(debited, recipient, amount);
  }

  // ---------------------------------------------------------------------
  // Transfers applied in list order
  // ---------------------------------------------------------------------

  /**
   * The effect of applying transfers one after another: the balances after
   * the last transfer that succeeded, and the error of the first one that
   * failed, if any.
   */
  datatype Run = Run(balances: Balances, failure: Option<ChainError>)

  /** Transfers in list order, each against the balances left by the ones before it. */
  function TransferRun(m: Balances, txs: seq<Transaction>): Run
    decreases |txs|
  {
    if |txs| == 0 then Run(m, None)
    else
      match Transfer(m, txs[0].sender, txs[0].recipient, txs[0].amount)
      case Err(e) => Run(m, Some(e))
      case Ok(next) => TransferRun(next, txs[1..])
  }

  /** Whatever the outcome, the balances left behind hold the same coins. */
  lemma {:induction false} TransferRunConserves(m: Balances, txs: seq<Transaction>)
    ensures Total(TransferRun(m, txs).balances) == Total(m)
    decreases |txs|
  {
    if |txs| > 0 {
      var t := txs[0];
      if Transfer(m, t.sender, t.recipient, t.amount).Ok? {
        TotalTransfer(m, t.sender, t.recipient, t.amount);
        TransferRunConserves(Transfer(m, t.sender, t.recipient, t.amount).value, txs[1..]);
      }
    }
  }

  /**
   * The first transfer the running balances cannot cover ends the run: what
   * remains is the effect of the transfers before it, and the error is
   * `InsufficientFunds`.
   */
  lemma {:induction false} TransferRunStopsAtFirstFailure(m: Balances, txs: seq<Transaction>)
    requires TransferRun(m, txs).failure.Some?
    ensures TransferRun(m, txs).failure == Some(InsufficientFunds)
    ensures exists k :: (0 <= k < |txs| &&
                         TransferRun(m, txs[..k]) == Run(TransferRun(m, txs).balances, None) &&
                         Balance(TransferRun(m, txs).balances, txs[k].sender) < txs[k].amount)
    decreases |txs|
  {
    var t := txs[0];
    match Transfer(m, t.sender, t.recipient, t.amount)
    case Err(e) =>
      assert TransferRun(m, txs[..0]) == Run(m, None);
    case Ok(next) =>
      var rest := txs[1..];
      assert TransferRun(m, txs) == TransferRun(next, rest);
      TransferRunStopsAtFirstFailure(next, rest);
      var k :| 0 <= k < |rest| &&
        TransferRun(next, rest[..k]) == Run(TransferRun(next, rest).balances, None) &&
        Balance(TransferRun(next, rest).balances, rest[k].sender) < rest[k].amount;
      var prefix := txs[..k + 1];
      assert prefix[0] == t && prefix[1..] == rest[..k];
      assert TransferRun(m, prefix) == TransferRun(next, rest[..k]);
      assert txs[k + 1] == rest[k];
  }

  function SumAmounts(txs: seq<Transaction>): nat
  {
    if |txs| == 0 then 0 else txs[0].amount + SumAmounts(txs[1..])
  }

  /**
   * Several transfers from one sender to other accounts are all accepted
   * exactly when the sender's balance covers their sum, and then the sender
   * is debited by that sum.
   */
  lemma {:induction false} SameSenderRun(m: Balances, a: Address, txs: seq<Transaction>)
    requires forall i :: 0 <= i < |txs| ==> txs[i].sender == a && txs[i].recipient != a
    ensures TransferRun(m, txs).failure.None? <==> SumAmounts(txs) <= Balance(m, a)
    ensures TransferRun(m, txs).failure.None? ==>
      Balance(TransferRun(m, txs).balances, a) == Balance(m, a) - SumAmounts(txs)
    decreases |txs|
  {
    if |txs| > 0 {
      var t := txs[0];
      if Balance(m, a) >= t.amount {
        var next := Transfer(m, t.sender, t.recipient, t.amount).value;
        SameSenderRun(next, a, txs[1..]);
      }
    }
  }
}
