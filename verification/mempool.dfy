/**
 * The node's pool of pending transactions: an ordered list that grows at the
 * end and loses every entry equal to a confirmed transaction.
 */
module Mempools {
  import opened Types

  /**
   * `retain(|t| !confirmed.contains(t))`: the entries of `pool` equal to no
   * element of `confirmed`, in their original order.
   */
  function RemoveConfirmed(pool: seq<Transaction>, confirmed: seq<Transaction>): (r: seq<Transaction>)
    ensures forall t :: t in r <==> t in pool && t !in confirmed
    ensures |r| <= |pool|
  {
    if |pool| == 0 then []
    else if pool[0] in confirmed then RemoveConfirmed(pool[1..], confirmed)
    else [pool[0]] + RemoveConfirmed(pool[1..], confirmed)
  }

  /** Survivors keep their relative order: removal works piece by piece. */
  lemma {:induction false} RemoveConfirmedConcat(a: seq<Transaction>, b: seq<Transaction>, confirmed: seq<Transaction>)
    ensures RemoveConfirmed(a + b, confirmed) == RemoveConfirmed(a, confirmed) + RemoveConfirmed(b, confirmed)
  {
    if |a| > 0 {
      assert (a + b)[0] == a[0] && (a + b)[1..] == a[1..] + b;
      RemoveConfirmedConcat(a[1..], b, confirmed);
      var kept := RemoveConfirmed(a[1..], confirmed);
      var tail := RemoveConfirmed(b, confirmed);
      if a[0] !in confirmed {
        assert RemoveConfirmed(a + b, confirmed) == [a[0]] + (kept + tail);
        assert [a[0]] + (kept + tail) == ([a[0]] + kept) + tail;
      }
    } else {
      assert a + b == b;
    }
  }

  /**
   * Every copy of a confirmed transaction goes, not just one; every other
   * transaction keeps all its copies.
   */
  lemma {:induction false} RemoveConfirmedCount(pool: seq<Transaction>, confirmed: seq<Transaction>, t: Transaction)
    ensures multiset(RemoveConfirmed(pool, confirmed))[t] == if t in confirmed then 0 else multiset(pool)[t]
  {
    if |pool| > 0 {
      RemoveConfirmedCount(pool[1..], confirmed, t);
      assert pool == [pool[0]] + pool[1..];
    }
  }

  /** Removing `c1` and then `c2` removes everything in either. */
  lemma {:induction false} RemoveConfirmedTwice(pool: seq<Transaction>, c1: seq<Transaction>, c2: seq<Transaction>)
    ensures RemoveConfirmed(RemoveConfirmed(pool, c1), c2) == RemoveConfirmed(pool, c1 + c2)
  {
    if |pool| > 0 {
      RemoveConfirmedTwice(pool[1..], c1, c2);
    }
  }

  /** Removing the same transactions a second time changes nothing. */
  lemma RemoveConfirmedIdempotent(pool: seq<Transaction>, confirmed: seq<Transaction>)
    ensures RemoveConfirmed(RemoveConfirmed(pool, confirmed), confirmed) == RemoveConfirmed(pool, confirmed)
  {
    RemoveConfirmedTwice(pool, confirmed, confirmed);
    RemoveConfirmedSameElements(pool, confirmed + confirmed, confirmed);
  }

  /** Only which transactions are confirmed matters, not how often or where they are listed. */
  lemma {:induction false} RemoveConfirmedSameElements(pool: seq<Transaction>, c1: seq<Transaction>, c2: seq<Transaction>)
    requires forall t :: t in c1 <==> t in c2
    ensures RemoveConfirmed(pool, c1) == RemoveConfirmed(pool, c2)
  {
    if |pool| > 0 {
      RemoveConfirmedSameElements(pool[1..], c1, c2);
    }
  }

  /** Removing nothing keeps the pool as it is. */
  lemma {:induction false} RemoveNothing(pool: seq<Transaction>)
    ensures RemoveConfirmed(pool, []) == pool
  {
    if |pool| > 0 {
      RemoveNothing(pool[1..]);
    }
  }

  /** The mempool: `transactions` in insertion order. */
  class Mempool {
    var transactions: seq<Transaction>

    /** `Mempool::default()`: empty. */
    constructor ()
      ensures transactions == []
    {
      transactions := [];
    }

    /** `get_transactions`: a copy of the pending list, in insertion order. */
    method GetTransactions() returns (snapshot: seq<Transaction>)
      ensures snapshot == transactions
    {
      snapshot := transactions;
    }

    /** `add_transaction`: appends at the end; earlier entries are untouched. */
    method AddTransaction(t: Transaction)
      modifies this
      ensures transactions == old(transactions) + [t]
    {
      transactions := transactions + [t];
    }

    /** `remove_transactions`: keeps the entries equal to no confirmed transaction. */
    method RemoveTransactions(confirmed: seq<Transaction>)
      modifies this
      ensures transactions == RemoveConfirmed(old(transactions), confirmed)
    {
      var pool := transactions;
      var kept: seq<Transaction> := [];
      var i := 0;
      while i < |pool|
        invariant 0 <= i <= |pool|
        invariant kept == RemoveConfirmed(pool[..i], confirmed)
      {
        var t := pool[i];
        RemoveConfirmedConcat(pool[..i], [t], confirmed);
        assert pool[..i + 1] == pool[..i] + [t];
        if t !in confirmed {
          kept := kept + [t];
        }
        i := i + 1;
      }
      assert pool[..i] == pool;
      transactions := kept;
    }
  }
}
