/**
 * The `clients` table as the worker sees it: account id to balance, and the
 * meaning of the two UPDATE statements it issues. Also the sum of all
 * balances, the quantity a transfer must conserve.
 */
module Ledger {

  type Balances = map<int, int>

  /**
   * `UPDATE clients SET balance = balance + delta WHERE id = account`.
   * An UPDATE that matches no row is not an error: it changes nothing.
   */
  function ApplyUpdate(b: Balances, account: int, delta: int): (b': Balances)
    ensures b'.Keys == b.Keys
    ensures account in b ==> b'[account] == b[account] + delta
    ensures account !in b ==> b' == b
    ensures forall k :: k in b && k != account ==> b'[k] == b[k]
  {
    if account in b then b[account := b[account] + delta] else b
  }

  /** Every account holds a non-negative balance. */
  predicate AllNonNegative(b: Balances)
  {
    forall k :: k in b ==> b[k] >= 0
  }

  /** A table with at least one row has an account to take out of it. */
  lemma HasAccount(b: Balances)
    requires b != map[]
    ensures exists k :: k in b
  {
    if forall k :: k !in b {
      assert false;
    }
  }

  /** The sum of all balances. */
  ghost function Total(b: Balances): int
    decreases |b|
  {
    if b == map[] then 0
    else
      HasAccount(b);
      var k :| k in b;
      b[k] + Total(b - {k})
  }

  /** The sum does not depend on which account is taken out first. */
  lemma {:induction false} TotalRemove(b: Balances, k: int)
    requires k in b
    ensures Total(b) == b[k] + Total(b - {k})
    decreases |b|
  {
    var j :| j in b && Total(b) == b[j] + Total(b - {j});
    if j != k {
      TotalRemove(b - {j}, k);
      TotalRemove(b - {k}, j);
      assert b - {j} - {k} == b - {k} - {j};
    }
  }

  /** An UPDATE changes the sum by `delta` when its row exists, and not at all otherwise. */
  lemma TotalApplyUpdate(b: Balances, account: int, delta: int)
    ensures Total(ApplyUpdate(b, account, delta)) == Total(b) + (if account in b then delta else 0)
  {
    if account in b {
      var b' := ApplyUpdate(b, account, delta);
      TotalRemove(b, account);
      TotalRemove(b', account);
      assert b' - {account} == b - {account};
    }
  }

  /** A debit of one existing row followed by a credit of the same amount to an existing row keeps the sum. */
  lemma TransferConserves(b: Balances, from: int, to: int, amount: int)
    requires from in b && to in b
    ensures Total(ApplyUpdate(ApplyUpdate(b, from, -amount), to, amount)) == Total(b)
  {
    var debited := ApplyUpdate(b, from, -amount);
    TotalApplyUpdate(b, from, -amount);
    TotalApplyUpdate(debited, to, amount);
  }

  /** Balances left alone, or moved by one such transfer, have the same sum. */
  lemma TotalKeptOrTransferred(b: Balances, b': Balances, from: int, to: int, amount: int)
    requires from in b && to in b
    requires b' == b || b' == ApplyUpdate(ApplyUpdate(b, from, -amount), to, amount)
    ensures Total(b') == Total(b)
  {
    if b' != b {
      TransferConserves(b, from, to, amount);
    }
  }
}
