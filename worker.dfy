/**
 * The settlement worker: `processTransaction` and `sendLog` in worker/main.go.
 *
 * A transfer runs inside one store transaction: read the sender's balance,
 * refuse when it is below the amount, otherwise debit the sender and credit
 * the receiver, send the "successful" audit event and commit. Every failure
 * between `Begin` and the commit rolls back and sends one audit event whose
 * status is the error text. The worker never reads the `transactions` table,
 * so nothing stops a redelivered request from being applied again.
 *
 * The outcome of each store call and of the audit publish is not computed by
 * the worker: a `StoreScript` supplies them, so that every path of the code
 * can be reached.
 */
module Worker {
  import opened Wrappers
  import opened Messages
  import opened Ledger

  /**
   * What the database and the broker answer during one call. `None` is
   * success; `Some(e)` is a failure with error text `e`. A missing sender row
   * is not scripted: it follows from the balance table.
   */
  datatype StoreScript = StoreScript(
    begin: Option<string>,
    select: Option<string>,
    debit: Option<string>,
    credit: Option<string>,
    commit: Option<string>,
    logPublished: bool)

  /** The script in which every store call and the publish succeed. */
  function Healthy(): StoreScript
  {
    StoreScript(None, None, None, None, None, true)
  }

  /**
   * What one call does: the committed balances afterwards, the status of the
   * audit event it sends (`None` when it sends none) and the error it returns.
   */
  datatype Settlement = Settlement(
    balances: Balances,
    status: Option<string>,
    err: Option<string>)

  /** A call that rolls back: balances as they were, one event with the error text. */
  function RolledBack(b: Balances, e: string): Settlement
  {
    Settlement(b, Some(e), Some(e))
  }

  /** The effect of `processTransaction` on committed state. */
  function Settle(b: Balances, req: TransferRequest, s: StoreScript): (r: Settlement)
    ensures r.err.Some? ==> r.balances == b
    ensures r.status.None? <==> s.begin.Some?
    ensures r.status.Some? ==> r.status == Some(Successful) || r.status == r.err
    ensures r.err.None? <==>
      && s.begin.None? && s.select.None? && req.from in b && b[req.from] >= req.amount
      && s.debit.None? && s.credit.None? && s.commit.None?
  {
    if s.begin.Some? then Settlement(b, None, s.begin)
    else if s.select.Some? then RolledBack(b, s.select.value)
    else if req.from !in b then RolledBack(b, NoRows)
    else if b[req.from] < req.amount then RolledBack(b, NotEnoughMoney)
    else if s.debit.Some? then RolledBack(b, s.debit.value)
    else if s.credit.Some? then RolledBack(b, s.credit.value)
    else if s.commit.Some? then Settlement(b, Some(Successful), s.commit)
    else
      var debited := ApplyUpdate(b, req.from, -req.amount);
      Settlement(ApplyUpdate(debited, req.to, req.amount), Some(Successful), None)
  }

  /**
   * The audit events a call leaves on the log queue: at most one, present
   * exactly when the call sent an event and the broker took it, and then
   * the request described with the call's status.
   */
  function Emitted(req: TransferRequest, r: Settlement, s: StoreScript): (evs: seq<AuditEvent>)
    ensures |evs| <= 1
    ensures evs != [] <==> r.status.Some? && s.logPublished
    ensures forall ev :: ev in evs ==> r.status.Some? && ev == EventFor(req, r.status.value)
  {
    if r.status.Some? && s.logPublished then [EventFor(req, r.status.value)] else []
  }

  /**
   * On success the sender loses exactly `amount`, the receiver (when its row
   * exists) gains exactly `amount`, and no other account changes. The balance
   * check leaves the sender at zero or above.
   */
  lemma SettleSuccess(b: Balances, req: TransferRequest, s: StoreScript)
    requires Settle(b, req, s).err.None?
    ensures var b' := Settle(b, req, s).balances;
      && b'.Keys == b.Keys
      && (req.from != req.to ==> b'[req.from] == b[req.from] - req.amount >= 0)
      && (req.from != req.to && req.to in b ==> b'[req.to] == b[req.to] + req.amount)
      && (req.from == req.to ==> b'[req.from] == b[req.from])
      && (forall k :: k in b && k != req.from && k != req.to ==> b'[k] == b[k])
  {
  }

  /**
   * When both rows exist the sum of all balances is the same after the call,
   * whatever the outcome and also for a transfer to oneself.
   */
  lemma SettleConserves(b: Balances, req: TransferRequest, s: StoreScript)
    requires req.from in b && req.to in b
    ensures Total(Settle(b, req, s).balances) == Total(b)
  {
    SettleMovesOrKeeps(b, req, s);
    TotalKeptOrTransferred(b, Settle(b, req, s).balances, req.from, req.to, req.amount);
  }

  /** A call either leaves the balances alone or applies both updates. */
  lemma SettleMovesOrKeeps(b: Balances, req: TransferRequest, s: StoreScript)
    ensures var b' := Settle(b, req, s).balances;
      b' == b || b' == ApplyUpdate(ApplyUpdate(b, req.from, -req.amount), req.to, req.amount)
  {
  }

  /**
   * The credit UPDATE matches no row when the receiver does not exist, and
   * that is not an error: the sender is debited, nobody is credited, and the
   * sum of balances drops by `amount`.
   */
  lemma SettleMissingReceiverLosesMoney(b: Balances, req: TransferRequest, s: StoreScript)
    requires req.to !in b
    requires Settle(b, req, s).err.None?
    ensures Settle(b, req, s).balances == b[req.from := b[req.from] - req.amount]
    ensures Total(Settle(b, req, s).balances) == Total(b) - req.amount
  {
    TotalApplyUpdate(b, req.from, -req.amount);
  }

  /**
   * A sender whose balance is below the amount: balances unchanged, the
   * error "not enough money" returned and sent as the event's status.
   */
  lemma SettleInsufficientFunds(b: Balances, req: TransferRequest, s: StoreScript)
    requires s.begin.None? && s.select.None?
    requires req.from in b && b[req.from] < req.amount
    ensures Settle(b, req, s) == Settlement(b, Some(NotEnoughMoney), Some(NotEnoughMoney))
  {
  }

  /** A missing sender row: balances unchanged, the driver's no-rows text returned and sent. */
  lemma SettleMissingSender(b: Balances, req: TransferRequest, s: StoreScript)
    requires s.begin.None? && s.select.None?
    requires req.from !in b
    ensures Settle(b, req, s) == Settlement(b, Some(NoRows), Some(NoRows))
  {
  }

  /**
   * A store failure ends the call with that failure's own error text and no
   * change of balance: a `Begin` failure sends no event, a later one sends
   * its error text as the event's status.
   */
  lemma SettleStoreFailure(b: Balances, req: TransferRequest, s: StoreScript)
    ensures var r := Settle(b, req, s);
      && (s.begin.Some? ==> r == Settlement(b, None, s.begin))
      && (s.begin.None? && s.select.Some? ==> r == Settlement(b, s.select, s.select))
      && (s.begin.None? && s.select.None? && req.from in b && b[req.from] >= req.amount ==>
            && (s.debit.Some? ==> r == Settlement(b, s.debit, s.debit))
            && (s.debit.None? && s.credit.Some? ==> r == Settlement(b, s.credit, s.credit)))
  {
  }

  /** A balance exactly equal to the amount passes the check and leaves the sender at zero. */
  lemma SettleExactBalance(b: Balances, req: TransferRequest)
    requires req.from in b && req.from != req.to && b[req.from] == req.amount
    ensures Settle(b, req, Healthy()).err.None?
    ensures Settle(b, req, Healthy()).balances[req.from] == 0
  {
  }

  /**
   * With a non-negative amount no balance goes negative. The balance check
   * alone already keeps the sender at or above zero, whatever the amount.
   */
  lemma SettleKeepsNonNegative(b: Balances, req: TransferRequest, s: StoreScript)
    requires AllNonNegative(b) && req.amount >= 0
    ensures AllNonNegative(Settle(b, req, s).balances)
  {
  }

  /**
   * The worker does not check the amount's sign (only the api does): an item
   * with a negative amount that reaches the queue lets the sender take money
   * from the receiver and can drive the receiver's balance below zero.
   */
  lemma SettleNegativeAmountDrainsReceiver(b: Balances, req: TransferRequest)
    requires req.from in b && req.to in b && req.from != req.to
    requires b[req.from] >= 0 && req.amount < 0
    ensures Settle(b, req, Healthy()).err.None?
    ensures Settle(b, req, Healthy()).balances[req.to] == b[req.to] + req.amount
    ensures b[req.to] < -req.amount ==> Settle(b, req, Healthy()).balances[req.to] < 0
  {
  }

  /**
   * No transaction record is consulted: delivering the same request twice
   * settles it twice.
   */
  lemma SettleRedeliveryAppliesTwice(b: Balances, req: TransferRequest)
    requires req.from in b && req.to in b && req.from != req.to
    requires b[req.from] >= 2 * req.amount && req.amount >= 0
    ensures var once := Settle(b, req, Healthy());
      var twice := Settle(once.balances, req, Healthy());
      && once.err.None? && twice.err.None?
      && twice.balances[req.from] == b[req.from] - 2 * req.amount
      && twice.balances[req.to] == b[req.to] + 2 * req.amount
  {
  }

  /**
   * The "successful" event is sent before `Commit`: when the commit reports
   * an error the call returns it and (the commit being taken as rolled back)
   * leaves the balances alone, yet the event on the log queue says
   * "successful".
   */
  lemma SettleCommitFailureReportsSuccess(b: Balances, req: TransferRequest, s: StoreScript)
    requires s.begin.None? && s.select.None? && s.debit.None? && s.credit.None?
    requires req.from in b && b[req.from] >= req.amount
    requires s.commit.Some? && s.logPublished
    ensures Settle(b, req, s).balances == b
    ensures Settle(b, req, s).err == s.commit
    ensures Emitted(req, Settle(b, req, s), s) == [EventFor(req, Successful)]
  {
  }

  /**
   * A call that gets past `Begin` sends exactly one event (when the broker
   * takes it) carrying the request's id, sender, receiver and amount; a
   * `Begin` failure sends none.
   */
  lemma SettleEmitsOneEvent(b: Balances, req: TransferRequest, s: StoreScript)
    ensures var evs := Emitted(req, Settle(b, req, s), s);
      && (s.begin.Some? || !s.logPublished ==> evs == [])
      && (s.begin.None? && s.logPublished ==>
            |evs| == 1 && evs[0].id == req.id && evs[0].sender == req.from
            && evs[0].receiver == req.to && evs[0].amount == req.amount)
  {
  }

  /**
   * The worker process: the committed `clients` balances and the log queue
   * it publishes audit events to.
   */
  class SettlementWorker {
    var balances: Balances
    var logQueue: seq<AuditEvent>

    constructor (initial: Balances)
      ensures balances == initial && logQueue == []
    {
      balances := initial;
      logQueue := [];
    }

    /**
     * `sendLog`: build the audit event from the request and publish it. A
     * publish error is ignored, so the event is then silently lost.
     */
    method SendLog(req: TransferRequest, status: string, published: bool)
      modifies this`logQueue
      ensures logQueue == old(logQueue) + (if published then [EventFor(req, status)] else [])
    {
      var ev := AuditEvent(req.id, req.from, req.to, req.amount, status);
      if published {
        logQueue := logQueue + [ev];
      }
    }

    /**
     * `processTransaction`. The store transaction works on its own copy of
     * the balances; only a successful commit writes the copy back.
     */
    method ProcessTransaction(req: TransferRequest, s: StoreScript) returns (err: Option<string>)
      modifies this
      ensures var r := Settle(old(balances), req, s);
        && balances == r.balances && err == r.err
        && logQueue == old(logQueue) + Emitted(req, r, s)
    {
      if s.begin.Some? {
        return s.begin;
      }
      var tx := balances;

      if s.select.Some? {
        SendLog(req, s.select.value, s.logPublished);
        return s.select;
      }
      if req.from !in tx {
        SendLog(req, NoRows, s.logPublished);
        return Some(NoRows);
      }
      var fromBalance := tx[req.from];
      if fromBalance < req.amount {
        SendLog(req, NotEnoughMoney, s.logPublished);
        return Some(NotEnoughMoney);
      }

      if s.debit.Some? {
        SendLog(req, s.debit.value, s.logPublished);
        return s.debit;
      }
      tx := tx[req.from := tx[req.from] - req.amount];

      if s.credit.Some? {
        SendLog(req, s.credit.value, s.logPublished);
        return s.credit;
      }
      if req.to in tx {
        tx := tx[req.to := tx[req.to] + req.amount];
      }

      SendLog(req, Successful, s.logPublished);

      if s.commit.Some? {
        return s.commit;
      }
      balances := tx;
      return None;
    }
  }
}
