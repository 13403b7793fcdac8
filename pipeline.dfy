/**
 * The three services together: what the logger's table ends up saying about
 * a transfer, given the events the api and the worker send for it.
 */
module Pipeline {
  import opened Wrappers
  import opened Messages
  import opened Ledger
  import Worker
  import AuditLog
  import Intake

  /**
   * Every transfer item the api publishes has a positive amount, so settling
   * it keeps all balances non-negative.
   */
  lemma AcceptedTransfersKeepBalancesNonNegative(
    body: Option<TransferRequest>, freshId: string, p: Intake.PublishScript,
    b: Balances, s: Worker.StoreScript)
    requires AllNonNegative(b)
    ensures forall t :: t in Intake.Accept(body, freshId, p).transfers ==>
      AllNonNegative(Worker.Settle(b, t, s).balances)
  {
  }

  /**
   * A commit that reports an error is recorded as a success for good: taking
   * that commit as rolled back, the balances do not move, but the worker's
   * "successful" event, once the logger stores it, outlasts every later
   * event for that id.
   */
  lemma CommitFailureRecordedAsSuccessful(
    b: Balances, req: TransferRequest, commitErr: string, t: AuditLog.Table)
    requires req.from in b && b[req.from] >= req.amount
    requires req.id !in t || t[req.id].status != Successful
    ensures var s := Worker.StoreScript(None, None, None, None, Some(commitErr), true);
      var r := Worker.Settle(b, req, s);
      && r.balances == b && r.err == Some(commitErr)
      && Worker.Emitted(req, r, s) == [EventFor(req, Successful)]
    ensures var t1 := AuditLog.Upsert(t, EventFor(req, Successful), AuditLog.Reliable()).table;
      && req.id in t1 && t1[req.id].status == Successful
      && forall ds :: req.id in AuditLog.ProcessAll(t1, ds)
           && AuditLog.ProcessAll(t1, ds)[req.id].status == Successful
  {
    var t1 := AuditLog.Upsert(t, EventFor(req, Successful), AuditLog.Reliable()).table;
    assert req.id in t1 && t1[req.id].status == Successful;
    forall ds
      ensures req.id in AuditLog.ProcessAll(t1, ds)
      ensures AuditLog.ProcessAll(t1, ds)[req.id].status == Successful
    {
      AuditLog.SuccessfulIsFinal(t1, req.id, ds);
    }
  }

  /**
   * Out-of-order delivery: when the worker's "not enough money" event
   * reaches the logger before the api's "Pending" event for the same
   * transfer, the record ends as "Pending", as if the transfer were still
   * waiting.
   */
  lemma LatePendingHidesFailure(
    b: Balances, req: TransferRequest, t: AuditLog.Table)
    requires req.from in b && b[req.from] < req.amount
    requires req.id !in t
    ensures var failed := Worker.Emitted(req, Worker.Settle(b, req, Worker.Healthy()), Worker.Healthy());
      && failed == [EventFor(req, NotEnoughMoney)]
      && var t1 := AuditLog.Upsert(t, failed[0], AuditLog.Reliable()).table;
      && t1[req.id].status == NotEnoughMoney
      && AuditLog.Upsert(t1, EventFor(req, Pending), AuditLog.Reliable()).table[req.id].status == Pending
  {
  }

  /**
   * Two transfers from account 1 (balance 100) to account 2 (balance 0),
   * each preceded on the log queue by the api's "Pending" event: 40 goes
   * through and its record ends "successful"; 100 is then refused, moves
   * nothing, and its record ends "not enough money".
   */
  lemma TwoTransfersScenario()
    ensures var b := map[1 := 100, 2 := 0];
      var first := TransferRequest("t1", 1, 2, 40);
      var second := TransferRequest("t2", 1, 2, 100);
      var r1 := Worker.Settle(b, first, Worker.Healthy());
      var r2 := Worker.Settle(r1.balances, second, Worker.Healthy());
      var log := [
        AuditLog.Delivery(EventFor(first, Pending), AuditLog.Reliable()),
        AuditLog.Delivery(EventFor(first, r1.status.value), AuditLog.Reliable()),
        AuditLog.Delivery(EventFor(second, Pending), AuditLog.Reliable()),
        AuditLog.Delivery(EventFor(second, r2.status.value), AuditLog.Reliable())];
      && r1 == Worker.Settlement(map[1 := 60, 2 := 40], Some(Successful), None)
      && r2 == Worker.Settlement(map[1 := 60, 2 := 40], Some(NotEnoughMoney), Some(NotEnoughMoney))
      && AuditLog.ProcessAll(map[], log) == map[
           "t1" := AuditLog.Record(1, 2, 40, Successful),
           "t2" := AuditLog.Record(1, 2, 100, NotEnoughMoney)]
  {
    var first := TransferRequest("t1", 1, 2, 40);
    var second := TransferRequest("t2", 1, 2, 100);
    var ok := AuditLog.Reliable();
    var log := [
      AuditLog.Delivery(EventFor(first, Pending), ok),
      AuditLog.Delivery(EventFor(first, Successful), ok),
      AuditLog.Delivery(EventFor(second, Pending), ok),
      AuditLog.Delivery(EventFor(second, NotEnoughMoney), ok)];
    var t0: AuditLog.Table := map[];
    var t1 := t0["t1" := AuditLog.Record(1, 2, 40, Pending)];
    var t2 := t0["t1" := AuditLog.Record(1, 2, 40, Successful)];
    var t3 := t2["t2" := AuditLog.Record(1, 2, 100, Pending)];
    var t4 := t2["t2" := AuditLog.Record(1, 2, 100, NotEnoughMoney)];
    assert AuditLog.Upsert(t0, log[0].event, ok).table == t1;
    assert AuditLog.Upsert(t1, log[1].event, ok).table == t2;
    assert AuditLog.Upsert(t2, log[2].event, ok).table == t3;
    assert AuditLog.Upsert(t3, log[3].event, ok).table == t4;
    assert AuditLog.ProcessAll(t3, log[3..]) == t4 by {
      assert log[3..][1..] == [];
    }
    assert AuditLog.ProcessAll(t2, log[2..]) == t4 by { assert log[2..][1..] == log[3..]; }
    assert AuditLog.ProcessAll(t1, log[1..]) == t4 by { assert log[1..][1..] == log[2..]; }
  }
}
