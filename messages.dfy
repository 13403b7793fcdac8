/**
 * The messages that travel between the three services: the transfer item on
 * the transaction queue and the audit event on the log queue, together with
 * the fixed status and error texts the services put into them.
 *
 * The Go sources declare these records once per service (worker, api and
 * logger each have their own copy); their fields agree, so one declaration
 * serves all three here. Amounts are integers throughout.
 */
module Messages {

  /** A transfer work item: `TransactionRequest` in the api and the worker. */
  datatype TransferRequest = TransferRequest(
    id: string,
    from: int,
    to: int,
    amount: int)

  /** An audit event: `TransactionLog` in the api, `TransActionLog` in the worker and the logger. */
  datatype AuditEvent = AuditEvent(
    id: string,
    sender: int,
    receiver: int,
    amount: int,
    status: string)

  /** Status the api publishes when it accepts a request (note the capital P). */
  const Pending: string := "Pending"

  /** Status the worker publishes once both updates have run. */
  const Successful: string := "successful"

  /** Error text, and status, of a transfer the sender cannot cover. */
  const NotEnoughMoney: string := "not enough money"

  /** Text of the database driver's error for a query that returns no row. */
  const NoRows: string := "sql: no rows in result set"

  /**
   * The audit event that describes `req` with the given status: the
   * request's `from` and `to` become the event's sender and receiver.
   */
  function EventFor(req: TransferRequest, status: string): (ev: AuditEvent)
    ensures ev.id == req.id && ev.amount == req.amount && ev.status == status
    ensures ev.sender == req.from && ev.receiver == req.to
  {
    AuditEvent(req.id, req.from, req.to, req.amount, status)
  }
}
