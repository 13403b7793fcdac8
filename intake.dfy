/**
 * Request intake: the `POST /transfer` handler in api/main.go.
 *
 * The handler decodes the body, refuses a non-positive amount, replaces any
 * client-supplied id with a fresh one, publishes a "Pending" audit event to
 * the log queue and then the transfer item to the transaction queue, and
 * answers 202 Accepted. Each publish failure ends the request with 500; a
 * failure of the second publish leaves the first one's event in place.
 *
 * The fresh id (a UUID in the code) and the broker's answers are parameters.
 */
module Intake {
  import opened Wrappers
  import opened Messages

  const StatusAccepted: int := 202
  const StatusBadRequest: int := 400
  const StatusInternalServerError: int := 500

  /** Whether the broker takes each of the two publishes. */
  datatype PublishScript = PublishScript(auditPublished: bool, transferPublished: bool)

  /**
   * The handler's answer (status code and body text; an error text ends in
   * a newline, as the standard library's error reply writes it) and the
   * messages it left on the log queue and on the transaction queue.
   */
  datatype Response = Response(
    code: int,
    text: string,
    audit: seq<AuditEvent>,
    transfers: seq<TransferRequest>)

  /**
   * What one request does. `body` is the decoded payload, `None` when it
   * does not decode.
   */
  function Accept(body: Option<TransferRequest>, freshId: string, s: PublishScript): (r: Response)
    ensures r.code == StatusBadRequest <==> body.None? || body.value.amount <= 0
    ensures r.code == StatusAccepted <==>
      body.Some? && body.value.amount > 0 && s.auditPublished && s.transferPublished
    ensures r.code in {StatusAccepted, StatusBadRequest, StatusInternalServerError}
    ensures r.transfers != [] ==> r.audit != []
    ensures r.code == StatusAccepted <==> r.transfers != []
  {
    match body
    case None => Response(StatusBadRequest, "Invalid request payload\n", [], [])
    case Some(req) =>
      if req.amount <= 0 then Response(StatusBadRequest, "Invalid amount\n", [], [])
      else
        var stamped := req.(id := freshId);
        var ev := EventFor(stamped, Pending);
        if !s.auditPublished then
          Response(StatusInternalServerError, "Failed to queue request\n", [], [])
        else if !s.transferPublished then
          Response(StatusInternalServerError, "Failed to queue request\n", [ev], [])
        else
          Response(StatusAccepted, "Transaction queued successfully", [ev], [stamped])
  }

  /** A payload that does not decode, or an amount of zero or less, is refused with 400 and publishes nothing. */
  lemma AcceptRejectsInvalid(body: Option<TransferRequest>, freshId: string, s: PublishScript)
    requires body.None? || body.value.amount <= 0
    ensures Accept(body, freshId, s).code == StatusBadRequest
    ensures Accept(body, freshId, s).audit == [] && Accept(body, freshId, s).transfers == []
  {
  }

  /**
   * Everything published carries the fresh id, never the client's; the
   * audit event and the transfer item agree on id, sender, receiver and
   * amount, and the event's status is exactly "Pending".
   */
  lemma AcceptStampsFreshId(req: TransferRequest, freshId: string, s: PublishScript)
    ensures var r := Accept(Some(req), freshId, s);
      && (forall ev :: ev in r.audit ==>
            ev == AuditEvent(freshId, req.from, req.to, req.amount, Pending))
      && (forall t :: t in r.transfers ==>
            t == TransferRequest(freshId, req.from, req.to, req.amount))
      && (r.transfers != [] ==> r.audit == [EventFor(r.transfers[0], Pending)])
  {
  }

  /**
   * The audit event goes first. If its publish fails the answer is 500 and
   * the transfer is never published; if the transfer publish fails the
   * answer is 500 and the "Pending" event already published stays queued.
   */
  lemma AcceptPublishOrder(req: TransferRequest, freshId: string, s: PublishScript)
    requires req.amount > 0
    ensures var r := Accept(Some(req), freshId, s);
      && (!s.auditPublished ==>
            r.code == StatusInternalServerError && r.audit == [] && r.transfers == [])
      && (s.auditPublished && !s.transferPublished ==>
            r.code == StatusInternalServerError && |r.audit| == 1 && r.transfers == [])
      && (s.auditPublished && s.transferPublished ==>
            r.code == StatusAccepted && |r.audit| == 1 && |r.transfers| == 1)
  {
  }

  /** Every transfer item the api publishes has a positive amount. */
  lemma AcceptPublishesPositiveAmounts(body: Option<TransferRequest>, freshId: string, s: PublishScript)
    ensures forall t :: t in Accept(body, freshId, s).transfers ==> t.amount > 0
  {
  }

  /** The api process: the two queues it publishes to. */
  class TransferApi {
    var logQueue: seq<AuditEvent>
    var transactionQueue: seq<TransferRequest>

    constructor ()
      ensures logQueue == [] && transactionQueue == []
    {
      logQueue := [];
      transactionQueue := [];
    }

    /** The `POST /transfer` handler. */
    method PostTransfer(body: Option<TransferRequest>, freshId: string, s: PublishScript)
      returns (code: int, text: string)
      modifies this
      ensures var r := Accept(body, freshId, s);
        && code == r.code && text == r.text
        && logQueue == old(logQueue) + r.audit
        && transactionQueue == old(transactionQueue) + r.transfers
    {
      if body.None? {
        return StatusBadRequest, "Invalid request payload\n";
      }
      var req := body.value;
      if req.amount <= 0 {
        return StatusBadRequest, "Invalid amount\n";
      }
      req := req.(id := freshId);

      var logReq := AuditEvent(req.id, req.from, req.to, req.amount, Pending);
      if !s.auditPublished {
        return StatusInternalServerError, "Failed to queue request\n";
      }
      logQueue := logQueue + [logReq];

      if !s.transferPublished {
        return StatusInternalServerError, "Failed to queue request\n";
      }
      transactionQueue := transactionQueue + [req];

      return StatusAccepted, "Transaction queued successfully";
    }
  }
}
