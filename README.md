# Money-transfer settlement pipeline, modelled in Dafny

This project models the core of a small money-transfer system made of three
Go services that talk through two message queues:

- **api** (`POST /transfer`): validates a transfer request, stamps it with a
  fresh transaction id, publishes a `"Pending"` audit event to the log queue
  and then the transfer item to the transaction queue, and answers
  202 Accepted.
- **worker** (`processTransaction`, `sendLog`): in one database transaction,
  reads the sender's balance, refuses the transfer when the balance is below
  the amount, otherwise debits the sender and credits the receiver, sends a
  `"successful"` audit event and commits. Every failure between `Begin` and
  the commit rolls back and sends one audit event whose status is the error
  text; a failed commit returns its error after the `"successful"` event has
  already been sent.
- **logger** (`processLog`): upserts the `transactions` row keyed by the
  event's id. A row whose status is exactly `"successful"` is never touched
  again; otherwise the row is inserted, or only its status is overwritten.

Each service is a class over its own state (`SettlementWorker`: the balance
map and the log queue; `AuditLogger`: the transaction table; `TransferApi`:
the two queues). Each state-changing method is proved equal to a pure
specification function (`Settle`, `Upsert`, `Accept`), and the properties are
proved as lemmas about those functions. Database and broker answers, which the
code receives from outside, are parameters: a `StoreScript`, `LogScript` or
`PublishScript` says which call fails and with what error text, and the fresh
UUID is a parameter of the handler. A store transaction is modelled as a
local copy of the committed state that only a successful `Commit` writes back.

Files: `wrappers.dfy` (Option), `messages.dfy` (the transfer item, the audit
event, the fixed status texts), `ledger.dfy` (the UPDATE statement and the sum
of balances), `worker.dfy`, `auditlog.dfy`, `intake.dfy`, and `pipeline.dfy`
(properties that involve more than one service).

The model follows the code, including these departures from the expected behaviour:

- The worker reads no transaction record, so it has no guard against a
  redelivered request: `SettleRedeliveryAppliesTwice` shows the transfer
  applied twice.
- The worker takes no row lock (a plain SELECT); only single sequential calls
  are modelled.
- The failure status is the error text (`"not enough money"`, the driver's
  no-rows text, a store error), not a `failed` state with a separate reason.
- The `"successful"` event is sent before `Commit`: when the commit reports
  an error, the event still says `"successful"` (the model takes such a
  commit as rolled back, so the balances do not move)
  (`SettleCommitFailureReportsSuccess`), and the logger then keeps that status
  for good (`CommitFailureRecordedAsSuccessful`).
- The logger protects only `"successful"`; a failure status is overwritten by
  any later event, including a late `"Pending"` (`FailureIsNotFinal`,
  `LatePendingHidesFailure`).
- The credit UPDATE does not fail when the receiver row is missing: the
  sender is debited and nobody is credited (`SettleMissingReceiverLosesMoney`).
  Conservation (`SettleConserves`) is therefore stated for existing sender and
  receiver rows only.
- The worker does not check the sign of the amount; only the api rejects
  amounts of zero or less (`SettleNegativeAmountDrainsReceiver`,
  `AcceptedTransfersKeepBalancesNonNegative`).
- The api publishes the audit event first and the transfer second, and a
  failed second publish leaves the first event queued; nothing is rolled back.

## Model

| member | source | states |
|---|---|---|
| `Ledger.ApplyUpdate` | worker/main.go:181-192 | an UPDATE by id changes only that account's balance, by exactly `delta`, and changes nothing when no row has that id |
| `Ledger.TotalApplyUpdate` | worker/main.go:181-192 | an UPDATE changes the sum of all balances by `delta` when its row exists and leaves it unchanged otherwise |
| `Worker.Settle` | worker/main.go:161-197 | a call that returns an error leaves the committed balances unchanged; no event exactly when `Begin` fails; the event's status is `"successful"` or the returned error text; the call succeeds exactly when every store call succeeds, the sender row exists and its balance is at least the amount |
| `Worker.SettleSuccess` | worker/main.go:181-192 | on success the sender drops by exactly `amount` and stays at zero or above, an existing receiver rises by exactly `amount`, a self-transfer changes nothing, every other account is unchanged and no account appears or disappears |
| `Worker.SettleConserves` | worker/main.go:181-192 | when sender and receiver rows exist, the sum of all balances is unchanged whatever the outcome, self-transfers included |
| `Worker.SettleMissingReceiverLosesMoney` | worker/main.go:187-192 | with no receiver row the transfer still succeeds: only the sender is debited and the sum of balances drops by `amount` |
| `Worker.SettleInsufficientFunds` | worker/main.go:174-179 | a balance below the amount leaves all balances unchanged and returns and sends `"not enough money"` |
| `Worker.SettleMissingSender` | worker/main.go:168-173 | a missing sender row leaves all balances unchanged and returns and sends the driver's no-rows error text |
| `Worker.SettleStoreFailure` | worker/main.go:162-192 | a `Begin` failure changes nothing and sends no event; a failed SELECT, debit or credit changes no balance and returns and sends that failure's own error text |
| `Worker.SettleExactBalance` | worker/main.go:174-192 | a balance equal to the amount passes the check and leaves the sender at zero |
| `Worker.SettleKeepsNonNegative` | worker/main.go:174-192 | with a non-negative amount, non-negative balances stay non-negative under every outcome |
| `Worker.SettleNegativeAmountDrainsReceiver` | worker/main.go:174-192 | the worker accepts a negative amount: the receiver loses it and can go below zero |
| `Worker.SettleRedeliveryAppliesTwice` | worker/main.go:161-197 | no transaction record is consulted: the same request delivered twice debits the sender and credits the receiver twice |
| `Worker.SettleCommitFailureReportsSuccess` | worker/main.go:194-196 | when `Commit` reports an error (taken as rolled back) the balances are unchanged and the error is returned, yet the one event sent says `"successful"` |
| `Worker.SettleEmitsOneEvent` | worker/main.go:137-197 | a call past `Begin` sends exactly one event, carrying the request's id, sender, receiver and amount, when the broker takes it; a `Begin` failure or a lost publish sends none |
| `Messages.EventFor` | worker/main.go:138-144 | the audit event carries the request's id and amount, its `from` as sender, its `to` as receiver, and the given status (the api builds the same literal at api/main.go:92-98) |
| `Worker.Emitted` | worker/main.go:137-159 | a call leaves at most one event on the log queue, exactly when it sent one and the publish succeeded, and that event describes the request with the call's status |
| `Worker.SettlementWorker.SendLog` | worker/main.go:137-159 | appends the event built from the request and the status to the log queue, or nothing when the publish fails (the error is ignored) |
| `Worker.SettlementWorker.ProcessTransaction` | worker/main.go:161-197 | the new balances and the returned error are those of `Settle`, and the log queue grows by exactly the events `Settle` sends |
| `AuditLog.StoredStatus` | logger/main.go:137-143 | the SELECT yields the stored status of the id, or the empty string when no row matches (the no-rows error is not an error there) |
| `AuditLog.InsertOrSetStatus` | logger/main.go:149-152 | the INSERT ... ON CONFLICT adds the event's id to the keys; a new id gets the full row from the event, an existing one only takes the new status; every other row is unchanged |
| `AuditLog.Upsert` | logger/main.go:129-160 | an error leaves the table unchanged; only the event's row can be added or changed; the call succeeds exactly when `Begin` and the SELECT succeed and either the stored status is `"successful"` or the write and the commit succeed |
| `AuditLog.UpsertInsertsWhenAbsent` | logger/main.go:137-152 | an id not yet in the table gets a row with the event's sender, receiver, amount and status |
| `AuditLog.UpsertKeepsSuccessful` | logger/main.go:144-147 | a stored status of exactly `"successful"` leaves the table unchanged and returns no error |
| `AuditLog.UpsertOverwritesStatusOnly` | logger/main.go:149-152 | for any other stored status only the status is overwritten; sender, receiver and amount keep their first-inserted values |
| `AuditLog.UpsertStoreFailure` | logger/main.go:130-159 | a failed `Begin`, SELECT, write or commit leaves the table unchanged and returns that failure's own error; the write and the commit are reached only when the stored status is not `"successful"` |
| `AuditLog.UpsertIdempotent` | logger/main.go:144-152 | processing an event again after it was processed successfully leaves the table as it was |
| `AuditLog.SuccessfulIsFinal` | logger/main.go:144-147 | once `"successful"` is stored for an id, any later sequence of events, under any store behaviour, leaves that row unchanged |
| `AuditLog.FailureIsNotFinal` | logger/main.go:144-152 | a stored `"not enough money"` is overwritten by a later `"Pending"` event |
| `AuditLog.AuditLogger.ProcessLog` | logger/main.go:129-160 | the new table and the returned error are those of `Upsert` |
| `Intake.Accept` | api/main.go:74-140 | 400 exactly for an undecodable body or an amount of zero or less; 202 exactly when the amount is positive and both publishes succeed; otherwise 500; a transfer is published only after its audit event, and exactly when the answer is 202 |
| `Intake.AcceptRejectsInvalid` | api/main.go:75-84 | an undecodable body or an amount of zero or less gives 400 and publishes nothing |
| `Intake.AcceptStampsFreshId` | api/main.go:85-98 | everything published carries the fresh id, not the client's; the audit event and the transfer agree on id, sender, receiver and amount, and the event's status is exactly `"Pending"` |
| `Intake.AcceptPublishOrder` | api/main.go:104-138 | a failed audit publish gives 500 and publishes nothing; a failed transfer publish gives 500 and leaves the audit event queued; two successful publishes give 202 |
| `Intake.AcceptPublishesPositiveAmounts` | api/main.go:81-84 | every transfer item published has a positive amount |
| `Intake.TransferApi.PostTransfer` | api/main.go:74-140 | the status code and text are those of `Accept`, and each queue grows by exactly the messages `Accept` publishes |
| `Pipeline.AcceptedTransfersKeepBalancesNonNegative` | api/main.go:81-84 | settling any transfer the api has published keeps non-negative balances non-negative |
| `Pipeline.CommitFailureRecordedAsSuccessful` | worker/main.go:194-196 | a transfer whose commit reports an error (taken as rolled back) moves no money, yet the logger records it as `"successful"` and no later event changes that |
| `Pipeline.LatePendingHidesFailure` | logger/main.go:144-152 | a `"Pending"` event arriving after the worker's `"not enough money"` leaves the record at `"Pending"` |
| `Pipeline.TwoTransfersScenario` | worker/main.go:161-197 | balances 100 and 0, each transfer preceded by its `"Pending"` event: a transfer of 40 succeeds (60 and 40) and its record ends `"successful"`; a transfer of 100 is then refused, changes nothing, and its record ends `"not enough money"` |

## Left out

- JSON encoding and decoding: the api's payload is given already decoded (or as undecodable); the marshalling failures in api/main.go and in `sendLog` cannot happen for finite numbers and are not modelled.
- Amounts are integers, not `float64`. The logger's event amount is an `int` in its own record, so a fractional amount fails to decode there and the event is dropped before `processLog`; with integer amounts that input does not arise.
- The queues' consumer loops, auto-acknowledgement, queue declaration, the `/isalive` handlers, the HTTP servers and the database liveness loop: plumbing and process control, not part of the settlement logic.
- Concurrent workers and row locking: only single sequential calls are modelled; the code takes no lock.
- The logger's early return on a `"successful"` row leaves its store transaction open (neither committed nor rolled back); the model records only that the table is unchanged, not the leaked connection.
- `Worker.Settle`: a `Commit` error is modelled as a rolled-back transaction; a commit the server applied although the driver reports an error (a connection lost after the server committed) is not modelled, so the balances-unchanged part of `SettleCommitFailureReportsSuccess` and `CommitFailureRecordedAsSuccessful` holds only for commits that really rolled back.
- The `transactions` columns `error_message` and `created_at`, which the logger never writes.
- The root main.go, whose `transferMoney` handler is empty, and tests/test.go, an end-to-end harness driven through docker-compose that expects 200 where the handler answers 202.
