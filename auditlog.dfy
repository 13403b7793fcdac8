/**
 * The audit logger: `processLog` in logger/main.go, which keeps one row of the
 * `transactions` table per transaction id up to date with the audit events it
 * consumes.
 *
 * The rule the code applies: read the stored status; if it is exactly
 * "successful", do nothing; otherwise insert the full row, or, when the id is
 * already there, overwrite its status and nothing else. Only "successful" is
 * protected: a failure status can be overwritten by any later event,
 * "Pending" included.
 */
module AuditLog {
  import opened Wrappers
  import opened Messages

  /** A row of `transactions`, keyed by the transaction id. */
  datatype Record = Record(
    sender: int,
    receiver: int,
    amount: int,
    status: string)

  type Table = map<string, Record>

  /** What the database answers during one call: `None` is success, `Some(e)` an error. */
  datatype LogScript = LogScript(
    begin: Option<string>,
    select: Option<string>,
    exec: Option<string>,
    commit: Option<string>)

  /** The script in which every store call succeeds. */
  function Reliable(): LogScript
  {
    LogScript(None, None, None, None)
  }

  /**
   * The status the SELECT leaves in its variable: the stored one, or the
   * empty string (the variable's initial value) when no row matches.
   */
  function StoredStatus(t: Table, id: string): (status: string)
    ensures id in t ==> status == t[id].status
    ensures id !in t ==> status == ""
  {
    if id in t then t[id].status else ""
  }

  /**
   * `INSERT ... ON CONFLICT(id) DO UPDATE SET status = $5`: a new id gets the
   * full row; an existing one keeps its sender, receiver and amount and takes
   * the new status; no other row changes.
   */
  function InsertOrSetStatus(t: Table, ev: AuditEvent): (t': Table)
    ensures t'.Keys == t.Keys + {ev.id}
    ensures ev.id !in t ==> t'[ev.id] == Record(ev.sender, ev.receiver, ev.amount, ev.status)
    ensures ev.id in t ==> t'[ev.id] == t[ev.id].(status := ev.status)
    ensures forall k :: k in t && k != ev.id ==> t'[k] == t[k]
  {
    if ev.id in t then t[ev.id := t[ev.id].(status := ev.status)]
    else t[ev.id := Record(ev.sender, ev.receiver, ev.amount, ev.status)]
  }

  /** The table after one call and the error it returns. */
  datatype Outcome = Outcome(table: Table, err: Option<string>)

  /** The effect of `processLog` on the committed table. */
  function Upsert(t: Table, ev: AuditEvent, s: LogScript): (r: Outcome)
    ensures r.err.Some? ==> r.table == t
    ensures r.table.Keys == t.Keys || r.table.Keys == t.Keys + {ev.id}
    ensures forall k :: k in t && k != ev.id ==> r.table[k] == t[k]
    ensures r.err.None? <==>
      s.begin.None? && s.select.None? &&
      (StoredStatus(t, ev.id) == Successful || (s.exec.None? && s.commit.None?))
  {
    if s.begin.Some? then Outcome(t, s.begin)
    else if s.select.Some? then Outcome(t, s.select)
    else if StoredStatus(t, ev.id) == Successful then Outcome(t, None)
    else if s.exec.Some? then Outcome(t, s.exec)
    else if s.commit.Some? then Outcome(t, s.commit)
    else Outcome(InsertOrSetStatus(t, ev), None)
  }

  /** An id seen for the first time gets a full row built from the event. */
  lemma UpsertInsertsWhenAbsent(t: Table, ev: AuditEvent)
    requires ev.id !in t
    ensures Upsert(t, ev, Reliable()) ==
      Outcome(t[ev.id := Record(ev.sender, ev.receiver, ev.amount, ev.status)], None)
  {
  }

  /** A row whose status is exactly "successful" is left alone and no error is returned. */
  lemma UpsertKeepsSuccessful(t: Table, ev: AuditEvent, s: LogScript)
    requires s.begin.None? && s.select.None?
    requires ev.id in t && t[ev.id].status == Successful
    ensures Upsert(t, ev, s) == Outcome(t, None)
  {
  }

  /**
   * Any other stored status ("Pending", "not enough money", an error text) is
   * overwritten by the incoming one; sender, receiver and amount keep the
   * values of the first insert, whatever the event says.
   */
  lemma UpsertOverwritesStatusOnly(t: Table, ev: AuditEvent)
    requires ev.id in t && t[ev.id].status != Successful
    ensures var t' := Upsert(t, ev, Reliable()).table;
      && t'.Keys == t.Keys
      && t'[ev.id].status == ev.status
      && t'[ev.id].sender == t[ev.id].sender
      && t'[ev.id].receiver == t[ev.id].receiver
      && t'[ev.id].amount == t[ev.id].amount
  {
  }

  /**
   * Applying an event again, under any store behaviour, to the table a first
   * successful application produced changes nothing.
   */
  lemma UpsertIdempotent(t: Table, ev: AuditEvent, s1: LogScript, s2: LogScript)
    requires Upsert(t, ev, s1).err.None?
    ensures var t1 := Upsert(t, ev, s1).table;
      Upsert(t1, ev, s2).table == t1
  {
  }

  /**
   * A store failure leaves the table unchanged and returns that failure's
   * own error; the write and the commit are reached only when the stored
   * status is not "successful".
   */
  lemma UpsertStoreFailure(t: Table, ev: AuditEvent, s: LogScript)
    ensures var r := Upsert(t, ev, s);
      && (s.begin.Some? ==> r == Outcome(t, s.begin))
      && (s.begin.None? && s.select.Some? ==> r == Outcome(t, s.select))
      && (s.begin.None? && s.select.None? && StoredStatus(t, ev.id) != Successful ==>
            && (s.exec.Some? ==> r == Outcome(t, s.exec))
            && (s.exec.None? && s.commit.Some? ==> r == Outcome(t, s.commit)))
  {
  }

  /** One delivered event together with how the store behaves while it is processed. */
  datatype Delivery = Delivery(event: AuditEvent, script: LogScript)

  /** The table after the logger has processed `ds` in order, one call per event. */
  function ProcessAll(t: Table, ds: seq<Delivery>): Table
    decreases |ds|
  {
    if ds == [] then t
    else ProcessAll(Upsert(t, ds[0].event, ds[0].script).table, ds[1..])
  }

  /**
   * Once "successful" is stored for an id, no later sequence of events, in
   * any order and under any store behaviour, changes that row.
   */
  lemma {:induction false} SuccessfulIsFinal(t: Table, id: string, ds: seq<Delivery>)
    requires id in t && t[id].status == Successful
    ensures id in ProcessAll(t, ds) && ProcessAll(t, ds)[id] == t[id]
    decreases |ds|
  {
    if ds != [] {
      var t1 := Upsert(t, ds[0].event, ds[0].script).table;
      assert id in t1 && t1[id] == t[id];
      SuccessfulIsFinal(t1, id, ds[1..]);
    }
  }

  /**
   * A failure status has no such protection: a late "Pending" event, such as
   * the one the api sends first, turns "not enough money" back into "Pending".
   */
  lemma FailureIsNotFinal(t: Table, ev: AuditEvent)
    requires ev.id in t && t[ev.id].status == NotEnoughMoney
    requires ev.status == Pending
    ensures Upsert(t, ev, Reliable()).table[ev.id].status == Pending
  {
  }

  /** The logger process: the committed `transactions` table. */
  class AuditLogger {
    var transactions: Table

    constructor (initial: Table)
      ensures transactions == initial
    {
      transactions := initial;
    }

    /**
     * `processLog`. The store transaction works on its own copy of the table;
     * only a successful commit writes the copy back. On the "successful"
     * guard the function returns without commit or rollback, and the table
     * is unchanged.
     */
    method ProcessLog(ev: AuditEvent, s: LogScript) returns (err: Option<string>)
      modifies this
      ensures var r := Upsert(old(transactions), ev, s);
        transactions == r.table && err == r.err
    {
      if s.begin.Some? {
        return s.begin;
      }
      var tx := transactions;

      var status := "";
      if s.select.Some? {
        return s.select;
      }
      if ev.id in tx {
        status := tx[ev.id].status;
      }
      if status == Successful {
        return None;
      }

      if s.exec.Some? {
        return s.exec;
      }
      if ev.id in tx {
        tx := tx[ev.id := tx[ev.id].(status := ev.status)];
      } else {
        tx := tx[ev.id := Record(ev.sender, ev.receiver, ev.amount, ev.status)];
      }

      if s.commit.Some? {
        return s.commit;
      }
      transactions := tx;
      return None;
    }
  }
}
