/**
 Abstract outcomes of the handler's calls into the relational store.

 The handler never sees the SQL engine itself: a stored-procedure call is
 modelled by the rows the procedure would deliver and by the point, if any,
 at which the call throws. Both readers in the handler (the alert evaluation
 and the target lookup) share this shape.
 */
module Queries {

  datatype Option<+T> = None | Some(value: T)

  /** The read loop was cut short: `rowsRead` rows were fully processed, then
      the next `Read()`, a column access or the final `Close()` threw. */
  datatype Interruption = Interruption(rowsRead: nat)

  /** The outcome of one stored-procedure call.
      `NotExecuted`: opening the connection or executing the command threw.
      `Executed`: the reader was obtained; `rows` is the procedure's whole
      result set in the store's natural order, and `interruption` says whether
      the read loop was cut short. */
  datatype QueryOutcome<+R> =
    | NotExecuted
    | Executed(rows: seq<R>, interruption: Option<Interruption>)

  /** True when the call threw somewhere, so that the caller's catch ran. */
  predicate Faulted<R>(q: QueryOutcome<R>)
  {
    q.NotExecuted? || q.interruption.Some?
  }

  /** The rows the read loop fully processed before the call ended or threw. */
  function RowsRead<R>(q: QueryOutcome<R>): (read: seq<R>)
    ensures q.NotExecuted? ==> read == []
    ensures q.Executed? ==> read <= q.rows
    ensures !Faulted(q) ==> read == q.rows
    ensures q.Executed? && q.interruption.Some? ==>
              |read| == if q.interruption.value.rowsRead < |q.rows|
                        then q.interruption.value.rowsRead else |q.rows|
  {
    match q
    case NotExecuted => []
    case Executed(rows, None) => rows
    case Executed(rows, Some(Interruption(k))) => if k < |rows| then rows[..k] else rows
  }
}
