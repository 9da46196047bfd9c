/**
 The target lookup (`GetJobUrl`): the lookup procedure's rows each overwrite
 the address read so far, so the last row read wins; any fault of the call is
 swallowed silently and leaves the address read so far, initially empty.
 */
module TargetResolver {
  import opened Queries

  /** One row of the lookup procedure: a notification-topic address. */
  datatype TargetRow = TargetRow(address: string)

  /** Name of the stored procedure that looks up an alert's target. */
  const TargetProcedure: string := "GetSecurityAlertURL"

  /** The effect of the read loop on the address variable: every row
      overwrites it, starting from `current`. */
  function Overwrite(current: string, rows: seq<TargetRow>): (final: string)
    ensures rows == [] ==> final == current
    ensures rows != [] ==> final == rows[|rows| - 1].address
    decreases |rows|
  {
    if rows == [] then current else Overwrite(rows[0].address, rows[1..])
  }

  /** The address the handler obtains from a lookup call: the address of the
      last row read, or "" when no row was read (in particular whenever opening
      the connection or executing the lookup threw). */
  function ResolveTarget(q: QueryOutcome<TargetRow>): (address: string)
    ensures RowsRead(q) == [] ==> address == ""
    ensures RowsRead(q) != [] ==> address == RowsRead(q)[|RowsRead(q)| - 1].address
    ensures q.NotExecuted? ==> address == ""
  {
    Overwrite("", RowsRead(q))
  }

  /** The handler's read loop: each row read overwrites `jobUrl`; a fault ends
      the loop and the value read so far is returned. */
  method GetJobUrl(q: QueryOutcome<TargetRow>) returns (jobUrl: string)
    ensures jobUrl == ResolveTarget(q)
  {
    jobUrl := "";
    if q.NotExecuted? {
      return;
    }
    var rows := q.rows;
    var i := 0;
    while i < |rows| && q.interruption != Some(Interruption(i))
      invariant i <= |rows|
      invariant q.interruption.Some? ==> i <= q.interruption.value.rowsRead
      invariant jobUrl == Overwrite("", rows[..i])
    {
      assert rows[..i + 1] == rows[..i] + [rows[i]];
      jobUrl := rows[i].address;
      i := i + 1;
    }
    assert i == |rows| ==> rows[..i] == rows;
  }
}
