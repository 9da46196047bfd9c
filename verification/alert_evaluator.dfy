/**
 The alert evaluation (`RunAlertJob`): the rows of the evaluation procedure
 are folded into one human-readable summary, and any fault of the call is
 swallowed, leaving whatever had been appended so far.
 */
module AlertEvaluator {
  import opened Queries

  /** One security matching the alert's criteria. */
  datatype EvaluationRow = EvaluationRow(symbol: string, percentageChange: string)

  /** Name of the stored procedure that evaluates an alert. */
  const EvaluationProcedure: string := "SecurityAlertCheck"

  /** One row's contribution to the summary: the platform newline `nl`, the
      symbol, the change in parentheses and a trailing space. */
  function Entry(nl: string, row: EvaluationRow): (e: string)
    ensures |e| == |nl| + |row.symbol| + |row.percentageChange| + 3
    ensures e[..|nl|] == nl
    ensures e[|nl|..|nl| + |row.symbol|] == row.symbol
    ensures e[|e| - 2..] == ") "
    ensures e[|nl| + |row.symbol|..] == "(" + row.percentageChange + ") "
  {
    nl + row.symbol + "(" + row.percentageChange + ") "
  }

  /** The summary of a row sequence, built front to back. */
  function Summary(nl: string, rows: seq<EvaluationRow>): (s: string)
    ensures s == "" <==> rows == []
    ensures |s| >= 3 * |rows|
  {
    if rows == [] then "" else Entry(nl, rows[0]) + Summary(nl, rows[1..])
  }

  /** The summary distributes over concatenation of row sequences. */
  lemma {:induction false} SummaryAppend(nl: string, a: seq<EvaluationRow>, b: seq<EvaluationRow>)
    ensures Summary(nl, a + b) == Summary(nl, a) + Summary(nl, b)
    decreases |a|
  {
    if a == [] {
      assert a + b == b;
    } else {
      assert (a + b)[0] == a[0];
      assert (a + b)[1..] == a[1..] + b;
      SummaryAppend(nl, a[1..], b);
    }
  }

  /** Every row contributes its entry exactly where it stands: the summary of
      the rows before it, then its entry, then the summary of the rows after it. */
  lemma RowsKeepTheirOrder(nl: string, rows: seq<EvaluationRow>, i: nat)
    requires i < |rows|
    ensures Summary(nl, rows) == Summary(nl, rows[..i]) + Entry(nl, rows[i]) + Summary(nl, rows[i + 1..])
  {
    assert rows == rows[..i] + ([rows[i]] + rows[i + 1..]);
    SummaryAppend(nl, rows[..i], [rows[i]] + rows[i + 1..]);
    assert ([rows[i]] + rows[i + 1..])[1..] == rows[i + 1..];
  }

  /** Summary of a prefix is a prefix of the summary. */
  lemma SummaryOfPrefix(nl: string, rows: seq<EvaluationRow>, k: nat)
    requires k <= |rows|
    ensures Summary(nl, rows[..k]) <= Summary(nl, rows)
  {
    assert rows == rows[..k] + rows[k..];
    SummaryAppend(nl, rows[..k], rows[k..]);
  }

  /** The summary the handler obtains from an evaluation call: the summary of
      the rows read before the call ended or threw. */
  function EvaluateAlert(nl: string, q: QueryOutcome<EvaluationRow>): (summary: string)
    ensures summary == Summary(nl, RowsRead(q))
    ensures summary == "" <==> RowsRead(q) == []
    ensures q.NotExecuted? ==> summary == ""
    ensures q.Executed? ==> summary <= Summary(nl, q.rows)
  {
    match q
    case NotExecuted => ""
    case Executed(rows, _) =>
      var read := RowsRead(q);
      assert read == rows[..|read|];
      SummaryOfPrefix(nl, rows, |read|);
      Summary(nl, read)
  }

  /** An evaluation interrupted after `k` rows yields exactly the summary of
      those `k` rows; none of the rows after the fault appear. */
  lemma InterruptedEvaluation(nl: string, rows: seq<EvaluationRow>, k: nat)
    requires k <= |rows|
    ensures EvaluateAlert(nl, Executed(rows, Some(Interruption(k)))) == Summary(nl, rows[..k])
    ensures Summary(nl, rows) == EvaluateAlert(nl, Executed(rows, Some(Interruption(k)))) + Summary(nl, rows[k..])
  {
    assert rows == rows[..k] + rows[k..];
    SummaryAppend(nl, rows[..k], rows[k..]);
  }

  /** The summary of three rows is their three entries, in row order. */
  lemma ThreeRows(nl: string, a: EvaluationRow, b: EvaluationRow, c: EvaluationRow)
    ensures Summary(nl, [a, b, c]) == Entry(nl, a) + Entry(nl, b) + Entry(nl, c)
  {
    assert Summary(nl, [c]) == Entry(nl, c) by {
      assert [c][1..] == [];
    }
    assert Summary(nl, [b, c]) == Entry(nl, b) + Entry(nl, c) by {
      assert [b, c][1..] == [c];
    }
    assert Summary(nl, [a, b, c]) == Entry(nl, a) + (Entry(nl, b) + Entry(nl, c)) by {
      assert [a, b, c][1..] == [b, c];
    }
  }

  /** Example: rows AAPL, GOOG and MSFT are concatenated as delivered, not sorted. */
  lemma ThreeRowExample()
    ensures Summary("\n", [EvaluationRow("AAPL", "+2.1%"), EvaluationRow("GOOG", "-0.4%"), EvaluationRow("MSFT", "+1.0%")])
            == "\nAAPL(+2.1%) " + "\nGOOG(-0.4%) " + "\nMSFT(+1.0%) "
  {
    var aapl, goog, msft := EvaluationRow("AAPL", "+2.1%"), EvaluationRow("GOOG", "-0.4%"), EvaluationRow("MSFT", "+1.0%");
    ThreeRows("\n", aapl, goog, msft);
    assert Entry("\n", aapl) == "\nAAPL(+2.1%) ";
    assert Entry("\n", goog) == "\nGOOG(-0.4%) ";
    assert Entry("\n", msft) == "\nMSFT(+1.0%) ";
  }

  /** The handler's read loop: a string builder to which each row read is
      appended; a fault ends the loop and the builder's contents are kept. */
  method RunAlertJob(nl: string, q: QueryOutcome<EvaluationRow>) returns (summary: string)
    ensures summary == Summary(nl, RowsRead(q))
    ensures summary == EvaluateAlert(nl, q)
    ensures summary == "" <==> RowsRead(q) == []
  {
    var sb := "";
    if q.NotExecuted? {
      return sb;
    }
    var rows := q.rows;
    var i := 0;
    while i < |rows| && q.interruption != Some(Interruption(i))
      invariant i <= |rows|
      invariant q.interruption.Some? ==> i <= q.interruption.value.rowsRead
      invariant sb == Summary(nl, rows[..i])
    {
      assert rows[..i + 1] == rows[..i] + [rows[i]];
      SummaryAppend(nl, rows[..i], [rows[i]]);
      sb := sb + Entry(nl, rows[i]);
      i := i + 1;
    }
    assert i == |rows| ==> rows[..i] == rows;
    summary := sb;
  }
}
