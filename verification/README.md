# SecurityAlertSNS handler — a Dafny model

This project models the decision pipeline inside the SecurityAlertSNS Lambda
handler (`Function.cs`). One invocation receives an alert identifier. It decrypts
the store password and builds a SQL Server connection string. It then runs the
`SecurityAlertCheck` procedure and folds the matching securities into one
summary string. Only when that summary is non-empty does it run
`GetSecurityAlertURL` to find the SNS topic, strip spaces from the address and
publish the summary to it once.

Every external call is an input here, not an action:

- the password decryption is a `DecryptOutcome`, either some plaintext or a failure;
- each stored-procedure call is a `QueryOutcome`: either it never executed
  (open or execute threw), or it produced a result set whose read loop may have
  been interrupted after `k` rows;
- the publish is a `PublishOutcome`, either ok or error.

`Pipeline.FunctionHandler` is then a pure function from the trigger, the
configuration and these outcomes to a status (`Completed` or `Failed`). It also
returns the trace of external calls attempted, in order; a procedure call is
recorded even when opening the connection or executing it threw. The source's per-invocation
fields (`connectionString`, `alertID`) become an explicit `Context` value.
`Environment.NewLine` is a configuration parameter `newline`.

Modules, leaf first:

- `Queries`: query outcomes and `RowsRead`, the rows a read loop processed before it ended or threw.
- `AlertEvaluator`: `RunAlertJob` as a loop over a string builder, and the
  reference function `Summary` with its algebra (concatenation, row order, prefixes).
- `TargetResolver`: `GetJobUrl` as a loop in which the last row wins, and its reference `ResolveTarget`.
- `NotificationDispatcher`: the `Replace(" ", "")` normalisation (`StripSpaces`)
  and `SendMessage`, which swallows publish errors.
- `Connection`: the decrypt outcome and the `SQLConnection` template.
  To state what the template promises, this module also defines a reader for
  connection strings. The reader splits at `;` and then at the first `=`. The
  reader is part of this model only; the handler never parses its own string.
- `Pipeline`: `FunctionHandler` and `AlertUsers`, with lemmas about the trace.

The target address is normalised with `Replace(" ", "")`, which removes only
U+0020. Tabs, newlines and other whitespace survive normalisation, as
`TabIsKept` shows.

## Model

| member | source | states |
|---|---|---|
| Queries.RowsRead | Function.cs:106-137 | The rows processed form a prefix of the result set: none when open or execute threw, all of them when nothing threw, and exactly `k` (at most the set's size) when the loop was cut after `k` rows |
| AlertEvaluator.Entry | Function.cs:123 | One row's text is the newline, then the symbol, then `(`, the percentage change and `") "`. Its length is exactly the newline, symbol and change plus three characters for `(`, `)` and the space. `ThreeRows` and `ThreeRowExample` state how entries compose into the summary |
| AlertEvaluator.Summary | Function.cs:121-124 | The summary is empty exactly when there are no rows, and each row contributes at least three characters |
| AlertEvaluator.SummaryAppend | Function.cs:121-124 | The summary of `a + b` is the summary of `a` followed by the summary of `b` |
| AlertEvaluator.RowsKeepTheirOrder | Function.cs:121-124 | Row `i`'s entry sits between the summary of the rows before it and that of the rows after it, so no row is reordered |
| AlertEvaluator.EvaluateAlert | Function.cs:103-138 | The handler's summary is the summary of exactly the rows read before the call ended or threw. It is empty exactly when no row was read, in particular when open or execute threw, and it is always a prefix of the summary of the full result set |
| AlertEvaluator.InterruptedEvaluation | Function.cs:119-137 | A read loop cut after `k` rows yields exactly the summary of the first `k` rows, and the full summary is that plus the summary of the unread rows |
| AlertEvaluator.ThreeRows | Function.cs:123 | Three rows give their three entries concatenated, in delivery order |
| AlertEvaluator.ThreeRowExample | Function.cs:123 | Rows AAPL, GOOG, MSFT give `"\nAAPL(+2.1%) "`, `"\nGOOG(-0.4%) "`, `"\nMSFT(+1.0%) "` in that order |
| AlertEvaluator.RunAlertJob | Function.cs:103-138 | The string-builder loop returns the summary of exactly the rows read before the call ended or threw, which is `EvaluateAlert`'s value; it is empty iff no row was read |
| TargetResolver.Overwrite | Function.cs:163-167 | After overwriting with every row, the value is the last row's address, or the starting value when there are no rows |
| TargetResolver.ResolveTarget | Function.cs:145-182 | The resolved address is the last row read, or `""` when no row was read, in particular when open or execute threw |
| TargetResolver.GetJobUrl | Function.cs:145-182 | The overwrite loop starting from `""` returns the address of the last row read, or `""` |
| NotificationDispatcher.StripSpaces | Function.cs:78 | The normalised address holds no space and is never longer than the original |
| NotificationDispatcher.StripSpacesKeepsOtherCharacters | Function.cs:78 | Every character other than U+0020 keeps its number of occurrences, and the length drops by exactly the number of spaces |
| NotificationDispatcher.StripSpacesKeepsOrder | Function.cs:78 | The normalised address is a subsequence of the original, so the remaining characters keep their relative order |
| NotificationDispatcher.SubsequenceMultiset | Function.cs:78 | Helper for `StripSpacesIsDetermined`, about the model's own `IsSubsequence` rather than the handler: a subsequence holds no more of any character than the whole |
| NotificationDispatcher.StripSpacesIsDetermined | Function.cs:78 | Any space-free subsequence of `s` that keeps every other character of `s` equals `StripSpaces(s)`, so the three properties above fully characterise it |
| NotificationDispatcher.NoSpacesUnchanged | Function.cs:78 | An address without spaces is left unchanged |
| NotificationDispatcher.StripSpacesIdempotent | Function.cs:78 | Normalising twice equals normalising once |
| NotificationDispatcher.StripSpacesAppend | Function.cs:78 | Normalisation distributes over concatenation |
| NotificationDispatcher.InternalAndTrailingSpacesRemoved | Function.cs:78 | An address with an internal and a trailing space loses both, e.g. `"arn:aws:sns: topic "` becomes `"arn:aws:sns:topic"` |
| NotificationDispatcher.TabIsKept | Function.cs:78 | A tab is not stripped: `"a\tb c"` becomes `"a\tbc"` |
| NotificationDispatcher.SendMessage | Function.cs:74-95 | The request's target holds no space, is an order-preserving subsequence of the raw address keeping all its other characters, and its message is the summary unchanged; the dispatch is delivered iff the publish succeeded, and it never fails |
| Connection.ConnectionString | Function.cs:188-199 | The connection string starts with the `Data Source` field for the server and ends with `Connection Timeout=30;`. `ConnectionStringRoundTrip` states the full content |
| Connection.ConnectionStringRoundTrip | Function.cs:197 | When no value holds `;`, reading the connection string back gives server, database, user and password in that order, then the fixed settings ending with `Connection Timeout=30` |
| Connection.SemicolonCutsPassword | Function.cs:197 | Values are not quoted: a password `a;b` is read back as password `a`, so the string no longer carries the intended settings |
| Pipeline.AlertUsers | Function.cs:58-64 | The alert step makes exactly two calls: first the lookup procedure, with the invocation's alert id and connection, then exactly one publish. Its message is the summary, and its target is the looked-up address with spaces removed, so it holds no space |
| Pipeline.FunctionHandler | Function.cs:38-52 | It completes iff the password was decrypted. The password is decrypted exactly once, as the first call. A decryption failure attempts no procedure and publishes nothing. Otherwise it attempts the evaluation, then the lookup iff the summary is non-empty. It publishes at most once, and exactly once iff the summary is non-empty. The publish is the last call, to the space-stripped resolved address with the summary as message |
| Pipeline.ProceduresAppend | Function.cs:38-52 | Helper for `FunctionHandler`, about the model's own trace projection `Procedures` rather than the handler: the procedures run by two consecutive trace segments are those of the first, then those of the second |
| Pipeline.PublishedAppend | Function.cs:38-52 | Helper for `FunctionHandler`, about the model's own trace projection `Published` rather than the handler: the publishes of two consecutive trace segments are those of the first, then those of the second |
| Pipeline.QueriesUseInvocationContext | Function.cs:38-44 | Every procedure call carries the trigger's alert id and the connection string built from the configuration and the decrypted password |
| Pipeline.PublishErrorIsSwallowed | Function.cs:79-93 | An invocation whose publish failed ends exactly as one whose publish succeeded: same status, same trace |
| Pipeline.NoMatchIgnoresLookup | Function.cs:44-49 | With an empty summary the lookup outcome is never consulted: any lookup outcome gives the same invocation |
| Pipeline.EvaluationFaultSilencesAlert | Function.cs:44-49 | When the evaluation's open or execute throws, the invocation still completes, attempts only the evaluation and publishes nothing |
| Pipeline.FailedLookupPublishesToEmptyTarget | Function.cs:58-64 | A match followed by a failed lookup still publishes the summary, once, to the empty target |

## Left out

- Decryption itself (Function.cs:206-236): the base64 decode, the KMS call with its encryption context, and the UTF-8 decode are foreign library and service calls. They are reduced to `DecryptOutcome`: some plaintext, or a failure that escapes the handler through `.Result`. The encrypt-then-decrypt round trip is therefore not stated.
- `SqlConnection`, `SqlCommand` and `SqlDataReader` mechanics, the stored procedures' semantics, and the `NVarChar` conversion of the alert id are not modelled. A call is its result set plus the point where it threw. A throw in a column access or in `Close()` counts as an interruption after the rows already processed.
- The SNS client, the `us-east-2` region endpoints, `PublishAsync`, `.Wait()` and async/await are transport and concurrency concerns. They are reduced to one `PublishOutcome`. A throw from constructing the client (Function.cs:61) is not modelled.
- `LambdaLogger` output (Function.cs:41, 45, 77, 87, 92, 135, 166) is not part of the trace. So the model does not show that evaluation faults and publish errors are logged, while lookup faults are not.
- The environment-variable reads for server, database and user (Function.cs:190-192) become the `Configuration` fields. `Environment.NewLine` is the field `newline`. The `PASSWORD` ciphertext (Function.cs:209) and the function name used as encryption context (Function.cs:215) are read inside decryption, so they are absorbed into `DecryptOutcome`.
- The serializer attribute and the `SecurityAlert` JSON binding become the `SecurityAlert` datatype.
- Connection.ConnectionStringRoundTrip: stated only for values without `;`, because the template inserts values unquoted. `SemicolonCutsPassword` states what happens otherwise.
