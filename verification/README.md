# rdbms_scheduler lease protocol, modelled in Dafny

`rdbms_scheduler` turns one relational table into a lease-based cron
scheduler. Many workers poll the same table. Each state change is a single
atomic conditional `UPDATE`, so the table decides which worker owns a due
row. This project models the scheduling engine and the Task / TaskCollection
handles as a functional state machine over an immutable table
`map<int, Row>`.

- `schedule.dfy` (module `Schedule`): the row, and the predicates the SQL
  `WHERE` clauses are built from. `InWindow` is the due window
  (`next_run_at <= now` and `next_run_at > now - max_stale_seconds`). `Due`
  adds "not leased" (`lease_expires_at <= now`). `Stale` means the window was
  missed while the row was unleased. `Live` is the `(id, token)` capability
  test. `Reschedule` gives the next cron run with the run-time offset applied.
- `store.dfy` (module `Store`): the storage primitive every operation uses.
  `UpdateWhere` / `CountWhere` are one atomic conditional update and its
  affected-row count. `SelectWhere` is a read whose order the backend
  chooses.
- `engine.dfy` (module `Engine`): `update_stales!`, `poll`, `acquire_all!`,
  `finish!`, `retry!`, `add` and `col`.
- `engine_properties.dfy` (module `EngineProperties`): properties that
  connect several operations.
- `tasks.dfy` (module `Tasks`): `Task#initialize/finish!/retry!` and
  `TaskCollection#acquire_all!`.

Every operation takes the database's `now` explicitly. Four things are
parameters instead of being modelled:

- the random token (`SecureRandom.hex`);
- the cron evaluator `next: CronEval`, standing for Chrono plus the
  time-zone arithmetic, which is left uninterpreted;
- the JSON encoder and parser.

Operations are total and do what the code does for any token. Where a
property needs the token to be new, "no row holds it" (`Fresh`) is a
hypothesis of that property. The same holds for "the cron evaluator always
moves forward" (`Advances`): it is a hypothesis, never a precondition of an
operation.

Where the documented behaviour and the code disagree, the model follows the
code:

- `finish!` with an id that has no row does not return 0. It reads `cron`
  as `nil` and hands it to the cron evaluator, which cannot evaluate it. The
  model returns `Err(MissingRow(id))` (engine.rb lines 103-107). `retry!`
  does no such read and returns 0.
- `add` evaluates the cron expression in the local zone and ignores the
  row's `time_zone`. It does not shift "now" by the offset; it only adds the
  offset to the result (engine.rb lines 54-65). `finish!` and
  `update_stales!` use the zone and the shifted instant.
- `acquire_all!` does not check the current lease. A named, in-window row
  that another token still leases changes hands
  (`EngineProperties.AcquireOverridesLiveLease`).
- `TaskCollection#acquire_all!` does not return early on an empty candidate
  list, because the `[] if @rows.empty?` line has no effect. It always calls
  the engine. With `[]` the engine writes nothing and, for a fresh token,
  reads nothing back.

## Model

| member | source | states |
|---|---|---|
| `Engine.Column` | lib/rdbms_scheduler/engine.rb:122-124 | the column name is the prefix followed by the key, and nothing else |
| `Engine.ColumnInjective` | lib/rdbms_scheduler/engine.rb:122-124 | under one prefix, two different keys never map to the same column |
| `Schedule.Reschedule` | lib/rdbms_scheduler/engine.rb:41-43 | when the cron evaluator moves forward, the rescheduled run is strictly after `now`, whatever the offset |
| `Engine.ClaimStales` | lib/rdbms_scheduler/engine.rb:30-37 | the first update stamps exactly the stale rows with the token and `lease_expires_at = now`, and counts them |
| `Engine.RescheduleClaimed` | lib/rdbms_scheduler/engine.rb:40-48 | every row read back by the token gets its next cron run and lease 0; the other rows are untouched |
| `Engine.UpdateStales` | lib/rdbms_scheduler/engine.rb:28-51 | returns the number of rows matching `next_run_at <= now - max_stale_seconds && lease_expires_at <= now`; each of them ends with the fresh token, lease 0 and the next cron run; with a fresh token every other row is unchanged; schedule definitions never change |
| `Engine.SelectDue` | lib/rdbms_scheduler/engine.rb:74-81 | for a limit of at least 1 or none, returns only due rows, each at most once, sorted by `next_run_at`, at most `limit` of them; all due rows when the limit is not reached; no omitted due row runs earlier than a returned one |
| `Engine.Poll` | lib/rdbms_scheduler/engine.rb:70-82 | the table is unchanged when `update_stales` is false and is the `update_stales!` result otherwise; a limit below 1 is an error, raised after reconciliation has been written, and only such a limit is; otherwise the rows are a correct due-row answer for that table |
| `Engine.AcquireAll` | lib/rdbms_scheduler/engine.rb:84-95 | writes `now + lease_seconds` and the token into exactly the named, in-window rows, ignoring any current lease, and leaves all others untouched; returns exactly the rows holding the token with an unexpired lease; with a fresh token these are the named, in-window rows with a positive lease, so a subset of `ids` |
| `Engine.Finish` | lib/rdbms_scheduler/engine.rb:97-114 | an id without a row is an error; without a live `(id, token)` the count is 0 and the table unchanged; otherwise the count is 1, the lease is 0, `next_run_at` is the next cron run, the token is kept and other rows are unchanged |
| `Engine.Retry` | lib/rdbms_scheduler/engine.rb:116-120 | without a live `(id, token)`, including when there is no such row, the count is 0 and the table unchanged; otherwise the count is 1, only the lease is cleared, and `next_run_at` and the token stay |
| `Engine.HalfTruncated` | lib/rdbms_scheduler/engine.rb:63 | halves a whole number of seconds, truncating toward zero as `(x/2).to_i` does |
| `Engine.Period` | lib/rdbms_scheduler/engine.rb:56-57 | the interval between the next two cron runs is positive when the evaluator moves forward |
| `Engine.Add` | lib/rdbms_scheduler/engine.rb:53-68 | a duplicate id fails; otherwise exactly one row is added: unleased (lease 0, no token), `next_run_at` is the next cron run plus the offset (nil as 0), `max_stale_seconds` is the interval minus 1, and the lease is the given one or half the interval minus 1, which leaves room for two leases in one interval |
| `EngineProperties.PollBoundaries` | lib/rdbms_scheduler/engine.rb:74-80 | for an unleased row, `next_run_at = now` is due when the stale tolerance is positive, `now + 1` is never due, and `now - max_stale_seconds` is left to reconciliation instead of being polled |
| `EngineProperties.UpdateStalesIdempotent` | lib/rdbms_scheduler/engine.rb:28-51 | under a forward-moving evaluator and non-negative stale tolerances, a second `update_stales!` at the same instant, under any token, reconciles no row |
| `EngineProperties.UpdateStalesKeepsWellFormed` | lib/rdbms_scheduler/engine.rb:34-47 | reconciliation keeps every stale tolerance non-negative |
| `EngineProperties.AcquireKeepsWellFormed` | lib/rdbms_scheduler/engine.rb:89-92 | the acquire write keeps every stale tolerance non-negative |
| `EngineProperties.ReleaseKeepsWellFormed` | lib/rdbms_scheduler/engine.rb:108-119 | `finish!` and `retry!` keep every stale tolerance non-negative |
| `EngineProperties.AddKeepsWellFormed` | lib/rdbms_scheduler/engine.rb:63-64 | under a forward-moving evaluator, an added row has a non-negative stale tolerance |
| `EngineProperties.SupersededTokenIsDead` | lib/rdbms_scheduler/engine.rb:86-119 | once a later `acquire_all!` writes a row under another token, `finish!` and `retry!` with the earlier token affect nothing, even before the earlier lease would have expired |
| `EngineProperties.AcquireOverridesLiveLease` | lib/rdbms_scheduler/engine.rb:86-92 | a named, in-window row still leased to another token is leased to the new token, and the old capability stops being live |
| `EngineProperties.FinishIsFinal` | lib/rdbms_scheduler/engine.rb:105-113 | a successful `finish!` leaves the row not due at `now`, and a second `finish!` with the same token affects nothing |
| `EngineProperties.RetryMakesRowDueAgain` | lib/rdbms_scheduler/engine.rb:116-119 | a successful `retry!` of a row still in its window makes it due again with `next_run_at` unchanged, and a second `retry!` affects nothing |
| `EngineProperties.AddAcquireFinish` | lib/rdbms_scheduler/engine.rb:53-113 | a row added with default lease settings is due at its first run; acquiring it under a fresh token leases it to that token alone; finishing it succeeds, clears the lease and moves the run past that instant |
| `Tasks.DecodeData` | lib/rdbms_scheduler/task.rb:9 | nil stays nil, a structured value passes through unchanged, text is parsed, and decoding fails exactly when the text does not parse |
| `Tasks.PayloadRoundTrip` | lib/rdbms_scheduler/task.rb:9 | a payload stored by `add` decodes to the same document when the parser inverts the encoder |
| `Tasks.NewTask` | lib/rdbms_scheduler/task.rb:5-11 | building a task fails exactly when its payload does not decode, with the decoder's error; a built task carries the given token, id and row and the decoded payload |
| `Tasks.FinishTask` | lib/rdbms_scheduler/task.rb:13-15 | true exactly when the engine's `finish!` affected a row, which is exactly when the task's `(id, token)` was still live; the table is the engine's result |
| `Tasks.RetryTask` | lib/rdbms_scheduler/task.rb:17-19 | true exactly when the engine's `retry!` affected a row, which is exactly when the task's `(id, token)` was still live; the table is the engine's result |
| `Tasks.CandidateIds` | lib/rdbms_scheduler/task.rb:35 | the ids handed to the engine are the candidates' ids, one per candidate, in candidate order |
| `Tasks.AcquireTasks` | lib/rdbms_scheduler/task.rb:33-39 | the engine is called with all candidate ids even when there are none; one task per acquired row, each carrying the batch token, that row's id and row, and its decoded payload; a payload that does not decode fails the call after the leases are written; the collection's `tasks` and `token` stay as they were; with no candidates and a fresh token nothing is written and no task is returned |

## Left out

- The `now_epoch` SQL dialects and the gap between the client clock (`Time.now`, used for cron evaluation) and the server clock (used in the predicates). One integer `now` stands for both.
- Engine construction, the Sequel connection, and the `db` and `table` accessors: connection I/O. This includes the error raised when `db_uri` or `table_name` is missing, and the default column prefix `rdbms_scheduler_`: `Engine.Column` takes the prefix as a parameter.
- `create_alter_table!`: schema creation is DDL I/O.
- `lib/rdbms_scheduler/client.rb`: a forwarding facade.
- `SecureRandom.hex`: the token is a parameter. Its freshness is a hypothesis, never a precondition.
- Chrono and ActiveSupport time zones: the cron evaluator is the uninterpreted parameter `next`, assumed total. An invalid cron string, which raises in the source, is not modelled.
- JSON generate and parse: they are the parameters `encode` and `parse`. A decoded payload is a JSON object (`map<string, string>`).
- Column width: instants and durations are unbounded integers. The backend stores them in fixed-width integer columns, and a value such as `now + lease_seconds` that does not fit is rejected by strict backends and clamped by lenient ones. Neither overflow behaviour is modelled.
- Concurrency: each operation is one atomic step. The two statements of `update_stales!` (the claim, then the per-row rescheduling loop) run back to back with nothing in between. So do the read and the update inside `finish!`.
- Engine.Finish: the fast path that takes `cron`, offset and zone from a row hash passed instead of an id (engine.rb lines 98-101) is not modelled. The id is always an integer, and these values come from the stored row.
- Engine.Add: of the extra keyword columns, only `id`, `run_time_offset_seconds`, `time_zone` and `data` are modelled. A caller can pass other column keys that overwrite a computed default, and those are not. The interval is whole seconds; the source uses a float.
- Engine.AcquireAll: the rows read back come in whatever order `SelectWhere` picks, because the source's read has no `ORDER BY`.
- Engine.Poll: the check that the limit is at least 1 belongs to Sequel, whose code is not part of this model. The model assumes it rejects every integer limit below 1 and nothing else.
- `Task#true_next_run_at` is not defined in this version of `task.rb`.
