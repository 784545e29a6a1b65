/** Rows of the shared schedule table and the predicates over them that the
    engine's conditional updates are built from. All instants are epoch seconds
    and every predicate takes the server's "now" explicitly. */
module Schedule {

  /** An opaque lease token (a random hex string in the scheduler). */
  type Token = string

  /** A decoded task payload: a JSON object, its values kept in encoded form. */
  type Doc = map<string, string>

  datatype Option<T> = None | Some(value: T) {
    /** Ruby's `x || default`: the value when present, else the default. */
    function GetOr(default: T): T {
      match this
      case Some(v) => v
      case None => default
    }
  }

  /** The ways an engine or task operation fails instead of returning a count. */
  datatype Error =
    | MissingRow(id: int)          // finish! found no row to read the cron schedule from
    | DuplicateId(id: int)         // add inserted an id that is already present
    | MalformedPayload(text: string) // a task's stored payload is not valid JSON
    | InvalidLimit(limit: int)     // poll was given a row limit below 1, which the query builder rejects

  datatype Result<T> = Ok(value: T) | Err(error: Error)

  /** The stored payload column: normally encoded text; a backend may already
      hand back a structured value. */
  datatype Payload = Text(json: string) | Hash(doc: Doc)

  /** One schedule row. `leaseExpiresAt == 0` means "not leased";
      `runTimeOffsetSeconds` and `timeZone` are nullable columns. */
  datatype Row = Row(
    cron: string,
    data: Option<Payload>,
    leaseSeconds: int,
    token: Option<Token>,
    maxStaleSeconds: int,
    leaseExpiresAt: int,
    nextRunAt: int,
    runTimeOffsetSeconds: Option<int>,
    timeZone: Option<string>)

  /** A row as a SELECT returns it: with its primary key. */
  datatype Record = Record(id: int, row: Row)

  /** The table, keyed by primary key. */
  type Table = map<int, Row>

  /** The cron evaluator: the first instant strictly after the reference instant
      at which `cron` fires, evaluated on the wall clock of the zone (local zone
      when absent). It is left uninterpreted. */
  type CronEval = (string, Option<string>, int) -> int

  /** The modelling assumption about the cron evaluator: it always moves forward. */
  ghost predicate Advances(next: CronEval) {
    forall cron, tz, t :: next(cron, tz, t) > t
  }

  /** The offset column with NULL read as 0. */
  function Offset(row: Row): int {
    row.runTimeOffsetSeconds.GetOr(0)
  }

  /** The next run of a row after `now`: the cron is evaluated at the
      offset-shifted instant in the row's zone and the offset added back. */
  function Reschedule(row: Row, now: int, next: CronEval): (at: int)
    ensures Advances(next) ==> at > now
  {
    next(row.cron, row.timeZone, now - Offset(row)) + Offset(row)
  }

  /** Inside the due window: reached, but by no more than `maxStaleSeconds`. */
  predicate InWindow(row: Row, now: int) {
    row.nextRunAt <= now && row.nextRunAt > now - row.maxStaleSeconds
  }

  /** Due for polling: inside the window and not under a lease. */
  predicate Due(row: Row, now: int) {
    InWindow(row, now) && row.leaseExpiresAt <= now
  }

  /** Missed: the window has passed while the row was not leased. */
  predicate Stale(row: Row, now: int) {
    row.nextRunAt <= now - row.maxStaleSeconds && row.leaseExpiresAt <= now
  }

  /** The capability test of finish!/retry!: the row carries `token` and its
      lease has not run out. */
  predicate Live(row: Row, token: Token, now: int) {
    row.token == Some(token) && now < row.leaseExpiresAt
  }

  /** No row of the table holds `token` (what a fresh random token gives). */
  predicate Fresh(t: Table, token: Token) {
    forall id :: id in t ==> t[id].token != Some(token)
  }

  /** The invariant the stale-reconciliation argument needs: no row has a
      negative stale tolerance. */
  predicate WellFormed(t: Table) {
    forall id :: id in t ==> t[id].maxStaleSeconds >= 0
  }

  /** The columns that define a schedule, as opposed to its lease state. */
  datatype Definition = Definition(
    cron: string, data: Option<Payload>, leaseSeconds: int, maxStaleSeconds: int,
    runTimeOffsetSeconds: Option<int>, timeZone: Option<string>)

  function DefinitionOf(row: Row): Definition {
    Definition(row.cron, row.data, row.leaseSeconds, row.maxStaleSeconds,
               row.runTimeOffsetSeconds, row.timeZone)
  }

  /** Same rows, and every row keeps its schedule definition; only the lease
      columns (`token`, `leaseExpiresAt`, `nextRunAt`) may differ. */
  predicate SameDefinitions(t: Table, t': Table) {
    && t'.Keys == t.Keys
    && forall id :: id in t ==> DefinitionOf(t'[id]) == DefinitionOf(t[id])
  }

  /** A table whose definitions agree with a well-formed table is well formed. */
  lemma SameDefinitionsKeepWellFormed(t: Table, t': Table)
    requires WellFormed(t) && SameDefinitions(t, t')
    ensures WellFormed(t')
  {
    forall id | id in t'
      ensures t'[id].maxStaleSeconds >= 0
    {
      assert DefinitionOf(t'[id]).maxStaleSeconds == DefinitionOf(t[id]).maxStaleSeconds;
    }
  }
}
