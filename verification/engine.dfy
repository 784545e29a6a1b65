/** The scheduling engine. Every operation is one or two atomic conditional
    updates over the table; each takes the database's `now` and the cron
    evaluator explicitly, and, where the engine draws a random token, that
    token as a parameter. */
module Engine {
  import opened Schedule
  import opened Store

  /** `col`: the physical column of a key is the key behind the prefix. */
  function Column(prefix: string, key: string): (name: string)
    ensures |name| == |prefix| + |key|
    ensures name[..|prefix|] == prefix && name[|prefix|..] == key
  {
    prefix + key
  }

  /** Under one prefix, distinct keys never share a column. */
  lemma ColumnInjective(prefix: string, a: string, b: string)
    requires Column(prefix, a) == Column(prefix, b)
    ensures a == b
  {
    assert a == Column(prefix, a)[|prefix|..];
  }

  /** A table after a conditional update, with the affected-row count. */
  datatype Update = Update(table: Table, count: nat)

  // ---------------------------------------------------------------- stale rows

  function StaleIds(t: Table, now: int): set<int> {
    set id | id in t && Stale(t[id], now)
  }

  /** The first statement of update_stales!: every stale row is stamped with
      the token and `leaseExpiresAt = now`, so that this call can find its rows
      again. */
  function ClaimStales(t: Table, now: int, token: Token): (r: Update)
    ensures r.count == |StaleIds(t, now)|
    ensures r.table.Keys == t.Keys
    ensures forall id :: id in t ==>
              r.table[id] == if Stale(t[id], now) then t[id].(leaseExpiresAt := now, token := Some(token)) else t[id]
  {
    var stale := (id: int, row: Row) => Stale(row, now);
    assert Matching(t, stale) == StaleIds(t, now);
    Update(UpdateWhere(t, stale, (row: Row) => row.(leaseExpiresAt := now, token := Some(token))),
           CountWhere(t, stale))
  }

  /** The loop of update_stales!: each row read back by the token is moved to
      its next cron run and released. */
  function RescheduleClaimed(t: Table, now: int, token: Token, next: CronEval): (t': Table)
    ensures t'.Keys == t.Keys
    ensures forall id :: id in t ==>
              t'[id] == if t[id].token == Some(token)
                        then t[id].(nextRunAt := Reschedule(t[id], now, next), leaseExpiresAt := 0)
                        else t[id]
  {
    UpdateWhere(t, (id: int, row: Row) => row.token == Some(token),
                (row: Row) => row.(nextRunAt := Reschedule(row, now, next), leaseExpiresAt := 0))
  }

  lemma NoStaleRowWhenNoneCounted(t: Table, now: int)
    requires |StaleIds(t, now)| == 0
    ensures forall id :: id in t ==> !Stale(t[id], now)
  {
    CardZeroHasNoMember(StaleIds(t, now));
    forall id | id in t
      ensures !Stale(t[id], now)
    {
      assert id !in StaleIds(t, now);
    }
  }

  /** What reconciliation leaves in a row. */
  function Reconciled(row: Row, now: int, token: Token, next: CronEval): Row {
    row.(token := Some(token), leaseExpiresAt := 0, nextRunAt := Reschedule(row, now, next))
  }

  /** update_stales!: the count is the number of stale rows; every stale row
      (and, when there was one, every row that already held the token) is
      fast-forwarded past its missed runs; all other rows are untouched. */
  function UpdateStales(t: Table, now: int, token: Token, next: CronEval): (r: Update)
    ensures r.count == |StaleIds(t, now)|
    ensures SameDefinitions(t, r.table)
    ensures forall id :: (id in t && (Stale(t[id], now) || (r.count > 0 && t[id].token == Some(token))))
                           ==> r.table[id] == Reconciled(t[id], now, token, next)
    ensures forall id :: (id in t && !Stale(t[id], now) && (r.count == 0 || t[id].token != Some(token)))
                           ==> r.table[id] == t[id]
    ensures Fresh(t, token) ==> forall id :: id in t && !Stale(t[id], now) ==> r.table[id] == t[id]
  {
    var claimed := ClaimStales(t, now, token);
    if claimed.count > 0 then
      Update(RescheduleClaimed(claimed.table, now, token, next), claimed.count)
    else
      NoStaleRowWhenNoneCounted(t, now);
      claimed
  }

  // ---------------------------------------------------------------- poll

  function DueIds(t: Table, now: int): set<int> {
    set id | id in t && Due(t[id], now)
  }

  /** A correct answer of poll: due rows only, each once, earliest first, no
      more than the limit, all of them when the limit is not reached, and none
      left out that runs earlier than one returned. Ties may come in any order. */
  predicate IsPollResult(t: Table, now: int, limit: Option<int>, rs: seq<Record>) {
    && (forall i :: 0 <= i < |rs| ==> Holds(t, rs[i]) && Due(rs[i].row, now))
    && DistinctIds(rs)
    && SortedByNextRun(rs)
    && (limit.Some? ==> |rs| <= limit.value)
    && (limit.None? || |rs| < limit.value ==> Ids(rs) == DueIds(t, now))
    && (forall i, id :: 0 <= i < |rs| && id in t && Due(t[id], now) && id !in Ids(rs)
                        ==> rs[i].row.nextRunAt <= t[id].nextRunAt)
  }

  /** poll: optionally reconcile stale rows first, then read the due rows.
      Without reconciliation the table is left exactly as it was. A limit
      below 1 is rejected by the query builder when the read is built, that
      is, after reconciliation has already been written. */
  method Poll(t: Table, now: int, limit: Option<int>, updateStales: bool, token: Token, next: CronEval)
    returns (t': Table, rows: Result<seq<Record>>)
    ensures t' == if updateStales then UpdateStales(t, now, token, next).table else t
    ensures rows.Err? <==> limit.Some? && limit.value < 1
    ensures rows.Err? ==> rows.error == InvalidLimit(limit.value)
    ensures rows.Ok? ==> IsPollResult(t', now, limit, rows.value)
  {
    t' := t;
    if updateStales {
      t' := UpdateStales(t, now, token, next).table;
    }
    if limit.Some? && limit.value < 1 {
      rows := Err(InvalidLimit(limit.value));
      return;
    }
    var due := SelectDue(t', now, limit);
    rows := Ok(due);
  }

  /** The read of poll: the due rows ORDER BY next_run_at, LIMIT when a limit
      is given; each step takes a due row no later than any left. */
  method SelectDue(t: Table, now: int, limit: Option<int>) returns (rows: seq<Record>)
    requires limit.Some? ==> limit.value >= 1
    ensures IsPollResult(t, now, limit, rows)
  {
    var rest := DueIds(t, now);
    rows := [];
    while rest != {} && (limit.None? || |rows| < limit.value)
      invariant rest <= DueIds(t, now)
      invariant Ids(rows) == DueIds(t, now) - rest
      invariant forall i :: 0 <= i < |rows| ==> Holds(t, rows[i]) && Due(rows[i].row, now) && rows[i].id !in rest
      invariant DistinctIds(rows)
      invariant SortedByNextRun(rows)
      invariant forall i, id :: 0 <= i < |rows| && id in rest ==> rows[i].row.nextRunAt <= t[id].nextRunAt
      invariant limit.Some? ==> |rows| <= limit.value
      decreases rest
    {
      EarliestExists(t, rest);
      var id :| id in rest && forall j :: j in rest ==> t[id].nextRunAt <= t[j].nextRunAt;
      IdsAppend(rows, Record(id, t[id]));
      assert DueIds(t, now) - (rest - {id}) == (DueIds(t, now) - rest) + {id};
      rows := rows + [Record(id, t[id])];
      rest := rest - {id};
    }
  }

  // ---------------------------------------------------------------- acquire

  /** A row as acquire_all! writes it. */
  function Leased(row: Row, now: int, token: Token): Row {
    row.(leaseExpiresAt := now + row.leaseSeconds, token := Some(token))
  }

  /** The write of acquire_all!: rows named in `ids` and inside their window
      are leased under `token`. The current lease is not consulted. */
  function AcquireWrite(t: Table, ids: seq<int>, now: int, token: Token): Table {
    UpdateWhere(t, (id: int, row: Row) => id in ids && InWindow(row, now), (row: Row) => Leased(row, now, token))
  }

  function LiveIds(t: Table, token: Token, now: int): set<int> {
    set id | id in t && Live(t[id], token, now)
  }

  /** acquire_all!: write the leases, then read back the rows that hold the
      batch token with a lease still running. With a fresh token these are
      exactly the named, in-window rows given a positive lease. */
  method AcquireAll(t: Table, ids: seq<int>, now: int, newToken: Token)
    returns (t': Table, token: Token, owned: seq<Record>)
    ensures token == newToken
    ensures t' == AcquireWrite(t, ids, now, newToken)
    ensures SameDefinitions(t, t')
    ensures forall id :: id in t && id in ids && InWindow(t[id], now) ==> t'[id] == Leased(t[id], now, newToken)
    ensures forall id :: id in t && !(id in ids && InWindow(t[id], now)) ==> t'[id] == t[id]
    ensures forall i :: 0 <= i < |owned| ==> Holds(t', owned[i]) && Live(owned[i].row, newToken, now)
    ensures DistinctIds(owned)
    ensures Ids(owned) == LiveIds(t', newToken, now)
    ensures Fresh(t, newToken) ==>
              Ids(owned) == set id | id in ids && id in t && InWindow(t[id], now) && t[id].leaseSeconds > 0
  {
    token := newToken;
    t' := AcquireWrite(t, ids, now, newToken);
    var live := (id: int, row: Row) => Live(row, newToken, now);
    owned := SelectWhere(t', live);
    assert Matching(t', live) == LiveIds(t', newToken, now);
  }

  // ---------------------------------------------------------------- release

  /** finish!: with a live `(id, token)` capability the lease is released and
      the row moved to its next cron run; otherwise nothing changes. The cron
      schedule is read from the row, so an id without a row is an error. */
  function Finish(t: Table, id: int, token: Token, now: int, next: CronEval): (r: Result<Update>)
    ensures r.Err? <==> id !in t
    ensures r.Ok? ==> SameDefinitions(t, r.value.table)
    ensures r.Ok? && !Live(t[id], token, now) ==> r.value == Update(t, 0)
    ensures r.Ok? && Live(t[id], token, now) ==>
              && r.value.count == 1
              && r.value.table[id].leaseExpiresAt == 0
              && r.value.table[id].nextRunAt == Reschedule(t[id], now, next)
              && r.value.table[id].token == t[id].token
              && forall other :: other in t && other != id ==> r.value.table[other] == t[other]
  {
    if id !in t then Err(MissingRow(id))
    else
      var row := t[id];
      if Live(row, token, now) then
        Ok(Update(t[id := row.(leaseExpiresAt := 0, nextRunAt := Reschedule(row, now, next))], 1))
      else
        Ok(Update(t, 0))
  }

  /** retry!: with a live `(id, token)` capability only the lease is released;
      the schedule and the token stay. Otherwise, or without a row, nothing
      changes. */
  function Retry(t: Table, id: int, token: Token, now: int): (r: Update)
    ensures SameDefinitions(t, r.table)
    ensures !(id in t && Live(t[id], token, now)) ==> r == Update(t, 0)
    ensures id in t && Live(t[id], token, now) ==>
              && r.count == 1
              && r.table[id].leaseExpiresAt == 0
              && r.table[id].nextRunAt == t[id].nextRunAt
              && r.table[id].token == Some(token)
              && forall other :: other in t && other != id ==> r.table[other] == t[other]
  {
    if id in t && Live(t[id], token, now) then
      Update(t[id := t[id].(leaseExpiresAt := 0)], 1)
    else
      Update(t, 0)
  }

  // ---------------------------------------------------------------- add

  /** The columns `add` takes besides the cron expression. `id` is the primary
      key the insert ends up with, explicit or assigned by the backend. */
  datatype AddOptions = AddOptions(
    id: int,
    leaseSeconds: Option<int>,
    runTimeOffsetSeconds: Option<int>,
    timeZone: Option<string>,
    data: Option<Doc>)

  /** Half a whole number of seconds, truncated toward zero (a float halved,
      then `to_i`). */
  function HalfTruncated(x: int): (h: int)
    ensures x >= 0 ==> 0 <= x - 2 * h <= 1
    ensures x < 0 ==> 0 <= 2 * h - x <= 1
  {
    if x >= 0 then x / 2 else -((-x) / 2)
  }

  /** The cron period as add measures it: the gap between the next two runs
      after `now`, in the local zone. */
  function Period(cron: string, now: int, next: CronEval): (p: int)
    ensures Advances(next) ==> p > 0
  {
    var first := next(cron, None, now);
    next(cron, None, first) - first
  }

  /** The payload column: the encoded document, or NULL. */
  function EncodePayload(data: Option<Doc>, encode: Doc -> string): Option<Payload> {
    if data.Some? then Some(Text(encode(data.value))) else None
  }

  /** add: insert one row; lease and stale tolerance default from the cron
      period, the first run is the next cron run after `now` (local zone, not
      offset-adjusted) shifted by the offset, and the row starts unleased.
      Inserting an id that is present fails. */
  function Add(t: Table, cron: string, opts: AddOptions, now: int, next: CronEval,
               encode: Doc -> string): (r: Result<Table>)
    ensures r.Err? <==> opts.id in t
    ensures r.Ok? ==> r.value.Keys == t.Keys + {opts.id}
    ensures r.Ok? ==> forall id :: id in t ==> r.value[id] == t[id]
    ensures r.Ok? ==>
              var row := r.value[opts.id];
              && row.cron == cron
              && row.data == EncodePayload(opts.data, encode)
              && row.token == None
              && row.leaseExpiresAt == 0
              && row.runTimeOffsetSeconds == opts.runTimeOffsetSeconds
              && row.timeZone == opts.timeZone
              && row.nextRunAt == next(cron, None, now) + Offset(row)
              && row.maxStaleSeconds == Period(cron, now, next) - 1
              && (opts.leaseSeconds.Some? ==> row.leaseSeconds == opts.leaseSeconds.value)
    ensures r.Ok? && opts.leaseSeconds.None? ==>
              var p := Period(cron, now, next);
              var lease := r.value[opts.id].leaseSeconds;
              p >= 0 ==> 2 * (lease + 1) <= p < 2 * (lease + 1) + 2
  {
    if opts.id in t then Err(DuplicateId(opts.id))
    else
      var period := Period(cron, now, next);
      var row := Row(
        cron := cron,
        data := EncodePayload(opts.data, encode),
        leaseSeconds := opts.leaseSeconds.GetOr(HalfTruncated(period) - 1),
        token := None,
        maxStaleSeconds := period - 1,
        leaseExpiresAt := 0,
        nextRunAt := next(cron, None, now) + opts.runTimeOffsetSeconds.GetOr(0),
        runTimeOffsetSeconds := opts.runTimeOffsetSeconds,
        timeZone := opts.timeZone);
      Ok(t[opts.id := row])
  }
}
