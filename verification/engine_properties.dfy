/** Properties of the lease protocol that relate several engine operations. */
module EngineProperties {
  import opened Schedule
  import opened Store
  import opened Engine

  /** A due row and a stale row are different things: `nextRunAt == now` is
      due, one second later is not yet due, and the stale boundary
      `now - maxStaleSeconds` is left to reconciliation, not to poll. */
  lemma PollBoundaries(row: Row, now: int)
    requires row.leaseExpiresAt <= now
    ensures row.nextRunAt == now && row.maxStaleSeconds > 0 ==> Due(row, now)
    ensures row.nextRunAt == now + 1 ==> !Due(row, now)
    ensures row.nextRunAt == now - row.maxStaleSeconds ==> !Due(row, now) && Stale(row, now)
  {
  }

  /** After one reconciliation pass nothing is stale at the same instant, so a
      second pass, under any token, reconciles no row. */
  lemma UpdateStalesIdempotent(t: Table, now: int, first: Token, second: Token, next: CronEval)
    requires Advances(next) && WellFormed(t)
    ensures UpdateStales(UpdateStales(t, now, first, next).table, now, second, next).count == 0
  {
    var r := UpdateStales(t, now, first, next);
    var t1 := r.table;
    forall id | id in t1
      ensures !Stale(t1[id], now)
    {
      if Stale(t[id], now) || (r.count > 0 && t[id].token == Some(first)) {
        assert t1[id].nextRunAt == Reschedule(t[id], now, next);
        assert t1[id].maxStaleSeconds == t[id].maxStaleSeconds;
      } else {
        assert t1[id] == t[id];
      }
    }
    EmptyIfNoMember(StaleIds(t1, now));
  }

  /** No engine operation changes a schedule definition, so none breaks the
      well-formedness invariant. */
  lemma UpdateStalesKeepsWellFormed(t: Table, now: int, token: Token, next: CronEval)
    requires WellFormed(t)
    ensures WellFormed(UpdateStales(t, now, token, next).table)
  {
    SameDefinitionsKeepWellFormed(t, UpdateStales(t, now, token, next).table);
  }

  lemma AcquireKeepsWellFormed(t: Table, ids: seq<int>, now: int, token: Token)
    requires WellFormed(t)
    ensures WellFormed(AcquireWrite(t, ids, now, token))
  {
    var acquired := AcquireWrite(t, ids, now, token);
    forall k | k in acquired
      ensures acquired[k].maxStaleSeconds >= 0
    {
      assert acquired[k].maxStaleSeconds == t[k].maxStaleSeconds;
    }
  }

  lemma ReleaseKeepsWellFormed(t: Table, id: int, token: Token, now: int, next: CronEval)
    requires WellFormed(t)
    ensures Finish(t, id, token, now, next).Ok? ==> WellFormed(Finish(t, id, token, now, next).value.table)
    ensures WellFormed(Retry(t, id, token, now).table)
  {
    if Finish(t, id, token, now, next).Ok? {
      SameDefinitionsKeepWellFormed(t, Finish(t, id, token, now, next).value.table);
    }
    SameDefinitionsKeepWellFormed(t, Retry(t, id, token, now).table);
  }

  /** Under an advancing cron evaluator, add inserts a well-formed row. */
  lemma AddKeepsWellFormed(t: Table, cron: string, opts: AddOptions, now: int, next: CronEval,
                           encode: Doc -> string)
    requires WellFormed(t) && Advances(next)
    ensures Add(t, cron, opts, now, next, encode).Ok? ==> WellFormed(Add(t, cron, opts, now, next, encode).value)
  {
  }

  /** A token is a capability for one lease only: once a later acquire_all!
      writes the row under another token, finish! and retry! with the earlier
      token do nothing, even before the earlier lease would have run out. */
  lemma SupersededTokenIsDead(t: Table, id: int, ids: seq<int>, now: int, held: Token,
                              newToken: Token, later: int, next: CronEval)
    requires id in t && id in ids && InWindow(t[id], now) && held != newToken
    ensures var t' := AcquireWrite(t, ids, now, newToken);
            && Finish(t', id, held, later, next) == Ok(Update(t', 0))
            && Retry(t', id, held, later) == Update(t', 0)
  {
    var t' := AcquireWrite(t, ids, now, newToken);
    assert t'[id].token == Some(newToken);
  }

  /** acquire_all! does not look at the current lease: a row still leased to
      another holder, if named and inside its window, changes hands, and the
      earlier holder's capability is gone. */
  lemma AcquireOverridesLiveLease(t: Table, id: int, ids: seq<int>, now: int, held: Token, newToken: Token)
    requires id in t && Live(t[id], held, now) && held != newToken
    requires id in ids && InWindow(t[id], now) && t[id].leaseSeconds > 0
    ensures var t' := AcquireWrite(t, ids, now, newToken);
            Live(t'[id], newToken, now) && !Live(t'[id], held, now)
  {
  }

  /** A successful finish! ends the lease and moves the row past `now`: the
      row is neither due nor finishable again with the same token. */
  lemma FinishIsFinal(t: Table, id: int, token: Token, now: int, next: CronEval)
    requires Advances(next) && now >= 0
    requires id in t && Live(t[id], token, now)
    ensures var f := Finish(t, id, token, now, next);
            && f.Ok? && f.value.count == 1
            && !Due(f.value.table[id], now)
            && id !in DueIds(f.value.table, now)
            && Finish(f.value.table, id, token, now, next) == Ok(Update(f.value.table, 0))
  {
    var f := Finish(t, id, token, now, next);
    assert f.value.table[id].nextRunAt > now;
  }

  /** A successful retry! releases the lease but keeps the schedule, so a row
      still inside its window is due again at once, and the same token cannot
      release it twice. */
  lemma RetryMakesRowDueAgain(t: Table, id: int, token: Token, now: int)
    requires now >= 0 && id in t && Live(t[id], token, now) && InWindow(t[id], now)
    ensures var r := Retry(t, id, token, now);
            && r.count == 1
            && id in DueIds(r.table, now)
            && r.table[id].nextRunAt == t[id].nextRunAt
            && Retry(r.table, id, token, now) == Update(r.table, 0)
  {
    var r := Retry(t, id, token, now);
    assert Due(r.table[id], now);
  }

  /** The life of a row with default lease settings: once its first run
      arrives it is due; acquiring it under a fresh token leases it to that
      token alone; finishing it then succeeds, releases the lease and moves
      the run past that instant. */
  lemma AddAcquireFinish(t: Table, cron: string, opts: AddOptions, now: int, next: CronEval,
                         encode: Doc -> string, newToken: Token)
    requires Advances(next) && now >= 0
    requires opts.id !in t && opts.leaseSeconds.None? && opts.runTimeOffsetSeconds.GetOr(0) >= 0
    requires Period(cron, now, next) >= 4
    requires Fresh(t, newToken)
    ensures Add(t, cron, opts, now, next, encode).Ok?
    ensures var t1 := Add(t, cron, opts, now, next, encode).value;
            var at := t1[opts.id].nextRunAt;
            var t2 := AcquireWrite(t1, [opts.id], at, newToken);
            var f := Finish(t2, opts.id, newToken, at, next);
            && at > now
            && opts.id in DueIds(t1, at)
            && Live(t2[opts.id], newToken, at)
            && (forall id :: id in t2 && id != opts.id ==> !Live(t2[id], newToken, at))
            && f.Ok? && f.value.count == 1
            && f.value.table[opts.id].leaseExpiresAt == 0
            && f.value.table[opts.id].nextRunAt > at
  {
    var t1 := Add(t, cron, opts, now, next, encode).value;
    var row := t1[opts.id];
    var at := row.nextRunAt;
    assert row.leaseSeconds >= 1;
    assert Due(row, at);
    var t2 := AcquireWrite(t1, [opts.id], at, newToken);
    assert t2[opts.id] == Leased(row, at, newToken);
    forall id | id in t2 && id != opts.id
      ensures !Live(t2[id], newToken, at)
    {
      assert t2[id] == t[id];
    }
  }
}
