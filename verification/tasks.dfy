/** The caller-side handles of the protocol: a Task is one acquired row
    together with the batch token that leases it, and a TaskCollection holds
    the candidate rows of one poll until they are acquired. */
module Tasks {
  import opened Schedule
  import opened Store
  import opened Engine

  /** The payload parser: the decoded document, or None for text that is not
      valid JSON. */
  type Parser = string -> Option<Doc>

  /** An acquired unit of work: the `(id, token)` capability, the decoded
      payload and the row as it was read. */
  datatype Task = Task(token: Token, id: int, data: Option<Doc>, row: Row)

  /** The result of one poll. `tasks` and `token` are set by no operation of
      the collection itself. */
  datatype TaskCollection = TaskCollection(rows: seq<Record>, tasks: seq<Task>, token: Option<Token>)

  /** A task outcome: the table afterwards and whether a row was affected. */
  datatype Outcome = Outcome(table: Table, ok: bool)

  /** The payload as a task reads it: NULL stays NULL, a structured value is
      passed through as it is, and text must parse. */
  function DecodeData(data: Option<Payload>, parse: Parser): (r: Result<Option<Doc>>)
    ensures r.Err? <==> data.Some? && data.value.Text? && parse(data.value.json).None?
    ensures data.None? ==> r == Ok(None)
    ensures data.Some? && data.value.Hash? ==> r == Ok(Some(data.value.doc))
    ensures r.Ok? && data.Some? && data.value.Text? ==> r.value == parse(data.value.json)
  {
    match data
    case None => Ok(None)
    case Some(Hash(doc)) => Ok(Some(doc))
    case Some(Text(json)) =>
      match parse(json)
      case None => Err(MalformedPayload(json))
      case Some(doc) => Ok(Some(doc))
  }

  /** A payload stored by add is read back by a task as the same document,
      for any codec whose parser inverts its encoder on that document. */
  lemma PayloadRoundTrip(data: Option<Doc>, encode: Doc -> string, parse: Parser)
    requires data.Some? ==> parse(encode(data.value)) == Some(data.value)
    ensures DecodeData(EncodePayload(data, encode), parse) == Ok(data)
  {
  }

  /** Task construction; it fails exactly when the payload does not decode. */
  function NewTask(token: Token, id: int, data: Option<Payload>, row: Row, parse: Parser): (r: Result<Task>)
    ensures r.Ok? <==> DecodeData(data, parse).Ok?
    ensures r.Ok? ==> && r.value.token == token && r.value.id == id && r.value.row == row
                      && DecodeData(data, parse) == Ok(r.value.data)
    ensures r.Err? ==> r.error == DecodeData(data, parse).error
  {
    match DecodeData(data, parse)
    case Err(e) => Err(e)
    case Ok(doc) => Ok(Task(token, id, doc, row))
  }

  /** Task#finish!: true exactly when the engine's finish! affected a row,
      that is, exactly when the task's capability was still live. */
  function FinishTask(task: Task, t: Table, now: int, next: CronEval): (r: Result<Outcome>)
    ensures r.Err? <==> task.id !in t
    ensures r.Ok? ==> (r.value.ok <==> Live(t[task.id], task.token, now))
    ensures r.Ok? ==> r.value.ok == (Finish(t, task.id, task.token, now, next).value.count > 0)
    ensures r.Ok? ==> r.value.table == Finish(t, task.id, task.token, now, next).value.table
  {
    match Finish(t, task.id, task.token, now, next)
    case Err(e) => Err(e)
    case Ok(u) => Ok(Outcome(u.table, u.count > 0))
  }

  /** Task#retry!: true exactly when the engine's retry! affected a row, that
      is, exactly when the task's capability was still live. */
  function RetryTask(task: Task, t: Table, now: int): (r: Outcome)
    ensures r.ok <==> task.id in t && Live(t[task.id], task.token, now)
    ensures r.ok == (Retry(t, task.id, task.token, now).count > 0)
    ensures r.table == Retry(t, task.id, task.token, now).table
  {
    var u := Retry(t, task.id, task.token, now);
    Outcome(u.table, u.count > 0)
  }

  /** The ids of the candidates, in candidate order. */
  function CandidateIds(rows: seq<Record>): (ids: seq<int>)
    ensures |ids| == |rows|
    ensures forall i :: 0 <= i < |ids| ==> ids[i] == rows[i].id
  {
    if rows == [] then [] else [rows[0].id] + CandidateIds(rows[1..])
  }

  /** `k` is the task for a row the batch token holds live in `t`. */
  predicate IsTaskOf(k: Task, t: Table, token: Token, now: int, parse: Parser) {
    && k.token == token
    && k.id in t
    && k.row == t[k.id]
    && Live(k.row, token, now)
    && DecodeData(k.row.data, parse) == Ok(k.data)
  }

  function TaskIds(tasks: seq<Task>): set<int> {
    set k | k in tasks :: k.id
  }

  lemma TaskIdsAppend(tasks: seq<Task>, k: Task)
    ensures TaskIds(tasks + [k]) == TaskIds(tasks) + {k.id}
  {
    assert forall x :: x in tasks + [k] <==> x in tasks || x == k;
  }

  /** TaskCollection#acquire_all!: the engine is asked for every candidate id
      in candidate order, even when there is none, and each row it reports as
      acquired becomes one task under the single batch token. A payload that
      does not decode aborts the mapping after the leases are written. The
      collection itself is left as it was. */
  method AcquireTasks(c: TaskCollection, t: Table, now: int, newToken: Token, parse: Parser)
    returns (c': TaskCollection, t': Table, tasks: Result<seq<Task>>)
    ensures c' == c
    ensures t' == AcquireWrite(t, CandidateIds(c.rows), now, newToken)
    ensures tasks.Ok? <==> forall id :: id in LiveIds(t', newToken, now) ==> DecodeData(t'[id].data, parse).Ok?
    ensures tasks.Ok? ==> forall i :: 0 <= i < |tasks.value| ==> IsTaskOf(tasks.value[i], t', newToken, now, parse)
    ensures tasks.Ok? ==> forall i, j :: 0 <= i < j < |tasks.value| ==> tasks.value[i].id != tasks.value[j].id
    ensures tasks.Ok? ==> TaskIds(tasks.value) == LiveIds(t', newToken, now)
    ensures Fresh(t, newToken) && tasks.Ok? ==>
              forall i :: 0 <= i < |tasks.value| ==> tasks.value[i].id in CandidateIds(c.rows)
    ensures c.rows == [] && Fresh(t, newToken) ==> t' == t && tasks == Ok([])
  {
    c' := c;
    var ids := CandidateIds(c.rows);
    var token: Token, owned: seq<Record>;
    t', token, owned := AcquireAll(t, ids, now, newToken);
    var acc: seq<Task> := [];
    var i := 0;
    while i < |owned|
      invariant 0 <= i <= |owned|
      invariant |acc| == i
      invariant forall k :: 0 <= k < i ==> acc[k].id == owned[k].id && IsTaskOf(acc[k], t', newToken, now, parse)
      invariant TaskIds(acc) == Ids(owned[..i])
    {
      var r := NewTask(token, owned[i].id, owned[i].row.data, owned[i].row, parse);
      if r.Err? {
        assert owned[i].id in LiveIds(t', newToken, now);
        tasks := Err(r.error);
        return;
      }
      TaskIdsAppend(acc, r.value);
      IdsAppend(owned[..i], owned[i]);
      assert owned[..i + 1] == owned[..i] + [owned[i]];
      acc := acc + [r.value];
      i := i + 1;
    }
    assert owned[..i] == owned;
    forall id | id in LiveIds(t', newToken, now)
      ensures DecodeData(t'[id].data, parse).Ok?
    {
      assert id in Ids(owned);
      var k :| k in acc && k.id == id;
    }
    tasks := Ok(acc);
    if c.rows == [] && Fresh(t, newToken) {
      assert t' == t;
      EmptyIfNoMember(LiveIds(t', newToken, now));
      FirstIdInIds(owned);
    }
  }
}
