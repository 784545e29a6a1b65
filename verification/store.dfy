/** The one storage primitive every engine operation is built from: a single
    atomic conditional UPDATE (rows matching a predicate are rewritten, the
    others stay as they are, the number matched is reported) and the SELECT
    that reads rows back, in an order the backend chooses. */
module Store {
  import opened Schedule

  /** The primary keys of the rows a WHERE clause matches. */
  function Matching(t: Table, p: (int, Row) -> bool): set<int> {
    set id | id in t && p(id, t[id])
  }

  /** UPDATE ... SET f WHERE p, as one atomic step. */
  function UpdateWhere(t: Table, p: (int, Row) -> bool, f: Row -> Row): Table {
    map id | id in t :: if p(id, t[id]) then f(t[id]) else t[id]
  }

  /** The affected-row count of `UpdateWhere(t, p, f)`. */
  function CountWhere(t: Table, p: (int, Row) -> bool): nat {
    |Matching(t, p)|
  }

  /** The record is a current row of the table. */
  predicate Holds(t: Table, r: Record) {
    r.id in t && t[r.id] == r.row
  }

  function Ids(rs: seq<Record>): set<int> {
    set r | r in rs :: r.id
  }

  lemma FirstIdInIds(rs: seq<Record>)
    ensures rs != [] ==> rs[0].id in Ids(rs)
  {
    if rs != [] {
      assert rs[0] in rs;
    }
  }

  /** No primary key is returned twice. */
  predicate DistinctIds(rs: seq<Record>) {
    forall i, j :: 0 <= i < j < |rs| ==> rs[i].id != rs[j].id
  }

  predicate SortedByNextRun(rs: seq<Record>) {
    forall i, j :: 0 <= i < j < |rs| ==> rs[i].row.nextRunAt <= rs[j].row.nextRunAt
  }

  lemma IdsAppend(rs: seq<Record>, r: Record)
    ensures Ids(rs + [r]) == Ids(rs) + {r.id}
  {
    assert forall x :: x in rs + [r] <==> x in rs || x == r;
  }

  lemma EmptyIfNoMember(s: set<int>)
    requires forall x :: x !in s
    ensures s == {}
  {
    assert forall x :: x in s <==> x in {};
  }

  lemma CardZeroHasNoMember(s: set<int>)
    requires |s| == 0
    ensures forall x :: x !in s
  {
  }

  lemma NonEmptyHasMember(s: set<int>)
    requires s != {}
    ensures exists x :: x in s
  {
    if forall x :: x !in s {
      EmptyIfNoMember(s);
      assert false;
    }
  }

  /** SELECT * WHERE p: every matching row exactly once, in no particular order. */
  method SelectWhere(t: Table, p: (int, Row) -> bool) returns (rs: seq<Record>)
    ensures forall i :: 0 <= i < |rs| ==> Holds(t, rs[i]) && p(rs[i].id, rs[i].row)
    ensures DistinctIds(rs)
    ensures Ids(rs) == Matching(t, p)
  {
    rs := [];
    var rest := t.Keys;
    while rest != {}
      invariant rest <= t.Keys
      invariant forall i :: 0 <= i < |rs| ==> Holds(t, rs[i]) && p(rs[i].id, rs[i].row)
      invariant forall i :: 0 <= i < |rs| ==> rs[i].id !in rest
      invariant DistinctIds(rs)
      invariant Ids(rs) == Matching(t, p) - rest
      decreases rest
    {
      NonEmptyHasMember(rest);
      var id :| id in rest;
      if p(id, t[id]) {
        IdsAppend(rs, Record(id, t[id]));
        rs := rs + [Record(id, t[id])];
      }
      rest := rest - {id};
    }
  }

  /** A nonempty set of rows holds one that runs no later than any other of
      them: the row ORDER BY next_run_at puts first. */
  lemma EarliestExists(t: Table, s: set<int>)
    requires s != {} && s <= t.Keys
    ensures exists id :: id in s && forall j :: j in s ==> t[id].nextRunAt <= t[j].nextRunAt
  {
    var id := EarliestOf(t, s);
  }

  lemma EarliestOf(t: Table, s: set<int>) returns (id: int)
    requires s != {} && s <= t.Keys
    ensures id in s && forall j :: j in s ==> t[id].nextRunAt <= t[j].nextRunAt
    decreases s
  {
    NonEmptyHasMember(s);
    var x :| x in s;
    var rest := s - {x};
    assert forall j :: j in s ==> j == x || j in rest;
    if rest == {} {
      id := x;
    } else {
      var m := EarliestOf(t, rest);
      id := if t[x].nextRunAt <= t[m].nextRunAt then x else m;
    }
  }
}
