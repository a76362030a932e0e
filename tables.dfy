/**
 * Database tables as the query builder sees them: a table is a sequence of rows, a row maps column
 * names to PHP scalars, and a column a row does not carry reads as SQL NULL. The statements used by
 * the content store (`where`, `update`, `delete`, `insertUsing`, `leftJoin`, `select`) are functions
 * on tables; `Database` holds the named tables that the imperative code changes in place.
 */
module Tables {
  import opened Wrappers
  import opened Seqs
  import opened Php

  type Row = map<string, Value>
  type Table = seq<Row>

  /** The value of `column` in `row`; NULL when the row does not carry it. */
  function Get(row: Row, column: string): Value {
    if column in row then row[column] else Null
  }

  /**
   * Laravel's `where(column, '=', v)`: for a NULL `v` the builder writes `column IS NULL`, so the
   * condition is plain equality of the stored value.
   */
  predicate WhereEquals(row: Row, column: string, v: Value) {
    Get(row, column) == v
  }

  /** `where(column, '=', v)` (or `whereNull(column)` for a NULL `v`) as a row condition. */
  function Where(column: string, v: Value): Row -> bool {
    row => WhereEquals(row, column, v)
  }

  /** SQL `a = b` between two column values. */
  predicate SqlEquals(a: Value, b: Value) {
    a != Null && a == b
  }

  /** The values of `column` across a table, as a sub-select `SELECT column FROM t` yields them. */
  function ColumnValues(t: Table, column: string): (vs: set<Value>)
    ensures forall r | r in t :: Get(r, column) in vs
  {
    set r | r in t :: Get(r, column)
  }

  /**
   * SQL `v NOT IN (S)` in three-valued logic: it holds only when `v` is not NULL, `S` holds no NULL
   * and `v` is not among `S`; with a NULL on either side the condition is unknown and the row is not
   * selected.
   */
  predicate SqlNotIn(v: Value, s: set<Value>) {
    v != Null && Null !in s && v !in s
  }

  /** `whereNotIn(column, S)` as a row condition. */
  function WhereNotIn(column: string, s: set<Value>): Row -> bool {
    row => SqlNotIn(Get(row, column), s)
  }

  /** The first row satisfying `p`, in table order (`->first()`). */
  function First(t: Table, p: Row -> bool): (r: Option<Row>)
    ensures r.Some? <==> exists i | 0 <= i < |t| :: p(t[i])
    ensures r.Some? ==> r.value in t && p(r.value)
  {
    if t == [] then None
    else if p(t[0]) then Some(t[0])
    else First(t[1..], p)
  }

  /** `UPDATE t SET ... WHERE p`: `f` rewrites every selected row, the others stay as they are. */
  function UpdateWhere(t: Table, p: Row -> bool, f: Row -> Row): (r: Table)
    ensures |r| == |t|
    ensures forall i | 0 <= i < |t| :: r[i] == if p(t[i]) then f(t[i]) else t[i]
  {
    Map(t, row => if p(row) then f(row) else row)
  }

  /** `UPDATE t SET column = v WHERE p`. */
  function SetWhere(t: Table, p: Row -> bool, column: string, v: Value): (r: Table)
    ensures |r| == |t|
    ensures forall i | 0 <= i < |t| :: Get(r[i], column) == if p(t[i]) then v else Get(t[i], column)
    ensures forall i, c | 0 <= i < |t| && c != column :: Get(r[i], c) == Get(t[i], c)
  {
    UpdateWhere(t, p, row => row[column := v])
  }

  /** The row change of `SET column = v WHERE p`, on one row. */
  function SetIf(p: Row -> bool, column: string, v: Value): Row -> Row {
    row => if p(row) then row[column := v] else row
  }

  /** Reading a column after the row change of an update. */
  lemma SetIfGet(p: Row -> bool, column: string, v: Value, row: Row, c: string)
    ensures Get(SetIf(p, column, v)(row), c) == if c == column && p(row) then v else Get(row, c)
  {
  }

  /** One `UPDATE ... SET column = value WHERE cond` statement. */
  datatype Update = Update(cond: Row -> bool, column: string, value: Value)

  /** Statements run one after another, as they change a single row. */
  function RunUpdates(us: seq<Update>, row: Row): Row
    decreases |us|
  {
    if us == [] then row else RunUpdates(us[1..], SetIf(us[0].cond, us[0].column, us[0].value)(row))
  }

  /** `RunUpdates` as a row function. */
  function RowUpdates(us: seq<Update>): Row -> Row {
    row => RunUpdates(us, row)
  }

  /** Running two lists of statements is running the first, then the second. */
  lemma {:induction false} RunUpdatesConcat(a: seq<Update>, b: seq<Update>, row: Row)
    ensures RunUpdates(a + b, row) == RunUpdates(b, RunUpdates(a, row))
  {
    if a == [] {
      assert a + b == b;
    } else {
      assert (a + b)[1..] == a[1..] + b;
      RunUpdatesConcat(a[1..], b, SetIf(a[0].cond, a[0].column, a[0].value)(row));
    }
  }

  /** Running four statements on a row is applying their row changes in turn. */
  lemma RunFour(us: seq<Update>, row: Row)
    requires |us| == 4
    ensures RunUpdates(us, row) ==
      var r1 := SetIf(us[0].cond, us[0].column, us[0].value)(row);
      var r2 := SetIf(us[1].cond, us[1].column, us[1].value)(r1);
      var r3 := SetIf(us[2].cond, us[2].column, us[2].value)(r2);
      SetIf(us[3].cond, us[3].column, us[3].value)(r3)
  {
    var r1 := SetIf(us[0].cond, us[0].column, us[0].value)(row);
    var r2 := SetIf(us[1].cond, us[1].column, us[1].value)(r1);
    var r3 := SetIf(us[2].cond, us[2].column, us[2].value)(r2);
    var r4 := SetIf(us[3].cond, us[3].column, us[3].value)(r3);
    assert us[1..][0] == us[1] && us[1..][1..] == us[2..];
    assert us[2..][0] == us[2] && us[2..][1..] == us[3..];
    assert us[3..][0] == us[3] && us[3..][1..] == [];
    assert RunUpdates(us[3..], r3) == r4;
    assert RunUpdates(us[2..], r2) == r4;
    assert RunUpdates(us[1..], r1) == r4;
  }

  /** Four updates of a table are the row changes of the four statements mapped over it. */
  lemma FourUpdatesAreMap(t: Table, us: seq<Update>)
    requires |us| == 4
    ensures SetWhere(SetWhere(SetWhere(SetWhere(t, us[0].cond, us[0].column, us[0].value),
      us[1].cond, us[1].column, us[1].value), us[2].cond, us[2].column, us[2].value), us[3].cond, us[3].column, us[3].value)
      == Map(t, RowUpdates(us))
  {
    var f1, f2 := SetIf(us[0].cond, us[0].column, us[0].value), SetIf(us[1].cond, us[1].column, us[1].value);
    var f3, f4 := SetIf(us[2].cond, us[2].column, us[2].value), SetIf(us[3].cond, us[3].column, us[3].value);
    SetWhereIsMap(t, us[0].cond, us[0].column, us[0].value);
    SetWhereIsMap(Map(t, f1), us[1].cond, us[1].column, us[1].value);
    MapThen(t, f1, f2);
    SetWhereIsMap(Map(t, Then(f1, f2)), us[2].cond, us[2].column, us[2].value);
    MapThen(t, Then(f1, f2), f3);
    SetWhereIsMap(Map(t, Then(Then(f1, f2), f3)), us[3].cond, us[3].column, us[3].value);
    MapThen(t, Then(Then(f1, f2), f3), f4);
    forall x | x in t
      ensures Then(Then(Then(f1, f2), f3), f4)(x) == RowUpdates(us)(x)
    {
      ThenApply(Then(Then(f1, f2), f3), f4, x);
      ThenApply(Then(f1, f2), f3, x);
      ThenApply(f1, f2, x);
      RunFour(us, x);
    }
    MapCongruent(t, Then(Then(Then(f1, f2), f3), f4), RowUpdates(us));
  }

  /** An update is a map of its row change over the table. */
  lemma SetWhereIsMap(t: Table, p: Row -> bool, column: string, v: Value)
    ensures SetWhere(t, p, column, v) == Map(t, SetIf(p, column, v))
  {
  }

  /** `DELETE FROM t WHERE p`: the rows not selected, in their order. */
  function DeleteWhere(t: Table, p: Row -> bool): (r: Table)
    ensures forall row :: row in r <==> row in t && !p(row)
    ensures |r| <= |t|
  {
    Filter(t, row => !p(row))
  }

  /** `SELECT columns`: the row cut down to the listed columns, absent ones read as NULL. */
  function Project(row: Row, columns: seq<string>): (r: Row)
    ensures r.Keys == set c | c in columns
    ensures forall c | c in columns :: r[c] == Get(row, c)
  {
    map c | c in columns :: Get(row, c)
  }

  /** `SELECT columns` as a row function. */
  function Select(columns: seq<string>): Row -> Row {
    row => Project(row, columns)
  }

  /** Two rows that agree on the listed columns have the same projection. */
  lemma ProjectAgrees(a: Row, b: Row, columns: seq<string>)
    requires forall c | c in columns :: Get(a, c) == Get(b, c)
    ensures Project(a, columns) == Project(b, columns)
  {
  }

  /** Reading a merged row: the right-hand row's columns win (`SELECT *` over a join). */
  lemma GetMerge(l: Row, r: Row, column: string)
    ensures Get(l + r, column) == if column in r then r[column] else Get(l, column)
  {
  }

  /** The join condition with its left row fixed. */
  function OnLeft(l: Row, on: (Row, Row) -> bool): Row -> bool {
    x => on(l, x)
  }

  /** The right rows that the join condition pairs with the left row `l`. */
  function Matching(l: Row, right: Table, on: (Row, Row) -> bool): (r: Table)
    ensures forall x :: x in r <==> x in right && on(l, x)
  {
    Filter(right, OnLeft(l, on))
  }

  /** On the right rows, a condition that agrees with the join condition selects the same rows. */
  lemma MatchingIsFilter(l: Row, right: Table, on: (Row, Row) -> bool, q: Row -> bool)
    requires forall x | x in right :: on(l, x) == q(x)
    ensures Matching(l, right, on) == Filter(right, q)
  {
    FilterCongruent(right, OnLeft(l, on), q);
  }

  /** One left row of a left join: merged with every matching right row, or alone when none matches. */
  function JoinOne(l: Row, right: Table, on: (Row, Row) -> bool): (r: Table)
    ensures r != []
    ensures Matching(l, right, on) == [] ==> r == [l]
  {
    var matches := Matching(l, right, on);
    if matches == [] then [l] else Map(matches, x => l + x)
  }

  /** `left LEFT JOIN right ON on`, rows in the order of the left table. */
  function LeftJoin(left: Table, right: Table, on: (Row, Row) -> bool): (r: Table)
    ensures |r| >= |left|
  {
    if left == [] then [] else JoinOne(left[0], right, on) + LeftJoin(left[1..], right, on)
  }

  /** A left join keeps every left row: each one is, or is extended by, some result row. */
  lemma {:induction false} LeftJoinKeepsLeft(left: Table, right: Table, on: (Row, Row) -> bool, l: Row)
    requires l in left
    ensures exists m | m in LeftJoin(left, right, on) :: m == l || exists x | x in right :: on(l, x) && m == l + x
  {
    if left[0] == l {
      var out := JoinOne(l, right, on);
      var matches := Matching(l, right, on);
      if matches != [] {
        assert out[0] == l + matches[0] && matches[0] in right;
      }
      assert out[0] in LeftJoin(left, right, on);
    } else {
      LeftJoinKeepsLeft(left[1..], right, on, l);
      var rest := LeftJoin(left[1..], right, on);
      assert forall m | m in rest :: m in LeftJoin(left, right, on);
    }
  }

  /** Every result row of a left join is a left row, alone or merged with a right row it matches. */
  lemma {:induction false} LeftJoinRows(left: Table, right: Table, on: (Row, Row) -> bool)
    ensures forall m | m in LeftJoin(left, right, on) ::
      exists l | l in left :: m == l || exists x | x in right :: on(l, x) && m == l + x
  {
    if left != [] {
      LeftJoinRows(left[1..], right, on);
      var l := left[0];
      var matches := Matching(l, right, on);
      forall m | m in JoinOne(l, right, on)
        ensures m == l || exists x | x in right :: on(l, x) && m == l + x
      {
        if matches != [] {
          var i :| 0 <= i < |matches| && m == Map(matches, x => l + x)[i];
          assert matches[i] in right && on(l, matches[i]);
        }
      }
      forall m | m in LeftJoin(left, right, on)
        ensures exists l' | l' in left :: m == l' || exists x | x in right :: on(l', x) && m == l' + x
      {
        if m in JoinOne(l, right, on) {
          assert l in left;
        } else {
          assert m in LeftJoin(left[1..], right, on);
          assert forall l' | l' in left[1..] :: l' in left;
        }
      }
    }
  }

  /** The rows one left row contributes to a left join read a column the right rows lack from the left row. */
  lemma JoinOneGet(l: Row, right: Table, on: (Row, Row) -> bool, c: string)
    requires forall x | x in right :: c !in x
    ensures forall m | m in JoinOne(l, right, on) :: Get(m, c) == Get(l, c)
  {
    var matches := Matching(l, right, on);
    if matches != [] {
      forall m | m in JoinOne(l, right, on)
        ensures Get(m, c) == Get(l, c)
      {
        var i :| 0 <= i < |matches| && m == Map(matches, x => l + x)[i];
        assert matches[i] in right;
        GetMerge(l, matches[i], c);
      }
    }
  }

  /**
   * Filtering a left join on a column the right rows lack is filtering its left side first: the
   * `where` after the join sees only the left row's value.
   */
  lemma {:induction false} FilterLeftJoin(left: Table, right: Table, on: (Row, Row) -> bool, c: string, v: Value)
    requires forall x | x in right :: c !in x
    ensures Filter(LeftJoin(left, right, on), Where(c, v)) == LeftJoin(Filter(left, Where(c, v)), right, on)
  {
    if left != [] {
      var l, p := left[0], Where(c, v);
      FilterLeftJoin(left[1..], right, on, c, v);
      FilterConcat(JoinOne(l, right, on), LeftJoin(left[1..], right, on), p);
      JoinOneGet(l, right, on, c);
      if p(l) {
        FilterAll(JoinOne(l, right, on), p);
      } else {
        FilterNone(JoinOne(l, right, on), p);
      }
      FilterHead(left, p);
      LeftJoinOfCons(l, Filter(left[1..], p), right, on, p(l));
    }
  }

  lemma LeftJoinOfCons(l: Row, rest: Table, right: Table, on: (Row, Row) -> bool, keep: bool)
    ensures LeftJoin((if keep then [l] else []) + rest, right, on) ==
      (if keep then JoinOne(l, right, on) else []) + LeftJoin(rest, right, on)
  {
    if keep {
      var s := [l] + rest;
      assert s[0] == l && s[1..] == rest;
    } else {
      assert [] + rest == rest;
    }
  }

  /** The row `f` picks merged with the row `h` picks. */
  function MergeWith<T>(f: T -> Row, h: T -> Row): T -> Row {
    x => f(x) + h(x)
  }

  /**
   * When every left row meets exactly the right row `h` picks for it, the join merges each left row
   * with that one row, keeping the left order.
   */
  lemma {:induction false} LeftJoinExactlyOne<T>(s: seq<T>, f: T -> Row, h: T -> Row, right: Table, on: (Row, Row) -> bool)
    requires forall x | x in s :: Matching(f(x), right, on) == [h(x)]
    ensures LeftJoin(Map(s, f), right, on) == Map(s, MergeWith(f, h))
  {
    if s != [] {
      assert forall x | x in s[1..] :: x in s;
      LeftJoinExactlyOne(s[1..], f, h, right, on);
      assert s[0] in s;
      LeftJoinExactlyOneStep(s, f, h, right, on);
    }
  }

  lemma LeftJoinExactlyOneStep<T>(s: seq<T>, f: T -> Row, h: T -> Row, right: Table, on: (Row, Row) -> bool)
    requires s != []
    requires Matching(f(s[0]), right, on) == [h(s[0])]
    requires LeftJoin(Map(s[1..], f), right, on) == Map(s[1..], MergeWith(f, h))
    ensures LeftJoin(Map(s, f), right, on) == Map(s, MergeWith(f, h))
  {
    var left := Map(s, f);
    MapCons(s, f);
    MapCons(s, MergeWith(f, h));
    assert left[0] == f(s[0]) && left[1..] == Map(s[1..], f);
    JoinOneSingle(f(s[0]), h(s[0]), right, on);
  }

  lemma JoinOneSingle(l: Row, x: Row, right: Table, on: (Row, Row) -> bool)
    requires Matching(l, right, on) == [x]
    ensures JoinOne(l, right, on) == [l + x]
  {
  }

  /** The left row `l` combined with a right row by `merge`. */
  function MergeLeft(l: Row, merge: (Row, Row) -> Row): Row -> Row {
    x => merge(l, x)
  }

  /** `left JOIN right ON on`: each left row, in order, combined with each right row it matches. */
  function InnerJoin(left: Table, right: Table, on: (Row, Row) -> bool, merge: (Row, Row) -> Row): Table {
    if left == [] then []
    else Map(Matching(left[0], right, on), MergeLeft(left[0], merge)) + InnerJoin(left[1..], right, on, merge)
  }

  /** The rows one left row contributes are its combinations with the right rows it matches. */
  lemma InJoinOf(l: Row, right: Table, on: (Row, Row) -> bool, merge: (Row, Row) -> Row, m: Row)
    ensures m in Map(Matching(l, right, on), MergeLeft(l, merge)) <==> exists x | x in right && on(l, x) :: m == merge(l, x)
  {
    var ms := Matching(l, right, on);
    if m in Map(ms, MergeLeft(l, merge)) {
      var i :| 0 <= i < |ms| && Map(ms, MergeLeft(l, merge))[i] == m;
      assert ms[i] in right && on(l, ms[i]);
    }
    if exists x | x in right && on(l, x) :: m == merge(l, x) {
      var x :| x in right && on(l, x) && m == merge(l, x);
      var i :| 0 <= i < |ms| && ms[i] == x;
      assert Map(ms, MergeLeft(l, merge))[i] == m;
    }
  }

  /** A row is in an inner join exactly when it combines a left row with a right row it matches. */
  lemma {:induction false} InnerJoinRows(left: Table, right: Table, on: (Row, Row) -> bool, merge: (Row, Row) -> Row, m: Row)
    ensures m in InnerJoin(left, right, on, merge) <==>
      exists l, x | l in left && x in right && on(l, x) :: m == merge(l, x)
  {
    if left != [] {
      InnerJoinRows(left[1..], right, on, merge, m);
      InJoinOf(left[0], right, on, merge, m);
      InnerJoinRowsStep(left, right, on, merge, m);
    }
  }

  lemma InnerJoinRowsStep(left: Table, right: Table, on: (Row, Row) -> bool, merge: (Row, Row) -> Row, m: Row)
    requires left != []
    requires m in InnerJoin(left[1..], right, on, merge) <==>
      exists l, x | l in left[1..] && x in right && on(l, x) :: m == merge(l, x)
    requires m in Map(Matching(left[0], right, on), MergeLeft(left[0], merge)) <==>
      exists x | x in right && on(left[0], x) :: m == merge(left[0], x)
    ensures m in InnerJoin(left, right, on, merge) <==>
      exists l, x | l in left && x in right && on(l, x) :: m == merge(l, x)
  {
    if exists l, x | l in left && x in right && on(l, x) :: m == merge(l, x) {
      var l, x :| l in left && x in right && on(l, x) && m == merge(l, x);
      if l != left[0] {
        assert l in left[1..];
      }
    }
    assert forall l | l in left[1..] :: l in left;
  }

  /** One more left row adds its combinations at the end. */
  lemma {:induction false} InnerJoinSnoc(left: Table, y: Row, right: Table, on: (Row, Row) -> bool, merge: (Row, Row) -> Row)
    ensures InnerJoin(left + [y], right, on, merge) ==
      InnerJoin(left, right, on, merge) + Map(Matching(y, right, on), MergeLeft(y, merge))
  {
    if left == [] {
      assert left + [y] == [y];
      assert [y][1..] == [];
    } else {
      assert (left + [y])[0] == left[0];
      assert (left + [y])[1..] == left[1..] + [y];
      InnerJoinSnoc(left[1..], y, right, on, merge);
    }
  }

  /** A database connection: the named tables, changed in place by the statements run against it. */
  class Database {
    var tables: map<string, Table>

    constructor(initial: map<string, Table>)
      ensures tables == initial
    {
      tables := initial;
    }

    /** The rows of a table; a table that does not exist reads as empty. */
    function Rows(name: string): Table
      reads this
    {
      if name in tables then tables[name] else []
    }

    /** Runs `UPDATE name SET column = v WHERE p`. */
    method SetWhereIn(name: string, p: Row -> bool, column: string, v: Value)
      modifies this
      ensures tables == old(tables)[name := SetWhere(old(Rows(name)), p, column, v)]
    {
      tables := tables[name := SetWhere(Rows(name), p, column, v)];
    }

    /** Runs `DELETE FROM name WHERE p`. */
    method DeleteWhereIn(name: string, p: Row -> bool)
      modifies this
      ensures tables == old(tables)[name := DeleteWhere(old(Rows(name)), p)]
    {
      tables := tables[name := DeleteWhere(Rows(name), p)];
    }

    /** `Schema::create(name, ...)`: a new, empty table. */
    method Create(name: string)
      modifies this
      ensures tables == old(tables)[name := []]
    {
      tables := tables[name := []];
    }

    /** `Schema::dropIfExists(name)`: the table is gone, whether or not it was there. */
    method DropIfExists(name: string)
      modifies this
      ensures tables == old(tables) - {name}
    {
      tables := tables - {name};
    }

    /** Runs `INSERT INTO name (...) SELECT ...`: the selected rows are appended. */
    method InsertUsing(name: string, rows: Table)
      modifies this
      ensures tables == old(tables)[name := old(Rows(name)) + rows]
    {
      tables := tables[name := Rows(name) + rows];
    }
  }
}
