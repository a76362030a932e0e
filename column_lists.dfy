/**
 * Lists of tables with some of their columns, as the user clean-up code and the migrations keep
 * them (`'table' => ['column', ...]`), flattened into (table, column) pairs in the order nested
 * `foreach` loops visit them, and a statement run once per pair.
 */
module ColumnLists {
  import opened Php
  import opened Tables
  import Entity

  /** The (table, column) pairs of one entry of the list. */
  function ColumnsOf(table: string, columns: seq<string>): seq<(string, string)>
    decreases |columns|
  {
    if columns == [] then []
    else ColumnsOf(table, columns[..|columns| - 1]) + [(table, columns[|columns| - 1])]
  }

  /** The (table, column) pairs of the list, in the order the nested loops visit them. */
  function Pairs(list: seq<(string, seq<string>)>): seq<(string, string)>
    decreases |list|
  {
    if list == [] then []
    else Pairs(list[..|list| - 1]) + ColumnsOf(list[|list| - 1].0, list[|list| - 1].1)
  }

  /** Every pair names a table of the list and one of that entry's columns. */
  lemma {:induction false} PairTables(list: seq<(string, seq<string>)>, p: (string, string))
    requires p in Pairs(list)
    ensures exists k | 0 <= k < |list| :: list[k].0 == p.0 && p.1 in list[k].1
    decreases |list|
  {
    var init := list[..|list| - 1];
    var last := list[|list| - 1];
    if p in Pairs(init) {
      PairTables(init, p);
      var k :| 0 <= k < |init| && init[k].0 == p.0 && p.1 in init[k].1;
      assert list[k] == init[k];
    } else {
      ColumnsTable(last.0, last.1, p);
    }
  }

  lemma {:induction false} ColumnsTable(table: string, columns: seq<string>, p: (string, string))
    requires p in ColumnsOf(table, columns)
    ensures p.0 == table && p.1 in columns
    decreases |columns|
  {
    var init := columns[..|columns| - 1];
    if p !in ColumnsOf(table, init) {
      assert p == (table, columns[|columns| - 1]);
    } else {
      ColumnsTable(table, init, p);
      assert forall c | c in init :: c in columns;
    }
  }

  /** A statement run on each pair in turn: `step(rows, column)` is its effect on the pair's table. */
  function EachPair(tables: map<string, Table>, pairs: seq<(string, string)>, step: (Table, string) -> Table): map<string, Table>
    decreases |pairs|
  {
    if pairs == [] then tables
    else
      var before := EachPair(tables, pairs[..|pairs| - 1], step);
      var (table, column) := pairs[|pairs| - 1];
      before[table := step(Entity.TableOf(before, table), column)]
  }

  lemma EachPairSnoc(tables: map<string, Table>, pairs: seq<(string, string)>, table: string, column: string,
                     step: (Table, string) -> Table)
    ensures var before := EachPair(tables, pairs, step);
      EachPair(tables, pairs + [(table, column)], step) == before[table := step(Entity.TableOf(before, table), column)]
  {
    assert (pairs + [(table, column)])[..|pairs|] == pairs;
  }

  lemma {:induction false} EachPairAppend(tables: map<string, Table>, a: seq<(string, string)>, b: seq<(string, string)>,
                                          step: (Table, string) -> Table)
    ensures EachPair(tables, a + b, step) == EachPair(EachPair(tables, a, step), b, step)
    decreases |b|
  {
    if b != [] {
      var init := b[..|b| - 1];
      EachPairAppend(tables, a, init, step);
      assert (a + b)[..|a + b| - 1] == a + init;
    } else {
      assert a + b == a;
    }
  }

  /** A table no pair names is untouched. */
  lemma {:induction false} EachPairKeeps(tables: map<string, Table>, pairs: seq<(string, string)>, step: (Table, string) -> Table,
                                         name: string)
    requires forall p | p in pairs :: p.0 != name
    ensures Entity.TableOf(EachPair(tables, pairs, step), name) == Entity.TableOf(tables, name)
    decreases |pairs|
  {
    if pairs != [] {
      var init := pairs[..|pairs| - 1];
      assert forall p | p in init :: p in pairs;
      EachPairKeeps(tables, init, step, name);
    }
  }

  /** `step` rewrites the one column through `f` and keeps the rows, in place, and their other columns. */
  ghost predicate RewritesColumn(step: (Table, string) -> Table, f: Value -> Value) {
    forall t: Table, column: string :: |step(t, column)| == |t| &&
      forall i, c | 0 <= i < |t| :: Get(step(t, column)[i], c) == if c == column then f(Get(t[i], c)) else Get(t[i], c)
  }

  /**
   * For a statement that rewrites one column through a function applied once or more with the same
   * result, every row keeps its place and every listed column holds the rewritten value.
   */
  lemma {:induction false} EachPairRewrites(tables: map<string, Table>, pairs: seq<(string, string)>, step: (Table, string) -> Table,
                                            f: Value -> Value, name: string)
    requires RewritesColumn(step, f)
    requires forall v :: f(f(v)) == f(v)
    ensures var before := Entity.TableOf(tables, name);
      var after := Entity.TableOf(EachPair(tables, pairs, step), name);
      && |after| == |before|
      && forall i, c | 0 <= i < |before| :: Get(after[i], c) == if (name, c) in pairs then f(Get(before[i], c)) else Get(before[i], c)
    decreases |pairs|
  {
    if pairs != [] {
      var init := pairs[..|pairs| - 1];
      var (table, column) := pairs[|pairs| - 1];
      EachPairRewrites(tables, init, step, f, name);
      var before := Entity.TableOf(tables, name);
      var mid := Entity.TableOf(EachPair(tables, init, step), name);
      var after := Entity.TableOf(EachPair(tables, pairs, step), name);
      if name == table {
        assert after == step(mid, column);
      } else {
        assert after == mid;
      }
      forall i, c | 0 <= i < |before|
        ensures Get(after[i], c) == if (name, c) in pairs then f(Get(before[i], c)) else Get(before[i], c)
      {
        assert (name, c) in pairs <==> (name, c) in init || (name, c) == (table, column);
      }
    }
  }
}
