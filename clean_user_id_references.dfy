/**
 * The migration that cleans user references: in each nullable user column, a 0 and an id naming
 * no user become NULL; rows of tables that belong to a user whose `user_id` names no user are
 * deleted. `down` writes the NULLs back as 0. The column type changes are not part of this model.
 */
module CleanUserIdReferences {
  import opened Php
  import opened Tables
  import Entity
  import opened ColumnLists

  const UsersTable := "users"

  /** `$toNullify`: the nullable user reference columns, table by table. */
  const ToNullify: seq<(string, seq<string>)> := [
    ("attachments", ["created_by", "updated_by"]),
    ("comments", ["created_by", "updated_by"]),
    ("deletions", ["deleted_by"]),
    ("entities", ["created_by", "updated_by", "owned_by"]),
    ("images", ["created_by", "updated_by"]),
    ("imports", ["created_by"]),
    ("joint_permissions", ["owner_id"]),
    ("page_revisions", ["created_by"])
  ]

  /** `$toClean`: the tables whose rows belong to a user, with the column naming the user. */
  const ToClean: seq<(string, seq<string>)> := [
    ("api_tokens", ["user_id"]),
    ("email_confirmations", ["user_id"]),
    ("favourites", ["user_id"]),
    ("mfa_values", ["user_id"]),
    ("role_user", ["user_id"]),
    ("sessions", ["user_id"]),
    ("social_accounts", ["user_id"]),
    ("user_invites", ["user_id"]),
    ("views", ["user_id"]),
    ("watches", ["user_id"])
  ]

  /** The two updates `up` runs on one nullable column. */
  function NullifyStep(userIds: set<Value>): (Table, string) -> Table {
    (t, column) => SetWhere(SetWhere(t, Where(column, Int(0)), column, Null), WhereNotIn(column, userIds), column, Null)
  }

  /** The delete `up` runs on one user column of a dependent table. */
  function DeleteStep(userIds: set<Value>): (Table, string) -> Table {
    (t, column) => DeleteWhere(t, WhereNotIn(column, userIds))
  }

  /** The update `down` runs on one nullable column. */
  function RevertStep(): (Table, string) -> Table {
    (t, column) => SetWhere(t, Where(column, Null), column, Int(0))
  }

  /** The ids the `users` table holds, as the sub-select `select id from users` yields them. */
  function UserIds(tables: map<string, Table>): set<Value> {
    ColumnValues(Entity.TableOf(tables, UsersTable), "id")
  }

  /** The tables after `up`. */
  function UpEffect(tables: map<string, Table>): map<string, Table> {
    var userIds := UserIds(tables);
    EachPair(EachPair(tables, Pairs(ToNullify), NullifyStep(userIds)), Pairs(ToClean), DeleteStep(userIds))
  }

  /** The tables after `down`. */
  function DownEffect(tables: map<string, Table>): map<string, Table> {
    EachPair(tables, Pairs(ToNullify), RevertStep())
  }

  // ---------------------------------------------------------------------------------------------
  // The statements

  /**
   * `up()`. The sub-select of user ids is read once: no statement of the migration writes `users`
   * (`UpKeepsUsers`), so every statement sees the same ids.
   */
  method Up(db: Database)
    modifies db
    ensures db.tables == UpEffect(old(db.tables))
  {
    var userIds := ColumnValues(db.Rows(UsersTable), "id");
    NullifyColumns(db, ToNullify, userIds);
    DeleteRows(db, ToClean, userIds);
  }

  /** The loops of `up` over `$toNullify`. */
  method NullifyColumns(db: Database, list: seq<(string, seq<string>)>, userIds: set<Value>)
    modifies db
    ensures db.tables == EachPair(old(db.tables), Pairs(list), NullifyStep(userIds))
  {
    ghost var initial := db.tables;
    for i := 0 to |list|
      invariant db.tables == EachPair(initial, Pairs(list[..i]), NullifyStep(userIds))
    {
      var (table, columns) := list[i];
      NullifyTable(db, table, columns, userIds);
      EachPairAppend(initial, Pairs(list[..i]), ColumnsOf(table, columns), NullifyStep(userIds));
      assert list[..i + 1][..i] == list[..i];
    }
    assert list[..|list|] == list;
  }

  /** One table of `$toNullify`: both updates, column by column. */
  method NullifyTable(db: Database, table: string, columns: seq<string>, userIds: set<Value>)
    modifies db
    ensures db.tables == EachPair(old(db.tables), ColumnsOf(table, columns), NullifyStep(userIds))
  {
    ghost var initial := db.tables;
    for j := 0 to |columns|
      invariant db.tables == EachPair(initial, ColumnsOf(table, columns[..j]), NullifyStep(userIds))
    {
      NullifyColumn(db, table, columns[j], userIds);
      EachPairSnoc(initial, ColumnsOf(table, columns[..j]), table, columns[j], NullifyStep(userIds));
      assert columns[..j + 1][..j] == columns[..j];
    }
    assert columns[..|columns|] == columns;
  }

  /** The two updates of `up` on one nullable column. */
  method NullifyColumn(db: Database, table: string, column: string, userIds: set<Value>)
    modifies db
    ensures db.tables == old(db.tables)[table := NullifyStep(userIds)(Entity.TableOf(old(db.tables), table), column)]
  {
    db.SetWhereIn(table, Where(column, Int(0)), column, Null);
    db.SetWhereIn(table, WhereNotIn(column, userIds), column, Null);
  }

  /** The loops of `up` over `$toClean`. */
  method DeleteRows(db: Database, list: seq<(string, seq<string>)>, userIds: set<Value>)
    modifies db
    ensures db.tables == EachPair(old(db.tables), Pairs(list), DeleteStep(userIds))
  {
    ghost var initial := db.tables;
    for i := 0 to |list|
      invariant db.tables == EachPair(initial, Pairs(list[..i]), DeleteStep(userIds))
    {
      var (table, columns) := list[i];
      DeleteFromTable(db, table, columns, userIds);
      EachPairAppend(initial, Pairs(list[..i]), ColumnsOf(table, columns), DeleteStep(userIds));
      assert list[..i + 1][..i] == list[..i];
    }
    assert list[..|list|] == list;
  }

  /** One table of `$toClean`: a delete per column. */
  method DeleteFromTable(db: Database, table: string, columns: seq<string>, userIds: set<Value>)
    modifies db
    ensures db.tables == EachPair(old(db.tables), ColumnsOf(table, columns), DeleteStep(userIds))
  {
    ghost var initial := db.tables;
    for j := 0 to |columns|
      invariant db.tables == EachPair(initial, ColumnsOf(table, columns[..j]), DeleteStep(userIds))
    {
      db.DeleteWhereIn(table, WhereNotIn(columns[j], userIds));
      EachPairSnoc(initial, ColumnsOf(table, columns[..j]), table, columns[j], DeleteStep(userIds));
      assert columns[..j + 1][..j] == columns[..j];
    }
    assert columns[..|columns|] == columns;
  }

  /** `down()`. */
  method Down(db: Database)
    modifies db
    ensures db.tables == DownEffect(old(db.tables))
  {
    RevertColumns(db, ToNullify);
  }

  /** The loops of `down` over `$toNullify`. */
  method RevertColumns(db: Database, list: seq<(string, seq<string>)>)
    modifies db
    ensures db.tables == EachPair(old(db.tables), Pairs(list), RevertStep())
  {
    ghost var initial := db.tables;
    for i := 0 to |list|
      invariant db.tables == EachPair(initial, Pairs(list[..i]), RevertStep())
    {
      var (table, columns) := list[i];
      RevertTable(db, table, columns);
      EachPairAppend(initial, Pairs(list[..i]), ColumnsOf(table, columns), RevertStep());
      assert list[..i + 1][..i] == list[..i];
    }
    assert list[..|list|] == list;
  }

  /** One table of `down`: an update per column. */
  method RevertTable(db: Database, table: string, columns: seq<string>)
    modifies db
    ensures db.tables == EachPair(old(db.tables), ColumnsOf(table, columns), RevertStep())
  {
    ghost var initial := db.tables;
    for j := 0 to |columns|
      invariant db.tables == EachPair(initial, ColumnsOf(table, columns[..j]), RevertStep())
    {
      db.SetWhereIn(table, Where(columns[j], Null), columns[j], Int(0));
      EachPairSnoc(initial, ColumnsOf(table, columns[..j]), table, columns[j], RevertStep());
      assert columns[..j + 1][..j] == columns[..j];
    }
    assert columns[..|columns|] == columns;
  }

  // ---------------------------------------------------------------------------------------------
  // What the migration does

  /** The value a nullable reference holds after `up`: NULL for 0 and for an id naming no user. */
  function CleanedValue(userIds: set<Value>): Value -> Value {
    v => if v == Int(0) || SqlNotIn(v, userIds) then Null else v
  }

  /** The value a nullable reference holds after `down`: 0 for NULL. */
  function RevertedValue(): Value -> Value {
    v => if v == Null then Int(0) else v
  }

  lemma NullifyStepRewrites(userIds: set<Value>)
    ensures RewritesColumn(NullifyStep(userIds), CleanedValue(userIds))
    ensures forall v :: CleanedValue(userIds)(CleanedValue(userIds)(v)) == CleanedValue(userIds)(v)
  {
    forall t: Table, column: string
      ensures |NullifyStep(userIds)(t, column)| == |t|
      ensures forall i, c | 0 <= i < |t| ::
        Get(NullifyStep(userIds)(t, column)[i], c) == if c == column then CleanedValue(userIds)(Get(t[i], c)) else Get(t[i], c)
    {
      var zeroed := SetWhere(t, Where(column, Int(0)), column, Null);
      assert NullifyStep(userIds)(t, column) == SetWhere(zeroed, WhereNotIn(column, userIds), column, Null);
    }
  }

  lemma RevertStepRewrites()
    ensures RewritesColumn(RevertStep(), RevertedValue())
    ensures forall v :: RevertedValue()(RevertedValue()(v)) == RevertedValue()(v)
  {
    forall t: Table, column: string
      ensures |RevertStep()(t, column)| == |t|
      ensures forall i, c | 0 <= i < |t| ::
        Get(RevertStep()(t, column)[i], c) == if c == column then RevertedValue()(Get(t[i], c)) else Get(t[i], c)
    {
      assert RevertStep()(t, column) == SetWhere(t, Where(column, Null), column, Int(0));
    }
  }

  /** No table is on both lists, and neither list names `users`. */
  lemma ListsApart(p: (string, string), q: (string, string))
    requires p in Pairs(ToNullify) && q in Pairs(ToClean)
    ensures p.0 != q.0 && p.0 != UsersTable && q.0 != UsersTable
  {
    PairTables(ToNullify, p);
    PairTables(ToClean, q);
  }

  /** Each table of `$toClean` names its user in `user_id`. */
  lemma CleanColumns(q: (string, string))
    requires q in Pairs(ToClean)
    ensures q.1 == "user_id" && q.0 != UsersTable
  {
    PairTables(ToClean, q);
  }

  /** The rows a run of deletes keeps: those that name a user, or NULL, in every column listed for their table. */
  lemma {:induction false} DeletedRows(tables: map<string, Table>, pairs: seq<(string, string)>, userIds: set<Value>, name: string, row: Row)
    ensures row in Entity.TableOf(EachPair(tables, pairs, DeleteStep(userIds)), name) <==>
      row in Entity.TableOf(tables, name) && forall c | (name, c) in pairs :: !SqlNotIn(Get(row, c), userIds)
    decreases |pairs|
  {
    if pairs != [] {
      var init := pairs[..|pairs| - 1];
      var (table, column) := pairs[|pairs| - 1];
      DeletedRows(tables, init, userIds, name, row);
      var mid := EachPair(tables, init, DeleteStep(userIds));
      assert Entity.TableOf(EachPair(tables, pairs, DeleteStep(userIds)), name) ==
        if name == table then DeleteWhere(Entity.TableOf(mid, name), WhereNotIn(column, userIds)) else Entity.TableOf(mid, name);
      assert forall c :: (name, c) in pairs <==> (name, c) in init || (name, c) == (table, column);
    }
  }

  /** `up` never writes `users`, so every statement's sub-select sees the same ids. */
  lemma UpKeepsUsers(tables: map<string, Table>)
    ensures Entity.TableOf(UpEffect(tables), UsersTable) == Entity.TableOf(tables, UsersTable)
  {
    var userIds := UserIds(tables);
    forall p | p in Pairs(ToNullify) ensures p.0 != UsersTable {
      PairTables(ToNullify, p);
    }
    forall q | q in Pairs(ToClean) ensures q.0 != UsersTable {
      CleanColumns(q);
    }
    EachPairKeeps(tables, Pairs(ToNullify), NullifyStep(userIds), UsersTable);
    EachPairKeeps(EachPair(tables, Pairs(ToNullify), NullifyStep(userIds)), Pairs(ToClean), DeleteStep(userIds), UsersTable);
  }

  /**
   * In a nullable user column, `up` turns 0 and every id naming no user into NULL and keeps every
   * other value; rows keep their place and the columns not listed for the table keep their values.
   */
  lemma UpNullifies(tables: map<string, Table>, name: string, column: string)
    requires (name, column) in Pairs(ToNullify)
    ensures var before := Entity.TableOf(tables, name);
      var after := Entity.TableOf(UpEffect(tables), name);
      && |after| == |before|
      && (forall i | 0 <= i < |before| :: Get(after[i], column) ==
            if Get(before[i], column) == Int(0) || SqlNotIn(Get(before[i], column), UserIds(tables)) then Null else Get(before[i], column))
      && (forall i, c | 0 <= i < |before| && (name, c) !in Pairs(ToNullify) :: Get(after[i], c) == Get(before[i], c))
  {
    var userIds := UserIds(tables);
    NullifyStepRewrites(userIds);
    EachPairRewrites(tables, Pairs(ToNullify), NullifyStep(userIds), CleanedValue(userIds), name);
    forall q | q in Pairs(ToClean) ensures q.0 != name {
      ListsApart((name, column), q);
    }
    EachPairKeeps(EachPair(tables, Pairs(ToNullify), NullifyStep(userIds)), Pairs(ToClean), DeleteStep(userIds), name);
  }

  /** After `up`, every non-null reference in a nullable user column names an existing user, and none is 0. */
  lemma UpLeavesOnlyUsers(tables: map<string, Table>, name: string, column: string, i: int)
    requires (name, column) in Pairs(ToNullify)
    requires forall u | u in Entity.TableOf(tables, UsersTable) :: Get(u, "id") != Null
    requires 0 <= i < |Entity.TableOf(UpEffect(tables), name)|
    ensures var v := Get(Entity.TableOf(UpEffect(tables), name)[i], column);
      v == Null || (v != Int(0) && v in UserIds(UpEffect(tables)))
  {
    UpNullifies(tables, name, column);
    UpKeepsUsers(tables);
    assert Null !in UserIds(tables);
  }

  /** In a dependent table, `up` keeps exactly the rows whose `user_id` names a user (or is NULL). */
  lemma UpDeletes(tables: map<string, Table>, name: string, row: Row)
    requires (name, "user_id") in Pairs(ToClean)
    ensures row in Entity.TableOf(UpEffect(tables), name) <==>
      row in Entity.TableOf(tables, name) && !SqlNotIn(Get(row, "user_id"), UserIds(tables))
  {
    var userIds := UserIds(tables);
    forall p | p in Pairs(ToNullify) ensures p.0 != name {
      ListsApart(p, (name, "user_id"));
    }
    EachPairKeeps(tables, Pairs(ToNullify), NullifyStep(userIds), name);
    var nullified := EachPair(tables, Pairs(ToNullify), NullifyStep(userIds));
    DeletedRows(nullified, Pairs(ToClean), userIds, name, row);
    forall c | (name, c) in Pairs(ToClean) ensures c == "user_id" {
      CleanColumns((name, c));
    }
  }

  /** `down` writes 0 for NULL in the nullable user columns and changes nothing else. */
  lemma DownReverts(tables: map<string, Table>, name: string)
    ensures var before := Entity.TableOf(tables, name);
      var after := Entity.TableOf(DownEffect(tables), name);
      && |after| == |before|
      && forall i, c | 0 <= i < |before| :: Get(after[i], c) ==
           if (name, c) in Pairs(ToNullify) && Get(before[i], c) == Null then Int(0) else Get(before[i], c)
  {
    RevertStepRewrites();
    EachPairRewrites(tables, Pairs(ToNullify), RevertStep(), RevertedValue(), name);
  }

  /**
   * `down` after `up` gives back every reference that was 0 or named a user; a reference that named
   * no user comes back as 0.
   */
  lemma DownAfterUp(tables: map<string, Table>, name: string, column: string, i: int)
    requires (name, column) in Pairs(ToNullify)
    requires 0 <= i < |Entity.TableOf(tables, name)|
    ensures var v := Get(Entity.TableOf(tables, name)[i], column);
      var back := Entity.TableOf(DownEffect(UpEffect(tables)), name);
      && |back| == |Entity.TableOf(tables, name)|
      && (v == Int(0) || (v != Null && v in UserIds(tables)) ==> Get(back[i], column) == v)
      && (v != Int(0) && SqlNotIn(v, UserIds(tables)) ==> Get(back[i], column) == Int(0))
  {
    UpNullifies(tables, name, column);
    DownReverts(UpEffect(tables), name);
  }
}
