/**
 * `UserRepo`: the life cycle of a user as the content store sees it. Creating and updating a user
 * (with the guard that keeps the only administrator an administrator), assigning roles through the
 * `role_user` pivot, and deleting a user: its dependent rows go, its references elsewhere become
 * null and the entities it owned pass to a new owner or to nobody.
 *
 * The id of the role whose `system_name` is `admin` is supplied by the caller. Password hashing,
 * `Str::random`, the slug generator, user settings, avatars and the activity log are not part of
 * this model; the first three are parameters.
 */
module UserRepo {
  import opened Wrappers
  import opened Seqs
  import opened Php
  import opened Tables
  import opened EntityKinds
  import Entity
  import opened ColumnLists

  const UsersTable := "users"
  const RoleUserTable := "role_user"

  const OnlyAdminError := "errors.users_cannot_delete_only_admin"
  const GuestError := "errors.users_cannot_delete_guest"
  const RoleError := "errors.role_cannot_remove_only_admin"

  /** The rows whose `column` holds the given user id (`where(column, '=', $user->id)`). */
  function Refers(column: string, userId: int): Row -> bool {
    row => Get(row, column) == Int(userId)
  }

  /** The users rows with the given id. */
  function IsUser(userId: int): Row -> bool {
    row => Get(row, "id") == Int(userId)
  }

  /** A users row has the given id. */
  predicate UserExists(users: Table, id: Value) {
    exists row | row in users :: SqlEquals(Get(row, "id"), id)
  }

  // ---------------------------------------------------------------------------------------------
  // Roles

  /** A `role_user` row linking the user to the role. */
  predicate Links(row: Row, userId: int, roleId: int) {
    Get(row, "user_id") == Int(userId) && IntVal(Get(row, "role_id")) == roleId
  }

  /** `$user->hasSystemRole(...)` for the role with the given id. */
  predicate HoldsRole(tables: map<string, Table>, userId: int, roleId: int) {
    exists row | row in Entity.TableOf(tables, RoleUserTable) :: Links(row, userId, roleId)
  }

  /** The `role_user` rows that `$adminRole->users()` joins to a stored user. */
  function AdminMember(users: Table, adminRoleId: int): Row -> bool {
    row => IntVal(Get(row, "role_id")) == adminRoleId && UserExists(users, Get(row, "user_id"))
  }

  /** `$adminRole->users()->count()`. */
  function AdminCount(tables: map<string, Table>, adminRoleId: int): nat {
    |Filter(Entity.TableOf(tables, RoleUserTable), AdminMember(Entity.TableOf(tables, UsersTable), adminRoleId))|
  }

  /** `isOnlyAdmin($user)`: the user holds the admin role and that role has at most one user. */
  predicate IsOnlyAdmin(tables: map<string, Table>, userId: int, adminRoleId: int) {
    HoldsRole(tables, userId, adminRoleId) && AdminCount(tables, adminRoleId) <= 1
  }

  /** Two different elements of a sequence make it at least two long. */
  lemma TwoElements(s: seq<Row>, x: Row, y: Row)
    requires x in s && y in s && x != y
    ensures |s| >= 2
  {
    var i :| 0 <= i < |s| && s[i] == x;
    var j :| 0 <= j < |s| && s[j] == y;
    assert i != j;
  }

  /**
   * A stored user that is the only admin is the only stored user holding the admin role: every
   * admin link to a stored user is one of its own.
   */
  lemma OnlyAdminAlone(tables: map<string, Table>, userId: int, adminRoleId: int)
    requires IsOnlyAdmin(tables, userId, adminRoleId)
    requires UserExists(Entity.TableOf(tables, UsersTable), Int(userId))
    ensures forall row | row in Entity.TableOf(tables, RoleUserTable) && AdminMember(Entity.TableOf(tables, UsersTable), adminRoleId)(row) ::
      Get(row, "user_id") == Int(userId)
  {
    var links := Entity.TableOf(tables, RoleUserTable);
    var p := AdminMember(Entity.TableOf(tables, UsersTable), adminRoleId);
    var own :| own in links && Links(own, userId, adminRoleId);
    assert p(own);
    forall row | row in links && p(row) ensures Get(row, "user_id") == Int(userId) {
      if Get(row, "user_id") != Int(userId) {
        TwoElements(Filter(links, p), own, row);
      }
    }
  }

  /** `demotingLastAdmin($user, $newRoles)`: the only admin's new roles do not include the admin role. */
  predicate DemotingLastAdmin(tables: map<string, Table>, userId: int, adminRoleId: int, newRoles: seq<Value>) {
    IsOnlyAdmin(tables, userId, adminRoleId) && !InArrayLoose(adminRoleId, newRoles)
  }

  /** The row `attach` writes. */
  function LinkRow(userId: int): int -> Row {
    roleId => map["user_id" := Int(userId), "role_id" := Int(roleId)]
  }

  /** The role ids the user holds before a sync. */
  function HeldIds(links: Table, userId: int): set<int> {
    set row | row in links && Get(row, "user_id") == Int(userId) :: IntVal(Get(row, "role_id"))
  }

  /** The ids to attach: each id of the list the user does not hold yet, once, in list order. */
  function NewIds(ids: seq<int>, held: set<int>): (r: seq<int>)
    ensures forall x :: x in r <==> x in ids && x !in held
  {
    if ids == [] then []
    else if ids[0] in held then NewIds(ids[1..], held)
    else [ids[0]] + NewIds(ids[1..], held + {ids[0]})
  }

  /** The rows `detach` removes: the user's links to roles the new list does not name. */
  function Detached(userId: int, ids: seq<int>): Row -> bool {
    row => Get(row, "user_id") == Int(userId) && IntVal(Get(row, "role_id")) !in ids
  }

  /** `$user->roles()->sync($ids)` on the pivot table. */
  function Synced(links: Table, userId: int, ids: seq<int>): Table {
    DeleteWhere(links, Detached(userId, ids)) + Map(NewIds(ids, HeldIds(links, userId)), LinkRow(userId))
  }

  /** After a sync the user holds exactly the roles of the list. */
  lemma SyncedHoldsExactly(links: Table, userId: int, ids: seq<int>, roleId: int)
    ensures (exists row | row in Synced(links, userId, ids) :: Links(row, userId, roleId)) <==> roleId in ids
  {
    var kept := DeleteWhere(links, Detached(userId, ids));
    var added := Map(NewIds(ids, HeldIds(links, userId)), LinkRow(userId));
    if roleId in ids {
      if roleId in HeldIds(links, userId) {
        var row :| row in links && Get(row, "user_id") == Int(userId) && IntVal(Get(row, "role_id")) == roleId;
        assert row in kept;
        assert row in Synced(links, userId, ids);
      } else {
        var news := NewIds(ids, HeldIds(links, userId));
        var k :| 0 <= k < |news| && news[k] == roleId;
        assert added[k] == LinkRow(userId)(roleId);
        assert added[k] in Synced(links, userId, ids);
      }
    }
    forall row | row in Synced(links, userId, ids) && Links(row, userId, roleId) ensures roleId in ids {
      if row !in kept {
        var news := NewIds(ids, HeldIds(links, userId));
        var k :| 0 <= k < |added| && added[k] == row;
        assert row == LinkRow(userId)(news[k]);
      }
    }
  }

  /** A sync leaves every other user's links as they were. */
  lemma SyncKeepsOthers(links: Table, userId: int, ids: seq<int>, row: Row)
    requires Get(row, "user_id") != Int(userId)
    ensures row in Synced(links, userId, ids) <==> row in links
  {
  }

  /** The role ids `sync` receives from a filtered list: each value read as an integer key. */
  function RoleIds(roles: seq<Value>): seq<int> {
    Map(roles, IntVal)
  }

  /** `setUserRoles($user, $roles)` on the tables: refused for the only admin's demotion, else a sync. */
  function RolesSet(tables: map<string, Table>, userId: int, roles: seq<Value>, adminRoleId: int): (Result<(), string>, map<string, Table>) {
    var filtered := ArrayFilter(roles);
    if DemotingLastAdmin(tables, userId, adminRoleId, filtered) then (Err(RoleError), tables)
    else (Ok(()), tables[RoleUserTable := Synced(Entity.TableOf(tables, RoleUserTable), userId, RoleIds(filtered))])
  }

  /**
   * Setting roles never takes the admin role from the only admin: either the change is refused and
   * nothing changes, or the new list names the admin role and the user keeps it. The request
   * carries role ids as strings or numbers, never booleans.
   */
  lemma RolesSetKeepsOnlyAdmin(tables: map<string, Table>, userId: int, roles: seq<Value>, adminRoleId: int)
    requires IsOnlyAdmin(tables, userId, adminRoleId)
    requires forall i | 0 <= i < |roles| :: !roles[i].Bool?
    ensures var (r, after) := RolesSet(tables, userId, roles, adminRoleId);
      (r.Err? ==> after == tables) && HoldsRole(after, userId, adminRoleId)
  {
    var filtered := ArrayFilter(roles);
    var (r, after) := RolesSet(tables, userId, roles, adminRoleId);
    if r.Ok? {
      var i :| 0 <= i < |filtered| && LooselyEqualsIntString(filtered[i], adminRoleId);
      assert filtered[i] in roles;
      LooselyEqualsIntVal(filtered[i], adminRoleId);
      assert RoleIds(filtered)[i] == adminRoleId;
      SyncedHoldsExactly(Entity.TableOf(tables, RoleUserTable), userId, RoleIds(filtered), adminRoleId);
      assert Entity.TableOf(after, RoleUserTable) == Synced(Entity.TableOf(tables, RoleUserTable), userId, RoleIds(filtered));
    }
  }

  /** `setUserRoles($user, $roles)`. */
  method SetUserRoles(db: Database, userId: int, roles: seq<Value>, adminRoleId: int) returns (r: Result<(), string>)
    modifies db
    ensures (r, db.tables) == RolesSet(old(db.tables), userId, roles, adminRoleId)
  {
    var filtered := ArrayFilter(roles);
    if DemotingLastAdmin(db.tables, userId, adminRoleId, filtered) {
      return Err(RoleError);
    }
    var links := db.Rows(RoleUserTable);
    db.tables := db.tables[RoleUserTable := Synced(links, userId, RoleIds(filtered))];
    return Ok(());
  }

  // ---------------------------------------------------------------------------------------------
  // Deleting a user

  /** The tables of the user's own relations: API tokens, social accounts, favourites, MFA values, watches. */
  const RelationTables: seq<string> := ["api_tokens", "social_accounts", "favourites", "mfa_values", "watches"]

  /** The further tables whose rows belong to a user. */
  const DependantTables: seq<string> := ["email_confirmations", "user_invites", "views"]

  /** The columns that keep their rows but lose the reference, table by table. */
  const NullifyList: seq<(string, seq<string>)> := [
    ("attachments", ["created_by", "updated_by"]),
    ("comments", ["created_by", "updated_by"]),
    ("deletions", ["deleted_by"]),
    ("entities", ["created_by", "updated_by"]),
    ("images", ["created_by", "updated_by"]),
    ("imports", ["created_by"]),
    ("joint_permissions", ["owner_id"]),
    ("page_revisions", ["created_by"]),
    ("sessions", ["user_id"])
  ]

  /** `DELETE FROM name WHERE user_id = user id`. */
  function Drop(tables: map<string, Table>, name: string, userId: int): map<string, Table> {
    tables[name := DeleteWhere(Entity.TableOf(tables, name), Refers("user_id", userId))]
  }

  /** Dropping the user's rows from one table: that table loses exactly them, the others stay. */
  lemma DropSpec(tables: map<string, Table>, table: string, userId: int, name: string, row: Row)
    ensures row in Entity.TableOf(Drop(tables, table, userId), name) <==>
      row in Entity.TableOf(tables, name) && !(name == table && Get(row, "user_id") == Int(userId))
  {
  }

  /** The five relation deletes: `apiTokens`, `socialAccounts`, `favourites`, `mfaValues`, `watches`. */
  function WithoutRelations(tables: map<string, Table>, userId: int): map<string, Table> {
    Drop(Drop(Drop(Drop(Drop(tables, "api_tokens", userId), "social_accounts", userId), "favourites", userId),
              "mfa_values", userId), "watches", userId)
  }

  /** Deleting the user's rows (by `user_id`) from each named table in turn. */
  function WithoutUserRows(tables: map<string, Table>, names: seq<string>, userId: int): map<string, Table>
    decreases |names|
  {
    if names == [] then tables
    else Drop(WithoutUserRows(tables, names[..|names| - 1], userId), names[|names| - 1], userId)
  }

  lemma WithoutUserRowsSnoc(tables: map<string, Table>, names: seq<string>, name: string, userId: int)
    ensures WithoutUserRows(tables, names + [name], userId) == Drop(WithoutUserRows(tables, names, userId), name, userId)
  {
    assert (names + [name])[..|names|] == names;
  }

  /**
   * Each named table loses exactly the user's rows, and every other table is as it was.
   */
  lemma {:induction false} WithoutUserRowsSpec(tables: map<string, Table>, names: seq<string>, userId: int, name: string, row: Row)
    ensures row in Entity.TableOf(WithoutUserRows(tables, names, userId), name) <==>
      row in Entity.TableOf(tables, name) && !(name in names && Get(row, "user_id") == Int(userId))
    decreases |names|
  {
    if names != [] {
      var init := names[..|names| - 1];
      WithoutUserRowsSpec(tables, init, userId, name, row);
      DropSpec(WithoutUserRows(tables, init, userId), names[|names| - 1], userId, name, row);
      assert name in names <==> name in init || name == names[|names| - 1];
    }
  }

  /** A table no name lists is untouched. */
  lemma {:induction false} WithoutUserRowsKeeps(tables: map<string, Table>, names: seq<string>, userId: int, name: string)
    requires name !in names
    ensures Entity.TableOf(WithoutUserRows(tables, names, userId), name) == Entity.TableOf(tables, name)
    decreases |names|
  {
    if names != [] {
      var init := names[..|names| - 1];
      assert name !in init;
      WithoutUserRowsKeeps(tables, init, userId, name);
    }
  }

  /** `DB::table($name)->where('user_id', '=', $user->id)->delete()`. */
  method DeleteUserRows(db: Database, name: string, userId: int)
    modifies db
    ensures db.tables == Drop(old(db.tables), name, userId)
  {
    db.DeleteWhereIn(name, Refers("user_id", userId));
  }

  /** The five relation deletes of `removeUserDependantRelations`. */
  method DeleteRelations(db: Database, userId: int)
    modifies db
    ensures db.tables == WithoutRelations(old(db.tables), userId)
  {
    DeleteUserRows(db, "api_tokens", userId);
    DeleteUserRows(db, "social_accounts", userId);
    DeleteUserRows(db, "favourites", userId);
    DeleteUserRows(db, "mfa_values", userId);
    DeleteUserRows(db, "watches", userId);
  }

  /** The loop of `removeUserDependantRelations` over a list of tables. */
  method DeleteUserRowsFrom(db: Database, names: seq<string>, userId: int)
    modifies db
    ensures db.tables == WithoutUserRows(old(db.tables), names, userId)
  {
    ghost var initial := db.tables;
    for i := 0 to |names|
      invariant db.tables == WithoutUserRows(initial, names[..i], userId)
    {
      db.DeleteWhereIn(names[i], Refers("user_id", userId));
      WithoutUserRowsSnoc(initial, names[..i], names[i], userId);
      assert names[..i + 1] == names[..i] + [names[i]];
    }
    assert names[..|names|] == names;
  }

  /** `removeUserDependantRelations($user)`. */
  method RemoveUserDependantRelations(db: Database, userId: int)
    modifies db
    ensures db.tables == WithoutUserRows(WithoutRelations(old(db.tables), userId), DependantTables, userId)
  {
    DeleteRelations(db, userId);
    DeleteUserRowsFrom(db, DependantTables, userId);
  }

  /** `UPDATE table SET column = NULL WHERE column = user id`, for each pair in turn. */
  function NullifiedAll(tables: map<string, Table>, pairs: seq<(string, string)>, userId: int): map<string, Table>
    decreases |pairs|
  {
    if pairs == [] then tables
    else
      var before := NullifiedAll(tables, pairs[..|pairs| - 1], userId);
      var (table, column) := pairs[|pairs| - 1];
      before[table := SetWhere(Entity.TableOf(before, table), Refers(column, userId), column, Null)]
  }

  lemma NullifiedAllSnoc(tables: map<string, Table>, pairs: seq<(string, string)>, table: string, column: string, userId: int)
    ensures var before := NullifiedAll(tables, pairs, userId);
      NullifiedAll(tables, pairs + [(table, column)], userId) ==
        before[table := SetWhere(Entity.TableOf(before, table), Refers(column, userId), column, Null)]
  {
    assert (pairs + [(table, column)])[..|pairs|] == pairs;
  }

  /** One `UPDATE ... SET column = NULL`: that column of that table, where it referred to the user. */
  lemma NullifyStep(t: Table, column: string, userId: int)
    ensures var after := SetWhere(t, Refers(column, userId), column, Null);
      && |after| == |t|
      && forall i, c | 0 <= i < |t| :: Get(after[i], c) == if c == column && Get(t[i], c) == Int(userId) then Null else Get(t[i], c)
  {
  }

  /** Nullifying two lists of pairs in turn is nullifying their concatenation. */
  lemma {:induction false} NullifiedAllAppend(tables: map<string, Table>, a: seq<(string, string)>, b: seq<(string, string)>, userId: int)
    ensures NullifiedAll(tables, a + b, userId) == NullifiedAll(NullifiedAll(tables, a, userId), b, userId)
    decreases |b|
  {
    if b != [] {
      var init := b[..|b| - 1];
      NullifiedAllAppend(tables, a, init, userId);
      assert (a + b)[..|a + b| - 1] == a + init;
    } else {
      assert a + b == a;
    }
  }

  /**
   * Every row keeps its place; a listed column that referred to the user becomes null, every other
   * value stays.
   */
  lemma {:induction false} NullifiedAllSpec(tables: map<string, Table>, pairs: seq<(string, string)>, userId: int, name: string)
    ensures var before := Entity.TableOf(tables, name);
      var after := Entity.TableOf(NullifiedAll(tables, pairs, userId), name);
      && |after| == |before|
      && forall i, c | 0 <= i < |before| :: Get(after[i], c) ==
           if (name, c) in pairs && Get(before[i], c) == Int(userId) then Null else Get(before[i], c)
    decreases |pairs|
  {
    if pairs != [] {
      var init := pairs[..|pairs| - 1];
      var (table, column) := pairs[|pairs| - 1];
      NullifiedAllSpec(tables, init, userId, name);
      var before := Entity.TableOf(tables, name);
      var mid := Entity.TableOf(NullifiedAll(tables, init, userId), name);
      var after := Entity.TableOf(NullifiedAll(tables, pairs, userId), name);
      if name == table {
        NullifyStep(mid, column, userId);
        assert after == SetWhere(mid, Refers(column, userId), column, Null);
      } else {
        assert after == mid;
      }
      forall i, c | 0 <= i < |before|
        ensures Get(after[i], c) == if (name, c) in pairs && Get(before[i], c) == Int(userId) then Null else Get(before[i], c)
      {
        assert (name, c) in pairs <==> (name, c) in init || (name, c) == (table, column);
      }
    }
  }

  /** A table no pair names is untouched. */
  lemma {:induction false} NullifiedAllKeeps(tables: map<string, Table>, pairs: seq<(string, string)>, userId: int, name: string)
    requires forall p | p in pairs :: p.0 != name
    ensures Entity.TableOf(NullifiedAll(tables, pairs, userId), name) == Entity.TableOf(tables, name)
    decreases |pairs|
  {
    if pairs != [] {
      var init := pairs[..|pairs| - 1];
      assert forall p | p in init :: p in pairs;
      NullifiedAllKeeps(tables, init, userId, name);
    }
  }

  /** The nested loops of `nullifyUserNonDependantRelations` over a list of tables and their columns. */
  method NullifyColumns(db: Database, list: seq<(string, seq<string>)>, userId: int)
    modifies db
    ensures db.tables == NullifiedAll(old(db.tables), Pairs(list), userId)
  {
    ghost var initial := db.tables;
    for i := 0 to |list|
      invariant db.tables == NullifiedAll(initial, Pairs(list[..i]), userId)
    {
      var (table, columns) := list[i];
      NullifyTable(db, table, columns, userId);
      NullifiedAllAppend(initial, Pairs(list[..i]), ColumnsOf(table, columns), userId);
      assert list[..i + 1][..i] == list[..i];
    }
    assert list[..|list|] == list;
  }

  /** The inner loop: one table's columns in turn. */
  method NullifyTable(db: Database, table: string, columns: seq<string>, userId: int)
    modifies db
    ensures db.tables == NullifiedAll(old(db.tables), ColumnsOf(table, columns), userId)
  {
    ghost var initial := db.tables;
    for j := 0 to |columns|
      invariant db.tables == NullifiedAll(initial, ColumnsOf(table, columns[..j]), userId)
    {
      db.SetWhereIn(table, Refers(columns[j], userId), columns[j], Null);
      NullifiedAllSnoc(initial, ColumnsOf(table, columns[..j]), table, columns[j], userId);
      assert columns[..j + 1][..j] == columns[..j];
    }
    assert columns[..|columns|] == columns;
  }

  /** `nullifyUserNonDependantRelations($user)`. */
  method NullifyUserNonDependantRelations(db: Database, userId: int)
    modifies db
    ensures db.tables == NullifiedAll(old(db.tables), Pairs(NullifyList), userId)
  {
    NullifyColumns(db, NullifyList, userId);
  }

  /** `ensureDeletable($user)`: the only admin and the guest user cannot be deleted. */
  function Deletable(tables: map<string, Table>, userId: int, systemName: Value, adminRoleId: int): Result<(), string> {
    if IsOnlyAdmin(tables, userId, adminRoleId) then Err(OnlyAdminError)
    else if systemName == Str("public") then Err(GuestError)
    else Ok(())
  }

  /** `migrateOwnership($fromUser, $toUser)`: the entities the user owned pass to the new owner value. */
  function MigratedOwnership(tables: map<string, Table>, userId: int, owner: Value): map<string, Table> {
    tables[IdentityTable := SetWhere(Entity.TableOf(tables, IdentityTable), Refers("owned_by", userId), "owned_by", owner)]
  }

  /** `$toUser ? $toUser->id : null` for the user `find($newOwnerId)` returns, when `$newOwnerId` is not empty. */
  function NewOwnerValue(users: Table, newOwnerId: Option<int>): Value {
    if newOwnerId.None? || newOwnerId.value == 0 then Null
    else match First(users, IsUser(newOwnerId.value))
      case None => Null
      case Some(owner) => Get(owner, "id")
  }

  /** The tables after the user's rows, references and own row are gone, before ownership moves. */
  function Cleared(tables: map<string, Table>, userId: int): map<string, Table> {
    var nullified := Nullified(tables, userId);
    nullified[UsersTable := DeleteWhere(Entity.TableOf(nullified, UsersTable), IsUser(userId))]
  }

  /** `removeUserDependantRelations($user)` on the tables. */
  function Dependants(tables: map<string, Table>, userId: int): map<string, Table> {
    WithoutUserRows(WithoutRelations(tables, userId), DependantTables, userId)
  }

  /** The tables once `nullifyUserNonDependantRelations($user)` has followed the relation deletes. */
  function Nullified(tables: map<string, Table>, userId: int): map<string, Table> {
    NullifiedAll(Dependants(tables, userId), Pairs(NullifyList), userId)
  }

  /** `destroy($user, $newOwnerId)` on the tables. */
  function DestroyEffect(tables: map<string, Table>, userId: int, systemName: Value, newOwnerId: Option<int>, adminRoleId: int)
    : (Result<(), string>, map<string, Table>)
  {
    var check := Deletable(tables, userId, systemName, adminRoleId);
    if check.Err? then (check, tables)
    else
      var cleared := Cleared(tables, userId);
      (Ok(()), MigratedOwnership(cleared, userId, NewOwnerValue(Entity.TableOf(cleared, UsersTable), newOwnerId)))
  }

  // ---------------------------------------------------------------------------------------------
  // The user model

  /** The `users` row a save writes over a stored user's row: the model's attributes win. */
  function Overwrite(attrs: Row): Row -> Row {
    row => row + attrs
  }

  /** A `User` model: its attributes and whether its row is stored. */
  class User {
    var attributes: Row
    var stored: bool

    constructor()
      ensures attributes == map[] && !stored
    {
      attributes := map[];
      stored := false;
    }

    /** `$user->id`, an integer once the user is stored. */
    function Id(): int
      reads this
    {
      IntVal(Get(attributes, "id"))
    }

    /** `save()` on a new user: the row is inserted and the user takes the id the database assigns. */
    method Insert(db: Database, newId: int)
      requires !stored
      modifies this, db
      ensures stored && attributes == old(attributes)["id" := Int(newId)]
      ensures db.tables == old(db.tables)[UsersTable := old(db.Rows(UsersTable)) + [attributes]]
    {
      attributes := attributes["id" := Int(newId)];
      db.InsertUsing(UsersTable, [attributes]);
      stored := true;
    }

    /** `save()` on a stored user: its row takes the user's attributes. */
    method Update(db: Database)
      requires stored
      modifies db
      ensures db.tables == old(db.tables)[UsersTable := UpdateWhere(old(db.Rows(UsersTable)), IsUser(Id()), Overwrite(attributes))]
    {
      db.tables := db.tables[UsersTable := UpdateWhere(db.Rows(UsersTable), IsUser(Id()), Overwrite(attributes))];
    }

    /** `delete()`: the row goes and the model is no longer stored. */
    method Delete(db: Database)
      modifies this, db
      ensures !stored && attributes == old(attributes)
      ensures db.tables == old(db.tables)[UsersTable := DeleteWhere(old(db.Rows(UsersTable)), IsUser(old(Id())))]
    {
      db.DeleteWhereIn(UsersTable, IsUser(Id()));
      stored := false;
    }
  }

  /** `ensureDeletable($user)`. */
  method EnsureDeletable(db: Database, user: User, adminRoleId: int) returns (r: Result<(), string>)
    ensures r == Deletable(db.tables, user.Id(), Get(user.attributes, "system_name"), adminRoleId)
  {
    if IsOnlyAdmin(db.tables, user.Id(), adminRoleId) {
      return Err(OnlyAdminError);
    }
    if Get(user.attributes, "system_name") == Str("public") {
      return Err(GuestError);
    }
    return Ok(());
  }

  /** `migrateOwnership($fromUser, $toUser)`. */
  method MigrateOwnership(db: Database, userId: int, toUser: Option<Row>)
    modifies db
    ensures db.tables == MigratedOwnership(old(db.tables), userId, if toUser.Some? then Get(toUser.value, "id") else Null)
  {
    var newOwnerValue := if toUser.Some? then Get(toUser.value, "id") else Null;
    db.SetWhereIn(IdentityTable, Refers("owned_by", userId), "owned_by", newOwnerValue);
  }

  /** The cleanup steps of `destroy`, up to and including the delete of the user's row. */
  method ClearUser(db: Database, user: User)
    modifies db, user
    ensures user.attributes == old(user.attributes)
    ensures db.tables == Cleared(old(db.tables), old(user.Id()))
  {
    ghost var before := db.tables;
    var userId := user.Id();
    RemoveUserDependantRelations(db, userId);
    ghost var dependants := db.tables;
    NullifyUserNonDependantRelations(db, userId);
    ghost var nullified := db.tables;
    user.Delete(db);
    ClearedSteps(before, userId, dependants, nullified, db.tables);
  }

  /** Clearing is the relation deletes, then the nullifying updates, then the delete of the user's row. */
  lemma ClearedSteps(before: map<string, Table>, userId: int, dependants: map<string, Table>, nullified: map<string, Table>,
                     after: map<string, Table>)
    requires dependants == WithoutUserRows(WithoutRelations(before, userId), DependantTables, userId)
    requires nullified == NullifiedAll(dependants, Pairs(NullifyList), userId)
    requires after == nullified[UsersTable := DeleteWhere(Entity.TableOf(nullified, UsersTable), IsUser(userId))]
    ensures after == Cleared(before, userId)
  {
  }

  /** `destroy($user, $newOwnerId)`; the user's avatars and settings and the activity are not modelled. */
  method Destroy(db: Database, user: User, newOwnerId: Option<int>, adminRoleId: int) returns (r: Result<(), string>)
    modifies db, user
    ensures r == DestroyEffect(old(db.tables), old(user.Id()), old(Get(user.attributes, "system_name")), newOwnerId, adminRoleId).0
    ensures db.tables == DestroyEffect(old(db.tables), old(user.Id()), old(Get(user.attributes, "system_name")), newOwnerId, adminRoleId).1
  {
    ghost var before := db.tables;
    var userId := user.Id();
    ghost var systemName := Get(user.attributes, "system_name");
    r := EnsureDeletable(db, user, adminRoleId);
    if r.Err? {
      return;
    }
    ClearUser(db, user);
    ghost var cleared := db.tables;
    MoveOwnership(db, userId, newOwnerId);
    DestroyEffectOk(before, userId, systemName, newOwnerId, adminRoleId, cleared);
  }

  /** Once the checks pass, `destroy` clears the user and then moves ownership, reading the new owner from the cleared `users`. */
  lemma DestroyEffectOk(tables: map<string, Table>, userId: int, systemName: Value, newOwnerId: Option<int>, adminRoleId: int,
                        cleared: map<string, Table>)
    requires Deletable(tables, userId, systemName, adminRoleId).Ok?
    requires cleared == Cleared(tables, userId)
    ensures DestroyEffect(tables, userId, systemName, newOwnerId, adminRoleId) ==
      (Ok(()), MigratedOwnership(cleared, userId, NewOwnerValue(Entity.TableOf(cleared, UsersTable), newOwnerId)))
  {
  }

  /** The last step of `destroy`: the new owner is looked up, after the delete, and ownership moves. */
  method MoveOwnership(db: Database, userId: int, newOwnerId: Option<int>)
    modifies db
    ensures db.tables == MigratedOwnership(old(db.tables), userId, NewOwnerValue(old(db.Rows(UsersTable)), newOwnerId))
  {
    var newOwner: Option<Row> := None;
    if newOwnerId.Some? && newOwnerId.value != 0 {
      newOwner := First(db.Rows(UsersTable), IsUser(newOwnerId.value));
    }
    MigrateOwnership(db, userId, newOwner);
  }

  // ---------------------------------------------------------------------------------------------
  // What a delete does

  /** The nullified columns are in tables that lose no rows, and none of them is `owned_by`. */
  lemma NullifyListFacts(p: (string, string))
    requires p in Pairs(NullifyList)
    ensures p.0 !in RelationTables && p.0 !in DependantTables && p.0 != UsersTable && p.0 != "activities"
    ensures p.1 != "owned_by"
  {
    PairTables(NullifyList, p);
  }

  /** No column of `users` or of a table whose rows belong to a user is nullified. */
  lemma NotNullified(name: string)
    requires name in RelationTables || name in DependantTables || name == UsersTable
    ensures forall p | p in Pairs(NullifyList) :: p.0 != name
  {
    forall p | p in Pairs(NullifyList)
      ensures p.0 != name
    {
      NullifyListFacts(p);
    }
  }

  /** The five relation deletes take exactly the user's rows from their tables. */
  lemma WithoutRelationsSpec(tables: map<string, Table>, userId: int, name: string, row: Row)
    ensures row in Entity.TableOf(WithoutRelations(tables, userId), name) <==>
      row in Entity.TableOf(tables, name) && !(name in RelationTables && Get(row, "user_id") == Int(userId))
  {
    var t1 := Drop(tables, "api_tokens", userId);
    var t2 := Drop(t1, "social_accounts", userId);
    var t3 := Drop(t2, "favourites", userId);
    var t4 := Drop(t3, "mfa_values", userId);
    DropSpec(tables, "api_tokens", userId, name, row);
    DropSpec(t1, "social_accounts", userId, name, row);
    DropSpec(t2, "favourites", userId, name, row);
    DropSpec(t3, "mfa_values", userId, name, row);
    DropSpec(t4, "watches", userId, name, row);
  }

  /** A table the relation deletes do not name is untouched by them. */
  lemma WithoutRelationsKeeps(tables: map<string, Table>, userId: int, name: string)
    requires name !in RelationTables
    ensures Entity.TableOf(WithoutRelations(tables, userId), name) == Entity.TableOf(tables, name)
  {
  }

  /** A table no relation delete names keeps its rows through them. */
  lemma DependantsKeep(tables: map<string, Table>, userId: int, name: string)
    requires name !in RelationTables && name !in DependantTables
    ensures Entity.TableOf(Dependants(tables, userId), name) == Entity.TableOf(tables, name)
  {
    WithoutRelationsKeeps(tables, userId, name);
    WithoutUserRowsKeeps(WithoutRelations(tables, userId), DependantTables, userId, name);
  }

  /** A table neither deleted from nor nullified keeps its rows until ownership moves. */
  lemma ClearedKeeps(tables: map<string, Table>, userId: int, name: string)
    requires name !in RelationTables && name !in DependantTables && name != UsersTable
    requires forall p | p in Pairs(NullifyList) :: p.0 != name
    ensures Entity.TableOf(Cleared(tables, userId), name) == Entity.TableOf(tables, name)
  {
    DependantsKeep(tables, userId, name);
    NullifiedAllKeeps(Dependants(tables, userId), Pairs(NullifyList), userId, name);
  }

  /** The tables a delete empties of the user's rows are none of `users`, `entities` and `activities`. */
  lemma DependantNames(name: string)
    requires name in RelationTables || name in DependantTables
    ensures name != UsersTable && name != IdentityTable && name != "activities"
    ensures name in RelationTables <==> name !in DependantTables
  {
  }

  /** The relation deletes take exactly the user's rows from each relation and dependent table. */
  lemma DependantsSpec(tables: map<string, Table>, userId: int, name: string, row: Row)
    requires name in RelationTables || name in DependantTables
    ensures row in Entity.TableOf(Dependants(tables, userId), name) <==>
      row in Entity.TableOf(tables, name) && Get(row, "user_id") != Int(userId)
  {
    DependantNames(name);
    WithoutRelationsSpec(tables, userId, name, row);
    WithoutUserRowsSpec(WithoutRelations(tables, userId), DependantTables, userId, name, row);
  }

  /** Clearing takes exactly the user's rows from each relation and dependent table. */
  lemma ClearedDependants(tables: map<string, Table>, userId: int, name: string, row: Row)
    requires name in RelationTables || name in DependantTables
    ensures row in Entity.TableOf(Cleared(tables, userId), name) <==>
      row in Entity.TableOf(tables, name) && Get(row, "user_id") != Int(userId)
  {
    DependantNames(name);
    DependantsSpec(tables, userId, name, row);
    NotNullified(name);
    NullifiedAllKeeps(Dependants(tables, userId), Pairs(NullifyList), userId, name);
  }

  /** Clearing turns each listed reference to the user into null and keeps every row in place. */
  lemma ClearedNullifies(tables: map<string, Table>, userId: int, name: string, column: string)
    requires (name, column) in Pairs(NullifyList)
    ensures var before := Entity.TableOf(tables, name);
      var after := Entity.TableOf(Cleared(tables, userId), name);
      && |after| == |before|
      && forall i | 0 <= i < |before| :: Get(after[i], column) == if Get(before[i], column) == Int(userId) then Null else Get(before[i], column)
  {
    NullifyListFacts((name, column));
    DependantsKeep(tables, userId, name);
    NullifiedAllSpec(Dependants(tables, userId), Pairs(NullifyList), userId, name);
  }

  /** Clearing deletes the user's own row from `users` and nothing else from it. */
  lemma ClearedUsers(tables: map<string, Table>, userId: int)
    ensures Entity.TableOf(Cleared(tables, userId), UsersTable) == DeleteWhere(Entity.TableOf(tables, UsersTable), IsUser(userId))
  {
    DependantsKeep(tables, userId, UsersTable);
    NotNullified(UsersTable);
    NullifiedAllKeeps(Dependants(tables, userId), Pairs(NullifyList), userId, UsersTable);
  }

  /** Nullifying leaves the owner of every entity as it was. */
  lemma NullifiedKeepsOwners(tables: map<string, Table>, userId: int)
    ensures var before := Entity.TableOf(tables, IdentityTable);
      var after := Entity.TableOf(Nullified(tables, userId), IdentityTable);
      && |after| == |before|
      && forall i | 0 <= i < |before| :: Get(after[i], "owned_by") == Get(before[i], "owned_by")
  {
    DependantsKeep(tables, userId, IdentityTable);
    NullifiedAllSpec(Dependants(tables, userId), Pairs(NullifyList), userId, IdentityTable);
    if (IdentityTable, "owned_by") in Pairs(NullifyList) {
      NullifyListFacts((IdentityTable, "owned_by"));
    }
  }

  /** Clearing leaves the owner of every entity as it was: ownership moves only afterwards. */
  lemma ClearedKeepsOwners(tables: map<string, Table>, userId: int)
    ensures var before := Entity.TableOf(tables, IdentityTable);
      var after := Entity.TableOf(Cleared(tables, userId), IdentityTable);
      && |after| == |before|
      && forall i | 0 <= i < |before| :: Get(after[i], "owned_by") == Get(before[i], "owned_by")
  {
    NullifiedKeepsOwners(tables, userId);
  }

  /** `destroy` refuses exactly the only admin and the guest user, and then changes nothing. */
  lemma DestroyRefusals(tables: map<string, Table>, userId: int, systemName: Value, newOwnerId: Option<int>, adminRoleId: int)
    ensures var (r, after) := DestroyEffect(tables, userId, systemName, newOwnerId, adminRoleId);
      && (r.Err? <==> IsOnlyAdmin(tables, userId, adminRoleId) || systemName == Str("public"))
      && (r.Err? ==> after == tables)
  {
  }

  /** A deleted user's dependent rows are gone from every dependent table, and only they are. */
  lemma DestroyDeletesDependants(tables: map<string, Table>, userId: int, systemName: Value, newOwnerId: Option<int>,
                                 adminRoleId: int, name: string, row: Row)
    requires DestroyEffect(tables, userId, systemName, newOwnerId, adminRoleId).0.Ok?
    requires name in RelationTables || name in DependantTables
    ensures row in Entity.TableOf(DestroyEffect(tables, userId, systemName, newOwnerId, adminRoleId).1, name) <==>
      row in Entity.TableOf(tables, name) && Get(row, "user_id") != Int(userId)
  {
    DependantNames(name);
    ClearedDependants(tables, userId, name, row);
  }

  /** Each listed reference to a deleted user becomes null; the rows themselves stay, in place. */
  lemma DestroyNullifiesReferences(tables: map<string, Table>, userId: int, systemName: Value, newOwnerId: Option<int>,
                                   adminRoleId: int, name: string, column: string)
    requires DestroyEffect(tables, userId, systemName, newOwnerId, adminRoleId).0.Ok?
    requires (name, column) in Pairs(NullifyList)
    ensures var before := Entity.TableOf(tables, name);
      var after := Entity.TableOf(DestroyEffect(tables, userId, systemName, newOwnerId, adminRoleId).1, name);
      && |after| == |before|
      && forall i | 0 <= i < |before| :: Get(after[i], column) == if Get(before[i], column) == Int(userId) then Null else Get(before[i], column)
  {
    ClearedNullifies(tables, userId, name, column);
    NullifyListFacts((name, column));
    var cleared := Cleared(tables, userId);
    var owner := NewOwnerValue(Entity.TableOf(cleared, UsersTable), newOwnerId);
    if name == IdentityTable {
      var t := Entity.TableOf(cleared, IdentityTable);
      assert Entity.TableOf(MigratedOwnership(cleared, userId, owner), name) == SetWhere(t, Refers("owned_by", userId), "owned_by", owner);
    }
  }

  /** Looking up the new owner after the delete: found exactly when it is another user that exists. */
  lemma NewOwnerAfterDelete(users: Table, userId: int, newOwnerId: Option<int>)
    ensures NewOwnerValue(DeleteWhere(users, IsUser(userId)), newOwnerId) ==
      if newOwnerId.Some? && newOwnerId.value != 0 && newOwnerId.value != userId && UserExists(users, Int(newOwnerId.value))
      then Int(newOwnerId.value) else Null
  {
    if newOwnerId.Some? && newOwnerId.value != 0 {
      var n := newOwnerId.value;
      var left := DeleteWhere(users, IsUser(userId));
      if n != userId && UserExists(users, Int(n)) {
        var row :| row in users && SqlEquals(Get(row, "id"), Int(n));
        assert row in left;
        var i :| 0 <= i < |left| && left[i] == row;
        assert IsUser(n)(left[i]);
      }
    }
  }

  /**
   * The entities a deleted user owned pass to the new owner when that is another user that
   * exists, and to nobody otherwise (deleting a user in favour of itself clears ownership).
   */
  lemma DestroyMigratesOwnership(tables: map<string, Table>, userId: int, systemName: Value, newOwnerId: Option<int>, adminRoleId: int)
    requires DestroyEffect(tables, userId, systemName, newOwnerId, adminRoleId).0.Ok?
    ensures var before := Entity.TableOf(tables, IdentityTable);
      var after := Entity.TableOf(DestroyEffect(tables, userId, systemName, newOwnerId, adminRoleId).1, IdentityTable);
      var owner := if newOwnerId.Some? && newOwnerId.value != 0 && newOwnerId.value != userId &&
                      UserExists(Entity.TableOf(tables, UsersTable), Int(newOwnerId.value))
                   then Int(newOwnerId.value) else Null;
      && |after| == |before|
      && forall i | 0 <= i < |before| ::
           Get(after[i], "owned_by") == if Get(before[i], "owned_by") == Int(userId) then owner else Get(before[i], "owned_by")
  {
    var cleared := Cleared(tables, userId);
    ClearedKeepsOwners(tables, userId);
    ClearedUsers(tables, userId);
    NewOwnerAfterDelete(Entity.TableOf(tables, UsersTable), userId, newOwnerId);
  }

  /** The deleted user's row is gone and every other user's row stays. */
  lemma DestroyRemovesUser(tables: map<string, Table>, userId: int, systemName: Value, newOwnerId: Option<int>, adminRoleId: int, row: Row)
    requires DestroyEffect(tables, userId, systemName, newOwnerId, adminRoleId).0.Ok?
    ensures row in Entity.TableOf(DestroyEffect(tables, userId, systemName, newOwnerId, adminRoleId).1, UsersTable) <==>
      row in Entity.TableOf(tables, UsersTable) && Get(row, "id") != Int(userId)
  {
    ClearedUsers(tables, userId);
  }

  /** The model's `destroy` writes nothing to `activities`. */
  lemma DestroyActivitiesUnchanged(tables: map<string, Table>, userId: int, systemName: Value, newOwnerId: Option<int>, adminRoleId: int)
    ensures Entity.TableOf(DestroyEffect(tables, userId, systemName, newOwnerId, adminRoleId).1, "activities") ==
      Entity.TableOf(tables, "activities")
  {
    forall p | p in Pairs(NullifyList) ensures p.0 != "activities" {
      NullifyListFacts(p);
    }
    ClearedKeeps(tables, userId, "activities");
  }

  /**
   * Deleting a user does not clear the activity log: every activity row there before is still there,
   * in its place and with its `user_id`. (The `USER_DELETE` entry `destroy` appends is not part of
   * this model.)
   */
  lemma DestroyKeepsActivities(tables: map<string, Table>, userId: int, systemName: Value, newOwnerId: Option<int>, adminRoleId: int)
    ensures var before := Entity.TableOf(tables, "activities");
      var after := Entity.TableOf(DestroyEffect(tables, userId, systemName, newOwnerId, adminRoleId).1, "activities");
      && |before| <= |after|
      && forall i | 0 <= i < |before| :: after[i] == before[i] && Get(after[i], "user_id") == Get(before[i], "user_id")
  {
    DestroyActivitiesUnchanged(tables, userId, systemName, newOwnerId, adminRoleId);
  }

  // ---------------------------------------------------------------------------------------------
  // Setting roles, creating and updating

  /** A role change that goes through leaves the user holding exactly the listed roles. */
  lemma RolesSetOutcome(tables: map<string, Table>, userId: int, roles: seq<Value>, adminRoleId: int, roleId: int)
    ensures var (r, after) := RolesSet(tables, userId, roles, adminRoleId);
      && (r.Err? <==> DemotingLastAdmin(tables, userId, adminRoleId, ArrayFilter(roles)))
      && (r.Err? ==> after == tables)
      && (r.Ok? ==> (HoldsRole(after, userId, roleId) <==> roleId in RoleIds(ArrayFilter(roles))))
  {
    var ids := RoleIds(ArrayFilter(roles));
    SyncedHoldsExactly(Entity.TableOf(tables, RoleUserTable), userId, ids, roleId);
  }

  /** The outside services a new user's attributes come from. */
  datatype UserServices = UserServices(
    hash: string -> string,     // `Hash::make`
    random: string,             // `Str::random(32)`
    slugFor: Row -> string      // `SlugGenerator::generate`
  )

  /** The validated request data (a missing key reads as null) and `roles` when it is set. */
  datatype UserRequest = UserRequest(data: Row, roles: Option<seq<Value>>)

  /** `$data[$key] ?? $default`. */
  function Coalesce(data: Row, key: string, default: Value): Value {
    if Get(data, key) == Null then default else Get(data, key)
  }

  /** The attributes `createWithoutActivity` sets from the request, before the slug. */
  function AccountOf(data: Row, emailConfirmed: bool, s: UserServices): Row {
    var password := Get(data, "password");
    map[
      "name" := Get(data, "name"),
      "email" := Get(data, "email"),
      "password" := Str(s.hash(if Falsy(password) then s.random else StrCast(password))),
      "email_confirmed" := Bool(emailConfirmed),
      "external_auth_id" := Coalesce(data, "external_auth_id", Str(""))]
  }

  /** The attributes `createWithoutActivity` gives a new user before it is saved. */
  function NewUser(data: Row, emailConfirmed: bool, s: UserServices): Row {
    var account := AccountOf(data, emailConfirmed, s);
    account["slug" := Str(s.slugFor(account))]
  }

  /**
   * `createWithoutActivity($data, $emailConfirmed)` on the tables: the user row is inserted with the
   * id the database assigns, then the roles are set when given. A refused role change leaves the
   * saved user in place.
   */
  function CreateEffect(tables: map<string, Table>, request: UserRequest, emailConfirmed: bool, s: UserServices,
                        newId: int, adminRoleId: int): (Result<(), string>, Row, map<string, Table>)
  {
    var attrs := NewUser(request.data, emailConfirmed, s)["id" := Int(newId)];
    var inserted := tables[UsersTable := Entity.TableOf(tables, UsersTable) + [attrs]];
    if request.roles.None? then (Ok(()), attrs, inserted)
    else
      var (r, after) := RolesSet(inserted, newId, request.roles.value, adminRoleId);
      (r, attrs, after)
  }

  /** `createWithoutActivity($data, $emailConfirmed)`; the language setting and the avatar are not modelled. */
  method CreateWithoutActivity(db: Database, request: UserRequest, emailConfirmed: bool, s: UserServices,
                               newId: int, adminRoleId: int) returns (user: User, r: Result<(), string>)
    modifies db
    ensures fresh(user) && user.stored
    ensures (r, user.attributes, db.tables) == CreateEffect(old(db.tables), request, emailConfirmed, s, newId, adminRoleId)
  {
    user := new User();
    FillNew(user, request.data, emailConfirmed, s);
    user.Insert(db, newId);

    r := Ok(());
    if request.roles.Some? {
      r := SetUserRoles(db, newId, request.roles.value, adminRoleId);
    }
  }

  /** The attribute assignments and `refreshSlug()` that `createWithoutActivity` makes on a new user. */
  method FillNew(user: User, data: Row, emailConfirmed: bool, s: UserServices)
    requires user.attributes == map[]
    modifies user
    ensures user.stored == old(user.stored)
    ensures user.attributes == NewUser(data, emailConfirmed, s)
  {
    user.attributes := user.attributes["name" := Get(data, "name")];
    user.attributes := user.attributes["email" := Get(data, "email")];
    var password := Get(data, "password");
    user.attributes := user.attributes["password" := Str(s.hash(if Falsy(password) then s.random else StrCast(password)))];
    user.attributes := user.attributes["email_confirmed" := Bool(emailConfirmed)];
    user.attributes := user.attributes["external_auth_id" := Coalesce(data, "external_auth_id", Str(""))];
    assert user.attributes == AccountOf(data, emailConfirmed, s);
    user.attributes := user.attributes["slug" := Str(s.slugFor(user.attributes))];
  }

  /**
   * A new user carries the request's name and email, the hash of the given password (of a random
   * one when none is given), the confirmation flag, an empty external id by default, and a slug
   * made from those.
   */
  lemma NewUserFields(data: Row, emailConfirmed: bool, s: UserServices)
    ensures var attrs := NewUser(data, emailConfirmed, s);
      var password := Get(data, "password");
      && attrs.Keys == {"name", "email", "password", "email_confirmed", "external_auth_id", "slug"}
      && Get(attrs, "name") == Get(data, "name") && Get(attrs, "email") == Get(data, "email")
      && Get(attrs, "password") == Str(s.hash(if Falsy(password) then s.random else StrCast(password)))
      && Get(attrs, "email_confirmed") == Bool(emailConfirmed)
      && (Get(data, "external_auth_id") == Null ==> Get(attrs, "external_auth_id") == Str(""))
      && (Get(data, "external_auth_id") != Null ==> Get(attrs, "external_auth_id") == Get(data, "external_auth_id"))
      && Get(attrs, "slug") == Str(s.slugFor(attrs - {"slug"}))
  {
    assert NewUser(data, emailConfirmed, s) - {"slug"} == AccountOf(data, emailConfirmed, s);
  }

  /** The saved user is the new user with the id the database assigned. */
  lemma CreatedUserAttributes(tables: map<string, Table>, request: UserRequest, emailConfirmed: bool, s: UserServices,
                              newId: int, adminRoleId: int)
    ensures var attrs := CreateEffect(tables, request, emailConfirmed, s, newId, adminRoleId).1;
      && attrs.Keys == NewUser(request.data, emailConfirmed, s).Keys + {"id"}
      && Get(attrs, "id") == Int(newId)
      && attrs - {"id"} == NewUser(request.data, emailConfirmed, s)
  {
    NewUserFields(request.data, emailConfirmed, s);
    var user := NewUser(request.data, emailConfirmed, s);
    assert user["id" := Int(newId)] - {"id"} == user;
  }

  /**
   * A new user's row is appended to `users` whatever happens to its roles; without roles the role
   * links stay as they were, and with roles given and accepted it holds exactly the listed roles.
   */
  lemma CreatedUserStored(tables: map<string, Table>, request: UserRequest, emailConfirmed: bool, s: UserServices,
                          newId: int, adminRoleId: int, roleId: int)
    ensures var (r, attrs, after) := CreateEffect(tables, request, emailConfirmed, s, newId, adminRoleId);
      && Entity.TableOf(after, UsersTable) == Entity.TableOf(tables, UsersTable) + [attrs]
      && (request.roles.None? ==> r.Ok? && Entity.TableOf(after, RoleUserTable) == Entity.TableOf(tables, RoleUserTable))
      && (request.roles.Some? && r.Ok? ==>
            (HoldsRole(after, newId, roleId) <==> roleId in RoleIds(ArrayFilter(request.roles.value))))
  {
    var attrs := NewUser(request.data, emailConfirmed, s)["id" := Int(newId)];
    var inserted := tables[UsersTable := Entity.TableOf(tables, UsersTable) + [attrs]];
    if request.roles.Some? {
      RolesSetOutcome(inserted, newId, request.roles.value, adminRoleId, roleId);
    }
  }

  /** The attributes `updateWithoutActivity` changes before roles are set: name and slug, email, external id. */
  function AccountUpdated(attrs: Row, data: Row, manageUsersAllowed: bool, s: UserServices): Row {
    var named := if Truthy(Get(data, "name")) then Renamed(attrs, Get(data, "name"), s) else attrs;
    var mailed := if Truthy(Get(data, "email")) && manageUsersAllowed then named["email" := Get(data, "email")] else named;
    if Truthy(Get(data, "external_auth_id")) && manageUsersAllowed then mailed["external_auth_id" := Get(data, "external_auth_id")]
    else mailed
  }

  /** A new name, and the slug `refreshSlug()` makes for the renamed user. */
  function Renamed(attrs: Row, name: Value, s: UserServices): Row {
    var named := attrs["name" := name];
    named["slug" := Str(s.slugFor(named))]
  }

  /** The password `updateWithoutActivity` sets, after the roles. */
  function PasswordUpdated(attrs: Row, data: Row, s: UserServices): Row {
    if Truthy(Get(data, "password")) then attrs["password" := Str(s.hash(StrCast(Get(data, "password"))))] else attrs
  }

  /**
   * `updateWithoutActivity($user, $data, $manageUsersAllowed)` on the user's attributes and the
   * tables. A refused role change throws before the save: the tables stay as they were and the
   * user keeps the unsaved changes made so far.
   */
  function UpdateEffect(tables: map<string, Table>, attrs: Row, request: UserRequest, manageUsersAllowed: bool,
                        s: UserServices, adminRoleId: int): (Result<(), string>, Row, map<string, Table>)
  {
    var userId := IntVal(Get(attrs, "id"));
    var account := AccountUpdated(attrs, request.data, manageUsersAllowed, s);
    var (r, linked) :=
      if request.roles.Some? && manageUsersAllowed then RolesSet(tables, userId, request.roles.value, adminRoleId)
      else (Ok(()), tables);
    if r.Err? then (r, account, tables)
    else
      var saved := PasswordUpdated(account, request.data, s);
      (Ok(()), saved, Saved(linked, userId, saved))
  }

  /** `save()` on a stored user: its attributes are written over its row. */
  function Saved(tables: map<string, Table>, userId: int, attrs: Row): map<string, Table> {
    tables[UsersTable := UpdateWhere(Entity.TableOf(tables, UsersTable), IsUser(userId), Overwrite(attrs))]
  }

  /** The account and password changes never touch the id. */
  lemma UpdatedKeepsId(attrs: Row, data: Row, manageUsersAllowed: bool, s: UserServices)
    ensures Get(AccountUpdated(attrs, data, manageUsersAllowed, s), "id") == Get(attrs, "id")
    ensures Get(PasswordUpdated(attrs, data, s), "id") == Get(attrs, "id")
  {
  }

  /** `updateWithoutActivity($user, $data, $manageUsersAllowed)`; the language setting is not modelled. */
  method UpdateWithoutActivity(db: Database, user: User, request: UserRequest, manageUsersAllowed: bool,
                               s: UserServices, adminRoleId: int) returns (r: Result<(), string>)
    requires user.stored
    modifies db, user
    ensures user.stored
    ensures (r, user.attributes, db.tables) ==
      UpdateEffect(old(db.tables), old(user.attributes), request, manageUsersAllowed, s, adminRoleId)
  {
    var data := request.data;
    UpdatedKeepsId(user.attributes, data, manageUsersAllowed, s);
    ghost var userId := user.Id();
    UpdateAccount(user, data, manageUsersAllowed, s);
    assert user.Id() == userId;

    r := Ok(());
    if request.roles.Some? && manageUsersAllowed {
      r := SetUserRoles(db, user.Id(), request.roles.value, adminRoleId);
      if r.Err? {
        return;
      }
    }
    SavePassword(db, user, data, s);
  }

  /** The password change and the `save()` that end `updateWithoutActivity`. */
  method SavePassword(db: Database, user: User, data: Row, s: UserServices)
    requires user.stored
    modifies db, user
    ensures user.stored
    ensures user.attributes == PasswordUpdated(old(user.attributes), data, s)
    ensures db.tables == Saved(old(db.tables), old(user.Id()), user.attributes)
  {
    UpdatedKeepsId(user.attributes, data, false, s);
    if Truthy(Get(data, "password")) {
      user.attributes := user.attributes["password" := Str(s.hash(StrCast(Get(data, "password"))))];
    }
    user.Update(db);
  }

  /** The account changes of `updateWithoutActivity`, made on the model before roles are set. */
  method UpdateAccount(user: User, data: Row, manageUsersAllowed: bool, s: UserServices)
    modifies user
    ensures user.stored == old(user.stored)
    ensures user.attributes == AccountUpdated(old(user.attributes), data, manageUsersAllowed, s)
  {
    if Truthy(Get(data, "name")) {
      user.attributes := user.attributes["name" := Get(data, "name")];
      user.attributes := user.attributes["slug" := Str(s.slugFor(user.attributes))];
    }
    if Truthy(Get(data, "email")) && manageUsersAllowed {
      user.attributes := user.attributes["email" := Get(data, "email")];
    }
    if Truthy(Get(data, "external_auth_id")) && manageUsersAllowed {
      user.attributes := user.attributes["external_auth_id" := Get(data, "external_auth_id")];
    }
  }

  /** The account changes: name and slug when a name is given, email and external id when given and allowed. */
  lemma AccountUpdatedFields(attrs: Row, data: Row, manageUsersAllowed: bool, s: UserServices, key: string)
    ensures var after := AccountUpdated(attrs, data, manageUsersAllowed, s);
      && Get(after, "name") == (if Truthy(Get(data, "name")) then Get(data, "name") else Get(attrs, "name"))
      && Get(after, "slug") == (if Truthy(Get(data, "name")) then Str(s.slugFor(attrs["name" := Get(data, "name")])) else Get(attrs, "slug"))
      && Get(after, "email") == (if Truthy(Get(data, "email")) && manageUsersAllowed then Get(data, "email") else Get(attrs, "email"))
      && Get(after, "external_auth_id") ==
           (if Truthy(Get(data, "external_auth_id")) && manageUsersAllowed then Get(data, "external_auth_id") else Get(attrs, "external_auth_id"))
      && Get(after, "password") == Get(attrs, "password")
      && (key !in {"name", "slug", "email", "external_auth_id"} ==> Get(after, key) == Get(attrs, key))
  {
  }

  /** The password change: hashed when one is given, and no other attribute changes. */
  lemma PasswordUpdatedFields(attrs: Row, data: Row, s: UserServices, key: string)
    ensures var after := PasswordUpdated(attrs, data, s);
      && Get(after, "password") ==
           (if Truthy(Get(data, "password")) then Str(s.hash(StrCast(Get(data, "password")))) else Get(attrs, "password"))
      && (key != "password" ==> Get(after, key) == Get(attrs, key))
  {
  }

  /**
   * An update sets the name (and a new slug) only when one is given, the email and the external id
   * only when given by someone allowed to manage users, and the password (hashed) only when given;
   * every other attribute keeps its value.
   */
  lemma UpdatedAttributes(tables: map<string, Table>, attrs: Row, request: UserRequest, manageUsersAllowed: bool,
                          s: UserServices, adminRoleId: int, key: string)
    requires UpdateEffect(tables, attrs, request, manageUsersAllowed, s, adminRoleId).0.Ok?
    ensures var after := UpdateEffect(tables, attrs, request, manageUsersAllowed, s, adminRoleId).1;
      var data := request.data;
      && Get(after, "name") == (if Truthy(Get(data, "name")) then Get(data, "name") else Get(attrs, "name"))
      && Get(after, "slug") == (if Truthy(Get(data, "name")) then Str(s.slugFor(attrs["name" := Get(data, "name")])) else Get(attrs, "slug"))
      && Get(after, "email") == (if Truthy(Get(data, "email")) && manageUsersAllowed then Get(data, "email") else Get(attrs, "email"))
      && Get(after, "external_auth_id") ==
           (if Truthy(Get(data, "external_auth_id")) && manageUsersAllowed then Get(data, "external_auth_id") else Get(attrs, "external_auth_id"))
      && Get(after, "password") ==
           (if Truthy(Get(data, "password")) then Str(s.hash(StrCast(Get(data, "password")))) else Get(attrs, "password"))
      && (key !in {"name", "slug", "email", "external_auth_id", "password"} ==> Get(after, key) == Get(attrs, key))
  {
    var account := AccountUpdated(attrs, request.data, manageUsersAllowed, s);
    AccountUpdatedFields(attrs, request.data, manageUsersAllowed, s, key);
    PasswordUpdatedFields(account, request.data, s, key);
    PasswordUpdatedFields(account, request.data, s, "name");
    PasswordUpdatedFields(account, request.data, s, "slug");
    PasswordUpdatedFields(account, request.data, s, "email");
    PasswordUpdatedFields(account, request.data, s, "external_auth_id");
    assert UpdateEffect(tables, attrs, request, manageUsersAllowed, s, adminRoleId).1 == PasswordUpdated(account, request.data, s);
  }

  /** Without permission to manage users, an update never touches roles, email or external id. */
  lemma UpdateWithoutPermission(tables: map<string, Table>, attrs: Row, request: UserRequest, s: UserServices, adminRoleId: int)
    ensures var (r, after, tables') := UpdateEffect(tables, attrs, request, false, s, adminRoleId);
      && r.Ok?
      && Get(after, "email") == Get(attrs, "email")
      && Get(after, "external_auth_id") == Get(attrs, "external_auth_id")
      && Entity.TableOf(tables', RoleUserTable) == Entity.TableOf(tables, RoleUserTable)
  {
  }

  /**
   * A refused role change saves nothing; an accepted update writes the user's attributes over its
   * own row, leaves every other user's row alone, and leaves the user holding exactly the roles
   * listed when the roles were set.
   */
  lemma UpdateSaves(tables: map<string, Table>, attrs: Row, request: UserRequest, manageUsersAllowed: bool,
                    s: UserServices, adminRoleId: int, roleId: int)
    ensures var (r, after, tables') := UpdateEffect(tables, attrs, request, manageUsersAllowed, s, adminRoleId);
      var userId := IntVal(Get(attrs, "id"));
      var before := Entity.TableOf(tables, UsersTable);
      var saved := Entity.TableOf(tables', UsersTable);
      && (r.Err? ==> tables' == tables)
      && (r.Ok? ==>
            && |saved| == |before|
            && (forall i | 0 <= i < |before| :: IsUser(userId)(before[i]) ==> saved[i] == before[i] + after)
            && (forall i | 0 <= i < |before| :: !IsUser(userId)(before[i]) ==> saved[i] == before[i]))
      && (r.Ok? && request.roles.Some? && manageUsersAllowed ==>
            (HoldsRole(tables', userId, roleId) <==> roleId in RoleIds(ArrayFilter(request.roles.value))))
  {
    var userId := IntVal(Get(attrs, "id"));
    if request.roles.Some? && manageUsersAllowed {
      RolesSetOutcome(tables, userId, request.roles.value, adminRoleId, roleId);
      var (r, linked) := RolesSet(tables, userId, request.roles.value, adminRoleId);
      assert Entity.TableOf(linked, UsersTable) == Entity.TableOf(tables, UsersTable);
    }
  }
}
