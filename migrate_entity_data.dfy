/**
 * The data migration that splits the four old per-kind tables (`bookshelves`, `books`, `chapters`,
 * `pages`) into the shared identity table `entities` and the two payload tables
 * `entity_container_data` and `entity_page_data`, then clears the identity table's references that
 * hold 0 or name a row that does not exist. The transaction around it is not modelled: every
 * statement is taken to succeed.
 */
module MigrateEntityData {
  import opened Seqs
  import opened Php
  import opened Tables
  import opened EntityKinds
  import Entity
  import EntityContainerData
  import EntityPageData

  const UsersTable := "users"
  const ContainerTable := EntityContainerData.TableName
  const PageDataTable := EntityPageData.TableName

  /** The table each kind was stored in before the split. */
  function SourceTable(k: Kind): string {
    match k
    case Bookshelf => "bookshelves"
    case Book => "books"
    case Chapter => "chapters"
    case Page => "pages"
  }

  /** The old rows of a kind. */
  function SourceRows(tables: map<string, Table>, k: Kind): Table {
    Entity.TableOf(tables, SourceTable(k))
  }

  /** The identity columns a book or shelf copies across. */
  const ContainerIdentity: seq<string> := [
    "id", "name", "slug", "created_at", "updated_at", "deleted_at", "created_by", "updated_by", "owned_by"
  ]

  /** The columns each kind copies into `entities`; `type` is written as a literal. */
  function IdentityColumns(k: Kind): seq<string> {
    match k
    case Bookshelf => ContainerIdentity
    case Book => ContainerIdentity
    case Chapter => [
      "id", "name", "slug", "book_id", "priority", "created_at", "updated_at", "deleted_at",
      "created_by", "updated_by", "owned_by"
    ]
    case Page => [
      "id", "name", "slug", "book_id", "chapter_id", "priority", "created_at", "updated_at", "deleted_at",
      "created_by", "updated_by", "owned_by"
    ]
  }

  /** The columns each kind copies into its payload table; the key is written from `id`. */
  function PayloadColumns(k: Kind): seq<string> {
    match k
    case Bookshelf => ["description", "description_html", "image_id"]
    case Book => ["description", "description_html", "default_template_id", "image_id", "sort_rule_id"]
    case Chapter => ["description", "description_html", "default_template_id"]
    case Page => EntityPageData.Fields
  }

  /** The identity row `insertUsing` makes of an old row: its identity columns and the kind's `type`. */
  function IdentityRow(k: Kind): Row -> Row {
    row => Project(row, IdentityColumns(k))["type" := Str(TypeName(k))]
  }

  /**
   * The payload row made of an old row: a page's keyed by `page_id`, a container's by `entity_id`
   * together with `entity_type`.
   */
  function PayloadRow(k: Kind): Row -> Row {
    row =>
      if k == Page then Project(row, PayloadColumns(k))["page_id" := Get(row, "id")]
      else Project(row, PayloadColumns(k))["entity_id" := Get(row, "id")]["entity_type" := Str(TypeName(k))]
  }

  /** The identity rows of one kind, in the order of its old table. */
  function IdentityRows(tables: map<string, Table>, k: Kind): Table {
    Map(SourceRows(tables, k), IdentityRow(k))
  }

  /** The identity rows of several kinds, kind after kind. */
  function IdentityRowsOf(tables: map<string, Table>, kinds: seq<Kind>): Table {
    if kinds == [] then []
    else IdentityRowsOf(tables, kinds[..|kinds| - 1]) + IdentityRows(tables, kinds[|kinds| - 1])
  }

  /** The payload rows of one kind, in the order of its old table. */
  function PayloadRows(tables: map<string, Table>, k: Kind): Table {
    Map(SourceRows(tables, k), PayloadRow(k))
  }

  /** The kinds the loop over `['books' => 'book', 'bookshelves' => 'bookshelf']` copies, in order. */
  const LoopKinds: seq<Kind> := [Book, Bookshelf]

  /** The identity inserts: books and shelves in a loop, then chapters, then pages. */
  function WithIdentities(tables: map<string, Table>): map<string, Table> {
    tables[IdentityTable := Entity.TableOf(tables, IdentityTable) + IdentityRowsOf(tables, LoopKinds)
      + IdentityRows(tables, Chapter) + IdentityRows(tables, Page)]
  }

  /** The three container inserts: shelves, books, chapters. */
  function WithContainers(tables: map<string, Table>): map<string, Table> {
    tables[ContainerTable := Entity.TableOf(tables, ContainerTable) + PayloadRows(tables, Bookshelf)
      + PayloadRows(tables, Book) + PayloadRows(tables, Chapter)]
  }

  /** The page payload insert. */
  function WithPageData(tables: map<string, Table>): map<string, Table> {
    tables[PageDataTable := Entity.TableOf(tables, PageDataTable) + PayloadRows(tables, Page)]
  }

  /** The inserts of `up()`. */
  function Copied(tables: map<string, Table>): map<string, Table> {
    WithPageData(WithContainers(WithIdentities(tables)))
  }

  /** The user ids, as the sub-select on `users` yields them. */
  function UserIds(tables: map<string, Table>): set<Value> {
    ColumnValues(Entity.TableOf(tables, UsersTable), "id")
  }

  /** The chapter ids, as the sub-select on the old `chapters` table yields them. */
  function ChapterIds(tables: map<string, Table>): set<Value> {
    ColumnValues(SourceRows(tables, Chapter), "id")
  }

  /** The zero-to-NULL updates on the identity table. */
  function ZerosNulled(t: Table): Table {
    var t1 := SetWhere(t, Where("created_by", Int(0)), "created_by", Null);
    var t2 := SetWhere(t1, Where("updated_by", Int(0)), "updated_by", Null);
    var t3 := SetWhere(t2, Where("owned_by", Int(0)), "owned_by", Null);
    SetWhere(t3, Where("chapter_id", Int(0)), "chapter_id", Null)
  }

  /** The updates that set to NULL the references naming no user, or no chapter. */
  function MissingNulled(t: Table, userIds: set<Value>, chapterIds: set<Value>): Table {
    var t1 := SetWhere(t, WhereNotIn("created_by", userIds), "created_by", Null);
    var t2 := SetWhere(t1, WhereNotIn("updated_by", userIds), "updated_by", Null);
    var t3 := SetWhere(t2, WhereNotIn("owned_by", userIds), "owned_by", Null);
    SetWhere(t3, WhereNotIn("chapter_id", chapterIds), "chapter_id", Null)
  }

  /** The zero-to-NULL updates, on the database. */
  function WithZerosNulled(tables: map<string, Table>): map<string, Table> {
    tables[IdentityTable := ZerosNulled(Entity.TableOf(tables, IdentityTable))]
  }

  /** The missing-reference updates, on the database, with the ids read from it. */
  function WithMissingNulled(tables: map<string, Table>): map<string, Table> {
    tables[IdentityTable := MissingNulled(Entity.TableOf(tables, IdentityTable), UserIds(tables), ChapterIds(tables))]
  }

  /** The data changes of `up()`: the inserts, then the clean-up of the identity table. */
  function UpEffect(tables: map<string, Table>): map<string, Table> {
    WithMissingNulled(WithZerosNulled(Copied(tables)))
  }

  // ---------------------------------------------------------------------------------------------
  // The migration as statements

  /** `up()`. */
  method Up(db: Database)
    modifies db
    ensures db.tables == UpEffect(old(db.tables))
  {
    CopyIdentities(db);
    CopyContainers(db);
    CopyPageData(db);
    NullZeroReferences(db);
    NullMissingReferences(db);
  }

  /** The inserts into `entities`. */
  method CopyIdentities(db: Database)
    modifies db
    ensures db.tables == WithIdentities(old(db.tables))
  {
    ghost var before := db.tables;
    CopyBooksAndShelves(db);
    SourceApart(Chapter);
    SourceApart(Page);
    assert db.Rows(SourceTable(Chapter)) == SourceRows(before, Chapter);
    db.InsertUsing(IdentityTable, Map(db.Rows(SourceTable(Chapter)), IdentityRow(Chapter)));
    assert db.Rows(SourceTable(Page)) == SourceRows(before, Page);
    db.InsertUsing(IdentityTable, Map(db.Rows(SourceTable(Page)), IdentityRow(Page)));
  }

  /** The loop that copies books, then shelves, into `entities`. */
  method CopyBooksAndShelves(db: Database)
    modifies db
    ensures db.tables == old(db.tables)[IdentityTable :=
      Entity.TableOf(old(db.tables), IdentityTable) + IdentityRowsOf(old(db.tables), LoopKinds)]
  {
    ghost var before := db.tables;
    for i := 0 to |LoopKinds|
      invariant i == 0 ==> db.tables == before
      invariant i > 0 ==> db.tables == before[IdentityTable := Entity.TableOf(before, IdentityTable) + IdentityRowsOf(before, LoopKinds[..i])]
    {
      var k := LoopKinds[i];
      SourceApart(k);
      assert db.Rows(SourceTable(k)) == SourceRows(before, k);
      ghost var done := db.Rows(IdentityTable);
      assert done == Entity.TableOf(before, IdentityTable) + IdentityRowsOf(before, LoopKinds[..i]) by {
        if i == 0 {
          assert done == Entity.TableOf(before, IdentityTable) + [];
        }
      }
      db.InsertUsing(IdentityTable, Map(db.Rows(SourceTable(k)), IdentityRow(k)));
      assert LoopKinds[..i + 1][..i] == LoopKinds[..i];
      ConcatAssoc(Entity.TableOf(before, IdentityTable), IdentityRowsOf(before, LoopKinds[..i]), IdentityRows(before, k));
    }
    assert LoopKinds[..|LoopKinds|] == LoopKinds;
  }

  /** The inserts into the container payload table. */
  method CopyContainers(db: Database)
    modifies db
    ensures db.tables == WithContainers(old(db.tables))
  {
    ghost var before := db.tables;
    NamesApart();
    SourceApart(Bookshelf);
    SourceApart(Book);
    SourceApart(Chapter);
    db.InsertUsing(ContainerTable, Map(db.Rows(SourceTable(Bookshelf)), PayloadRow(Bookshelf)));
    assert db.Rows(SourceTable(Book)) == SourceRows(before, Book);
    db.InsertUsing(ContainerTable, Map(db.Rows(SourceTable(Book)), PayloadRow(Book)));
    assert db.Rows(SourceTable(Chapter)) == SourceRows(before, Chapter);
    db.InsertUsing(ContainerTable, Map(db.Rows(SourceTable(Chapter)), PayloadRow(Chapter)));
  }

  /** The insert into the page payload table. */
  method CopyPageData(db: Database)
    modifies db
    ensures db.tables == WithPageData(old(db.tables))
  {
    db.InsertUsing(PageDataTable, Map(db.Rows(SourceTable(Page)), PayloadRow(Page)));
  }

  /** The zero-to-NULL updates. */
  method NullZeroReferences(db: Database)
    modifies db
    ensures db.tables == WithZerosNulled(old(db.tables))
  {
    db.SetWhereIn(IdentityTable, Where("created_by", Int(0)), "created_by", Null);
    db.SetWhereIn(IdentityTable, Where("updated_by", Int(0)), "updated_by", Null);
    db.SetWhereIn(IdentityTable, Where("owned_by", Int(0)), "owned_by", Null);
    db.SetWhereIn(IdentityTable, Where("chapter_id", Int(0)), "chapter_id", Null);
  }

  /** The updates that clear references to users and chapters that do not exist. */
  method NullMissingReferences(db: Database)
    modifies db
    ensures db.tables == WithMissingNulled(old(db.tables))
  {
    var userIds := ColumnValues(db.Rows(UsersTable), "id");
    var chapterIds := ColumnValues(db.Rows(SourceTable(Chapter)), "id");
    db.SetWhereIn(IdentityTable, WhereNotIn("created_by", userIds), "created_by", Null);
    db.SetWhereIn(IdentityTable, WhereNotIn("updated_by", userIds), "updated_by", Null);
    db.SetWhereIn(IdentityTable, WhereNotIn("owned_by", userIds), "owned_by", Null);
    db.SetWhereIn(IdentityTable, WhereNotIn("chapter_id", chapterIds), "chapter_id", Null);
  }

  // ---------------------------------------------------------------------------------------------
  // The clean-up, row by row

  /** The user reference columns of the identity table. */
  predicate IsUserColumn(c: string) {
    c == "created_by" || c == "updated_by" || c == "owned_by"
  }

  /** The four reference columns the clean-up touches. */
  predicate IsReference(c: string) {
    IsUserColumn(c) || c == "chapter_id"
  }

  /** What the clean-up leaves in a reference: NULL for 0 and for an id not among `ids`, else the value. */
  function CleanedValue(v: Value, ids: set<Value>): Value {
    if v == Int(0) || SqlNotIn(v, ids) then Null else v
  }

  /**
   * With no NULL among the ids, the clean-up keeps a reference exactly when it is NULL or a non-zero
   * id that exists, and whatever it leaves is NULL or such an id.
   */
  lemma CleanedValueKeeps(v: Value, ids: set<Value>)
    requires Null !in ids
    ensures CleanedValue(v, ids) == v <==> v == Null || (v != Int(0) && v in ids)
    ensures CleanedValue(v, ids) == Null || (CleanedValue(v, ids) != Int(0) && CleanedValue(v, ids) in ids)
  {
  }

  function NullIfZero(c: string): Row -> Row {
    SetIf(Where(c, Int(0)), c, Null)
  }

  function NullIfMissing(c: string, ids: set<Value>): Row -> Row {
    SetIf(WhereNotIn(c, ids), c, Null)
  }

  /** The zero-to-NULL statements, in order. */
  const ZeroUpdates: seq<Update> := [
    Update(Where("created_by", Int(0)), "created_by", Null),
    Update(Where("updated_by", Int(0)), "updated_by", Null),
    Update(Where("owned_by", Int(0)), "owned_by", Null),
    Update(Where("chapter_id", Int(0)), "chapter_id", Null)
  ]

  /** The missing-reference statements, in order. */
  function MissingUpdates(userIds: set<Value>, chapterIds: set<Value>): seq<Update> {
    [
      Update(WhereNotIn("created_by", userIds), "created_by", Null),
      Update(WhereNotIn("updated_by", userIds), "updated_by", Null),
      Update(WhereNotIn("owned_by", userIds), "owned_by", Null),
      Update(WhereNotIn("chapter_id", chapterIds), "chapter_id", Null)
    ]
  }

  /** The four zero-to-NULL updates, applied to one identity row. */
  function ZeroRow(): Row -> Row {
    RowUpdates(ZeroUpdates)
  }

  /** The four missing-reference updates, applied to one identity row. */
  function MissingRow(userIds: set<Value>, chapterIds: set<Value>): Row -> Row {
    RowUpdates(MissingUpdates(userIds, chapterIds))
  }

  /** The eight updates of the clean-up, applied to one identity row. */
  function CleanRow(userIds: set<Value>, chapterIds: set<Value>): Row -> Row {
    RowUpdates(ZeroUpdates + MissingUpdates(userIds, chapterIds))
  }

  lemma NullIfZeroGet(row: Row, column: string, c: string)
    ensures Get(NullIfZero(column)(row), c) == if c == column && Get(row, c) == Int(0) then Null else Get(row, c)
  {
    SetIfGet(Where(column, Int(0)), column, Null, row, c);
  }

  lemma NullIfMissingGet(row: Row, column: string, ids: set<Value>, c: string)
    ensures Get(NullIfMissing(column, ids)(row), c) == if c == column && SqlNotIn(Get(row, c), ids) then Null else Get(row, c)
  {
    SetIfGet(WhereNotIn(column, ids), column, Null, row, c);
  }

  lemma ZeroStepsGet(row: Row, c: string)
    ensures var r1 := NullIfZero("created_by")(row);
      var r2 := NullIfZero("updated_by")(r1);
      var r3 := NullIfZero("owned_by")(r2);
      Get(NullIfZero("chapter_id")(r3), c) == if IsReference(c) && Get(row, c) == Int(0) then Null else Get(row, c)
  {
    var r1 := NullIfZero("created_by")(row);
    var r2 := NullIfZero("updated_by")(r1);
    var r3 := NullIfZero("owned_by")(r2);
    NullIfZeroGet(row, "created_by", c);
    NullIfZeroGet(r1, "updated_by", c);
    NullIfZeroGet(r2, "owned_by", c);
    NullIfZeroGet(r3, "chapter_id", c);
  }

  /** The zero-to-NULL half of the clean-up: a reference holding 0 becomes NULL; nothing else changes. */
  lemma ZeroRowGet(row: Row, c: string)
    ensures Get(RunUpdates(ZeroUpdates, row), c) ==
      if IsReference(c) && Get(row, c) == Int(0) then Null else Get(row, c)
  {
    RunFour(ZeroUpdates, row);
    ZeroStepsGet(row, c);
  }

  lemma MissingStepsGet(row: Row, userIds: set<Value>, chapterIds: set<Value>, c: string)
    ensures var r1 := NullIfMissing("created_by", userIds)(row);
      var r2 := NullIfMissing("updated_by", userIds)(r1);
      var r3 := NullIfMissing("owned_by", userIds)(r2);
      Get(NullIfMissing("chapter_id", chapterIds)(r3), c) ==
        if IsUserColumn(c) && SqlNotIn(Get(row, c), userIds) then Null
        else if c == "chapter_id" && SqlNotIn(Get(row, c), chapterIds) then Null
        else Get(row, c)
  {
    var r1 := NullIfMissing("created_by", userIds)(row);
    var r2 := NullIfMissing("updated_by", userIds)(r1);
    var r3 := NullIfMissing("owned_by", userIds)(r2);
    NullIfMissingGet(row, "created_by", userIds, c);
    NullIfMissingGet(r1, "updated_by", userIds, c);
    NullIfMissingGet(r2, "owned_by", userIds, c);
    NullIfMissingGet(r3, "chapter_id", chapterIds, c);
  }

  /** The missing-reference half: a reference naming no user (or chapter) becomes NULL; nothing else changes. */
  lemma MissingRowGet(row: Row, userIds: set<Value>, chapterIds: set<Value>, c: string)
    ensures Get(RunUpdates(MissingUpdates(userIds, chapterIds), row), c) ==
      if IsUserColumn(c) && SqlNotIn(Get(row, c), userIds) then Null
      else if c == "chapter_id" && SqlNotIn(Get(row, c), chapterIds) then Null
      else Get(row, c)
  {
    RunFour(MissingUpdates(userIds, chapterIds), row);
    MissingStepsGet(row, userIds, chapterIds, c);
  }

  /** The clean-up changes the user references and a page's chapter and nothing else. */
  lemma CleanRowGet(row: Row, userIds: set<Value>, chapterIds: set<Value>, c: string)
    ensures Get(CleanRow(userIds, chapterIds)(row), c) ==
      if IsUserColumn(c) then CleanedValue(Get(row, c), userIds)
      else if c == "chapter_id" then CleanedValue(Get(row, c), chapterIds)
      else Get(row, c)
  {
    var zeroed := RunUpdates(ZeroUpdates, row);
    RunUpdatesConcat(ZeroUpdates, MissingUpdates(userIds, chapterIds), row);
    ZeroRowGet(row, c);
    MissingRowGet(zeroed, userIds, chapterIds, c);
    CleanedInTwoSteps(Get(row, c), Get(zeroed, c), Get(CleanRow(userIds, chapterIds)(row), c),
      IsUserColumn(c), c == "chapter_id", userIds, chapterIds);
  }

  /** A reference value through the two halves of the clean-up. */
  lemma CleanedInTwoSteps(v: Value, zeroed: Value, cleaned: Value, isUser: bool, isChapter: bool,
                          userIds: set<Value>, chapterIds: set<Value>)
    requires !(isUser && isChapter)
    requires zeroed == if (isUser || isChapter) && v == Int(0) then Null else v
    requires cleaned == if isUser && SqlNotIn(zeroed, userIds) then Null
      else if isChapter && SqlNotIn(zeroed, chapterIds) then Null
      else zeroed
    ensures cleaned == if isUser then CleanedValue(v, userIds) else if isChapter then CleanedValue(v, chapterIds) else v
  {
  }

  /** The eight table updates are the row clean-up mapped over the table. */
  lemma CleanedIsMap(t: Table, userIds: set<Value>, chapterIds: set<Value>)
    ensures MissingNulled(ZerosNulled(t), userIds, chapterIds) == Map(t, CleanRow(userIds, chapterIds))
  {
    FourUpdatesAreMap(t, ZeroUpdates);
    FourUpdatesAreMap(Map(t, ZeroRow()), MissingUpdates(userIds, chapterIds));
    MapThen(t, ZeroRow(), MissingRow(userIds, chapterIds));
    forall x | x in t
      ensures Then(ZeroRow(), MissingRow(userIds, chapterIds))(x) == CleanRow(userIds, chapterIds)(x)
    {
      ThenApply(ZeroRow(), MissingRow(userIds, chapterIds), x);
      RunUpdatesConcat(ZeroUpdates, MissingUpdates(userIds, chapterIds), x);
    }
    MapCongruent(t, Then(ZeroRow(), MissingRow(userIds, chapterIds)), CleanRow(userIds, chapterIds));
  }

  /** Whatever the clean-up leaves in a reference is NULL or the id of an existing user, or chapter. */
  lemma CleanedRowsValid(t: Table, userIds: set<Value>, chapterIds: set<Value>)
    requires Null !in userIds && Null !in chapterIds
    ensures forall r, c | r in Map(t, CleanRow(userIds, chapterIds)) && IsUserColumn(c) ::
      Get(r, c) == Null || (Get(r, c) != Int(0) && Get(r, c) in userIds)
    ensures forall r | r in Map(t, CleanRow(userIds, chapterIds)) ::
      Get(r, "chapter_id") == Null || (Get(r, "chapter_id") != Int(0) && Get(r, "chapter_id") in chapterIds)
  {
    var clean := CleanRow(userIds, chapterIds);
    forall r | r in Map(t, clean)
      ensures forall c | IsUserColumn(c) :: Get(r, c) == Null || (Get(r, c) != Int(0) && Get(r, c) in userIds)
      ensures Get(r, "chapter_id") == Null || (Get(r, "chapter_id") != Int(0) && Get(r, "chapter_id") in chapterIds)
    {
      var i :| 0 <= i < |t| && r == clean(t[i]);
      forall c | IsUserColumn(c)
        ensures Get(r, c) == Null || (Get(r, c) != Int(0) && Get(r, c) in userIds)
      {
        CleanRowGet(t[i], userIds, chapterIds, c);
        CleanedValueKeeps(Get(t[i], c), userIds);
      }
      CleanRowGet(t[i], userIds, chapterIds, "chapter_id");
      CleanedValueKeeps(Get(t[i], "chapter_id"), chapterIds);
    }
  }

  // ---------------------------------------------------------------------------------------------
  // What `up()` achieves

  /** The rows of a kind in the identity table. */
  function OfKind(k: Kind): Row -> bool {
    Where("type", Str(TypeName(k)))
  }

  /** An old table's primary key: every row has an id and no two rows share one. */
  ghost predicate PrimaryKeyed(t: Table) {
    (forall i | 0 <= i < |t| :: Get(t[i], "id") != Null) &&
    forall i, j | 0 <= i < |t| && 0 <= j < |t| && Get(t[i], "id") == Get(t[j], "id") :: i == j
  }

  /** The table names the migration writes are distinct from each other and from `users`. */
  lemma NamesApart()
    ensures UsersTable != IdentityTable && UsersTable != ContainerTable && UsersTable != PageDataTable
    ensures IdentityTable != ContainerTable && IdentityTable != PageDataTable && ContainerTable != PageDataTable
  {
  }

  /** An old table is none of the tables the migration writes, nor `users`. */
  lemma SourceApart(k: Kind)
    ensures SourceTable(k) != IdentityTable && SourceTable(k) != ContainerTable && SourceTable(k) != PageDataTable
    ensures SourceTable(k) != UsersTable
  {
  }

  /** The inserts write only `entities` and the two payload tables. */
  lemma CopiedKeeps(tables: map<string, Table>, name: string)
    requires name != IdentityTable && name != ContainerTable && name != PageDataTable
    ensures Entity.TableOf(Copied(tables), name) == Entity.TableOf(tables, name)
  {
  }

  /** The clean-up writes only `entities`. */
  lemma CleanupKeeps(tables: map<string, Table>, name: string)
    requires name != IdentityTable
    ensures Entity.TableOf(WithMissingNulled(WithZerosNulled(tables)), name) == Entity.TableOf(tables, name)
  {
  }

  /** The inserts leave the old tables and `users` as they were. */
  lemma CopiedKeepsSources(tables: map<string, Table>)
    ensures forall k :: SourceRows(Copied(tables), k) == SourceRows(tables, k)
    ensures UserIds(Copied(tables)) == UserIds(tables)
    ensures ChapterIds(Copied(tables)) == ChapterIds(tables)
  {
    forall k
      ensures SourceRows(Copied(tables), k) == SourceRows(tables, k)
    {
      SourceApart(k);
      CopiedKeeps(tables, SourceTable(k));
    }
    NamesApart();
    CopiedKeeps(tables, UsersTable);
  }

  /** The clean-up touches only the identity table; the payload tables hold the copied payloads. */
  lemma UpPayloadTables(tables: map<string, Table>)
    ensures Entity.TableOf(UpEffect(tables), ContainerTable) == Entity.TableOf(tables, ContainerTable)
      + PayloadRows(tables, Bookshelf) + PayloadRows(tables, Book) + PayloadRows(tables, Chapter)
    ensures Entity.TableOf(UpEffect(tables), PageDataTable) == Entity.TableOf(tables, PageDataTable) + PayloadRows(tables, Page)
    ensures forall k :: SourceRows(UpEffect(tables), k) == SourceRows(tables, k)
  {
    UpContainers(tables);
    UpPageData(tables);
    forall k
      ensures SourceRows(UpEffect(tables), k) == SourceRows(tables, k)
    {
      SourceApart(k);
      CleanupKeeps(Copied(tables), SourceTable(k));
      CopiedKeeps(tables, SourceTable(k));
    }
  }

  /** After `up()` the container payload table holds its earlier rows and then the copied shelf, book and chapter payloads. */
  lemma UpContainers(tables: map<string, Table>)
    ensures Entity.TableOf(UpEffect(tables), ContainerTable) == Entity.TableOf(tables, ContainerTable)
      + PayloadRows(tables, Bookshelf) + PayloadRows(tables, Book) + PayloadRows(tables, Chapter)
  {
    NamesApart();
    var t1 := WithIdentities(tables);
    SourceApart(Bookshelf);
    SourceApart(Book);
    SourceApart(Chapter);
    assert forall j :: SourceRows(t1, j) == SourceRows(tables, j);
    CleanupKeeps(Copied(tables), ContainerTable);
  }

  /** After `up()` the page payload table holds its earlier rows and then the copied page payloads. */
  lemma UpPageData(tables: map<string, Table>)
    ensures Entity.TableOf(UpEffect(tables), PageDataTable) == Entity.TableOf(tables, PageDataTable) + PayloadRows(tables, Page)
  {
    NamesApart();
    SourceApart(Page);
    var t2 := WithContainers(WithIdentities(tables));
    assert SourceRows(t2, Page) == SourceRows(tables, Page);
    CleanupKeeps(Copied(tables), PageDataTable);
  }

  /** The payload inserts leave the identity rows as the identity inserts wrote them. */
  lemma CopiedEntities(tables: map<string, Table>)
    ensures Entity.TableOf(Copied(tables), IdentityTable) == Entity.TableOf(tables, IdentityTable)
      + IdentityRowsOf(tables, LoopKinds) + IdentityRows(tables, Chapter) + IdentityRows(tables, Page)
  {
    NamesApart();
    var t1 := WithIdentities(tables);
    assert Entity.TableOf(WithContainers(t1), IdentityTable) == Entity.TableOf(t1, IdentityTable);
  }

  /** The zero-to-NULL updates leave `users` and the old chapters as they were. */
  lemma ZerosNulledKeepsIds(tables: map<string, Table>)
    ensures UserIds(WithZerosNulled(tables)) == UserIds(tables)
    ensures ChapterIds(WithZerosNulled(tables)) == ChapterIds(tables)
  {
    NamesApart();
    SourceApart(Chapter);
  }

  /**
   * After `up()` the identity table holds its earlier rows and then one row per old row, books,
   * shelves, chapters, pages, each passed through the clean-up.
   */
  lemma UpEntities(tables: map<string, Table>)
    ensures Entity.TableOf(UpEffect(tables), IdentityTable) ==
      Map(Entity.TableOf(tables, IdentityTable) + IdentityRowsOf(tables, LoopKinds)
        + IdentityRows(tables, Chapter) + IdentityRows(tables, Page), CleanRow(UserIds(tables), ChapterIds(tables)))
  {
    var copied := Copied(tables);
    CopiedKeepsSources(tables);
    CopiedEntities(tables);
    ZerosNulledKeepsIds(copied);
    CleanedIsMap(Entity.TableOf(copied, IdentityTable), UserIds(copied), ChapterIds(copied));
  }

  /**
   * After `up()` no user reference in the identity table is 0 or names a missing user, and no
   * chapter reference is 0 or names a missing chapter (ids are never NULL, being primary keys).
   */
  lemma UpReferencesValid(tables: map<string, Table>)
    requires Null !in UserIds(tables) && Null !in ChapterIds(tables)
    ensures forall r, c | r in Entity.TableOf(UpEffect(tables), IdentityTable) && IsUserColumn(c) ::
      Get(r, c) == Null || (Get(r, c) != Int(0) && Get(r, c) in UserIds(tables))
    ensures forall r | r in Entity.TableOf(UpEffect(tables), IdentityTable) ::
      Get(r, "chapter_id") == Null || (Get(r, "chapter_id") != Int(0) && Get(r, "chapter_id") in ChapterIds(tables))
  {
    UpEntities(tables);
    CleanedRowsValid(Entity.TableOf(tables, IdentityTable) + IdentityRowsOf(tables, LoopKinds)
      + IdentityRows(tables, Chapter) + IdentityRows(tables, Page), UserIds(tables), ChapterIds(tables));
  }

  // ---------------------------------------------------------------------------------------------
  // Each old row becomes one identity row and one payload row

  /** An identity row of kind `j` has `type` the name of `j`. */
  lemma IdentityRowType(j: Kind, x: Row)
    ensures Get(IdentityRow(j)(x), "type") == Str(TypeName(j))
  {
  }

  /** Identity rows of kind `j`, after a change that keeps `type`, are selected by kind `k` exactly when `j == k`. */
  lemma IdentityRowsOfOneKind(tables: map<string, Table>, j: Kind, k: Kind, h: Row -> Row)
    requires forall row :: Get(h(row), "type") == Get(row, "type")
    ensures Filter(Map(IdentityRows(tables, j), h), OfKind(k)) == if j == k then Map(IdentityRows(tables, j), h) else []
  {
    var s, m := SourceRows(tables, j), Map(IdentityRows(tables, j), h);
    forall i | 0 <= i < |m|
      ensures OfKind(k)(m[i]) == (j == k)
    {
      IdentityRowType(j, s[i]);
      if OfKind(k)(m[i]) {
        TypeNameInjective(j, k);
      }
    }
    if j == k {
      FilterAll(m, OfKind(k));
    } else {
      FilterNone(m, OfKind(k));
    }
  }

  /** The identity rows the migration copies, kind after kind. */
  function CopiedIdentityRows(tables: map<string, Table>): Table {
    IdentityRowsOf(tables, LoopKinds) + IdentityRows(tables, Chapter) + IdentityRows(tables, Page)
  }

  /**
   * Among the copied identity rows, passed through a change that keeps `type`, the rows of kind `k`
   * are those copied from that kind's old table, in their order.
   */
  lemma CopiedRowsOfKind(tables: map<string, Table>, k: Kind, h: Row -> Row)
    requires forall row :: Get(h(row), "type") == Get(row, "type")
    ensures Filter(Map(CopiedIdentityRows(tables), h), OfKind(k)) == Map(IdentityRows(tables, k), h)
  {
    var b, s, c, p := IdentityRows(tables, Book), IdentityRows(tables, Bookshelf), IdentityRows(tables, Chapter), IdentityRows(tables, Page);
    CopiedIdentityRowsSplit(tables);
    FilterMapOfFour(b, s, c, p, h, OfKind(k));
    var fb, fs := Filter(Map(b, h), OfKind(k)), Filter(Map(s, h), OfKind(k));
    var fc, fp := Filter(Map(c, h), OfKind(k)), Filter(Map(p, h), OfKind(k));
    IdentityRowsOfOneKind(tables, Book, k, h);
    IdentityRowsOfOneKind(tables, Bookshelf, k, h);
    IdentityRowsOfOneKind(tables, Chapter, k, h);
    IdentityRowsOfOneKind(tables, Page, k, h);
    match k
    case Book => OnlyFirst(fb, fs, fc, fp);
    case Bookshelf => OnlySecond(fb, fs, fc, fp);
    case Chapter => OnlyThird(fb, fs, fc, fp);
    case Page => OnlyFourth(fb, fs, fc, fp);
  }

  lemma OnlyFirst<T>(a: seq<T>, b: seq<T>, c: seq<T>, d: seq<T>)
    requires b == [] && c == [] && d == []
    ensures a + b + c + d == a
  {
  }

  lemma OnlySecond<T>(a: seq<T>, b: seq<T>, c: seq<T>, d: seq<T>)
    requires a == [] && c == [] && d == []
    ensures a + b + c + d == b
  {
  }

  lemma OnlyThird<T>(a: seq<T>, b: seq<T>, c: seq<T>, d: seq<T>)
    requires a == [] && b == [] && d == []
    ensures a + b + c + d == c
  {
  }

  lemma OnlyFourth<T>(a: seq<T>, b: seq<T>, c: seq<T>, d: seq<T>)
    requires a == [] && b == [] && c == []
    ensures a + b + c + d == d
  {
  }

  /** A filter after a map over four concatenated parts, part by part. */
  lemma FilterMapOfFour<T(!new)>(b: seq<T>, s: seq<T>, c: seq<T>, p: seq<T>, h: T -> T, q: T -> bool)
    ensures Filter(Map(b + s + c + p, h), q) == Filter(Map(b, h), q) + Filter(Map(s, h), q) + Filter(Map(c, h), q) + Filter(Map(p, h), q)
  {
    MapConcat(b + s + c, p, h);
    MapConcat(b + s, c, h);
    MapConcat(b, s, h);
    FilterConcat(Map(b, h) + Map(s, h) + Map(c, h), Map(p, h), q);
    FilterConcat(Map(b, h) + Map(s, h), Map(c, h), q);
    FilterConcat(Map(b, h), Map(s, h), q);
  }

  /** The copied identity rows are the books', the shelves', the chapters' and the pages', in that order. */
  lemma CopiedIdentityRowsSplit(tables: map<string, Table>)
    ensures CopiedIdentityRows(tables) ==
      IdentityRows(tables, Book) + IdentityRows(tables, Bookshelf) + IdentityRows(tables, Chapter) + IdentityRows(tables, Page)
  {
    var b, s := IdentityRows(tables, Book), IdentityRows(tables, Bookshelf);
    assert IdentityRowsOf(tables, LoopKinds) == IdentityRowsOf(tables, [Book, Bookshelf]);
    assert IdentityRowsOf(tables, [Book]) == [] + b;
    assert IdentityRowsOf(tables, [Book, Bookshelf]) == IdentityRowsOf(tables, [Book]) + s by {
      assert [Book, Bookshelf][..1] == [Book];
    }
    ConcatOfFour(b, s, IdentityRows(tables, Chapter), IdentityRows(tables, Page), IdentityRowsOf(tables, LoopKinds));
  }

  lemma ConcatOfFour(b: Table, s: Table, c: Table, p: Table, x: Table)
    requires x == [] + b + s
    ensures x + c + p == b + s + c + p
  {
  }

  /** The clean-up keeps every row's `type` and `id`. */
  lemma CleanRowKeepsKey(userIds: set<Value>, chapterIds: set<Value>)
    ensures forall row :: Get(CleanRow(userIds, chapterIds)(row), "type") == Get(row, "type")
    ensures forall row :: Get(CleanRow(userIds, chapterIds)(row), "id") == Get(row, "id")
  {
    forall row
      ensures Get(CleanRow(userIds, chapterIds)(row), "type") == Get(row, "type")
      ensures Get(CleanRow(userIds, chapterIds)(row), "id") == Get(row, "id")
    {
      CleanRowGet(row, userIds, chapterIds, "type");
      CleanRowGet(row, userIds, chapterIds, "id");
    }
  }

  /**
   * When `entities` held no row of kind `k`, after `up()` its rows of kind `k` are exactly one per old
   * row of that kind, in the old order, each the identity part of the old row after the clean-up.
   */
  lemma UpEntitiesOfKind(tables: map<string, Table>, k: Kind)
    requires forall r | r in Entity.TableOf(tables, IdentityTable) :: !OfKind(k)(r)
    ensures Filter(Entity.TableOf(UpEffect(tables), IdentityTable), OfKind(k)) ==
      Map(IdentityRows(tables, k), CleanRow(UserIds(tables), ChapterIds(tables)))
  {
    UpEntitiesCopied(tables);
    CleanRowKeepsKey(UserIds(tables), ChapterIds(tables));
    CleanedEntitiesOfKind(Entity.TableOf(tables, IdentityTable), CopiedIdentityRows(tables), tables, k,
      CleanRow(UserIds(tables), ChapterIds(tables)));
  }

  /** `UpEntities`, with the copied rows named. */
  lemma UpEntitiesCopied(tables: map<string, Table>)
    ensures Entity.TableOf(UpEffect(tables), IdentityTable) ==
      Map(Entity.TableOf(tables, IdentityTable) + CopiedIdentityRows(tables), CleanRow(UserIds(tables), ChapterIds(tables)))
  {
    UpEntities(tables);
    ConcatAssoc3(Entity.TableOf(tables, IdentityTable), IdentityRowsOf(tables, LoopKinds), IdentityRows(tables, Chapter),
      IdentityRows(tables, Page), CopiedIdentityRows(tables));
  }

  lemma ConcatAssoc3(e: Table, a: Table, b: Table, c: Table, x: Table)
    requires x == a + b + c
    ensures e + a + b + c == e + x
  {
  }

  /** The kind filter over old rows followed by copied rows, both passed through a change that keeps `type`. */
  lemma CleanedEntitiesOfKind(e: Table, copied: Table, tables: map<string, Table>, k: Kind, clean: Row -> Row)
    requires forall r | r in e :: !OfKind(k)(r)
    requires forall row :: Get(clean(row), "type") == Get(row, "type")
    requires copied == CopiedIdentityRows(tables)
    ensures Filter(Map(e + copied, clean), OfKind(k)) == Map(IdentityRows(tables, k), clean)
  {
    MapConcat(e, copied, clean);
    FilterConcat(Map(e, clean), Map(copied, clean), OfKind(k));
    forall i | 0 <= i < |e|
      ensures !OfKind(k)(Map(e, clean)[i])
    {
      assert !OfKind(k)(e[i]);
    }
    FilterNone(Map(e, clean), OfKind(k));
    CopiedRowsOfKind(tables, k, clean);
  }

  /** The payload rows of a kind related to an entity id, as the entity model loads them. */
  function RelatedTo(k: Kind, id: Value): Row -> bool {
    row => Entity.RelatedTo(k, id, row)
  }

  /** A payload row of kind `j` is related to an entity of kind `k` stored in the same table exactly when `j == k` and the ids agree. */
  lemma PayloadRowRelated(j: Kind, k: Kind, y: Row, id: Value)
    requires IsContainer(j) == IsContainer(k)
    ensures RelatedTo(k, id)(PayloadRow(j)(y)) == (j == k && SqlEquals(Get(y, "id"), id))
  {
    if RelatedTo(k, id)(PayloadRow(j)(y)) && j != Page {
      TypeNameInjective(j, k);
    }
  }

  /** Among the payload rows of kind `j`, an old row `x` of kind `k` in the same table finds only its own. */
  lemma PayloadRowsOfOneKind(s: Table, j: Kind, k: Kind, x: Row)
    requires IsContainer(j) == IsContainer(k)
    requires j == k ==> PrimaryKeyed(s) && x in s
    ensures Filter(Map(s, PayloadRow(j)), RelatedTo(k, Get(x, "id"))) == if j == k then [PayloadRow(j)(x)] else []
  {
    var m, id := Map(s, PayloadRow(j)), Get(x, "id");
    forall i | 0 <= i < |m|
      ensures RelatedTo(k, id)(m[i]) == (j == k && SqlEquals(Get(s[i], "id"), id))
    {
      PayloadRowRelated(j, k, s[i], id);
    }
    if j == k {
      var i :| 0 <= i < |s| && s[i] == x;
      FilterSingle(m, RelatedTo(k, id), i);
    } else {
      FilterNone(m, RelatedTo(k, id));
    }
  }

  /** The payload rows the migration copies into the table that holds kind `k`'s payloads. */
  function CopiedPayloads(tables: map<string, Table>, k: Kind): Table {
    if k == Page then PayloadRows(tables, Page)
    else PayloadRows(tables, Bookshelf) + PayloadRows(tables, Book) + PayloadRows(tables, Chapter)
  }

  /**
   * Among the copied payloads, an old row's id finds exactly the payload made of that row: a book
   * and a chapter sharing an id do not share a payload.
   */
  lemma CopiedPayloadOfRow(tables: map<string, Table>, k: Kind, x: Row)
    requires PrimaryKeyed(SourceRows(tables, k)) && x in SourceRows(tables, k)
    ensures Filter(CopiedPayloads(tables, k), RelatedTo(k, Get(x, "id"))) == [PayloadRow(k)(x)]
  {
    var id := Get(x, "id");
    if k == Page {
      PayloadRowsOfOneKind(SourceRows(tables, Page), Page, k, x);
    } else {
      ContainerPayloadOfRow(tables, k, x);
    }
  }

  /** The container case of `CopiedPayloadOfRow`: the shelf, book and chapter payloads share a table. */
  lemma ContainerPayloadOfRow(tables: map<string, Table>, k: Kind, x: Row)
    requires k != Page
    requires PrimaryKeyed(SourceRows(tables, k)) && x in SourceRows(tables, k)
    ensures Filter(CopiedPayloads(tables, k), RelatedTo(k, Get(x, "id"))) == [PayloadRow(k)(x)]
  {
    var p := RelatedTo(k, Get(x, "id"));
    var s, b, c := PayloadRows(tables, Bookshelf), PayloadRows(tables, Book), PayloadRows(tables, Chapter);
    FilterConcat(s + b, c, p);
    FilterConcat(s, b, p);
    PayloadRowsOfOneKind(SourceRows(tables, Bookshelf), Bookshelf, k, x);
    PayloadRowsOfOneKind(SourceRows(tables, Book), Book, k, x);
    PayloadRowsOfOneKind(SourceRows(tables, Chapter), Chapter, k, x);
    OneOfThree(Filter(s, p), Filter(b, p), Filter(c, p), [PayloadRow(k)(x)]);
  }

  lemma OneOfThree<T>(a: seq<T>, b: seq<T>, c: seq<T>, y: seq<T>)
    requires (a == y && b == [] && c == []) || (a == [] && b == y && c == []) || (a == [] && b == [] && c == y)
    ensures a + b + c == y
  {
  }

  /** When the payload tables started empty, after `up()` each holds the copied payloads. */
  lemma UpPayloadTable(tables: map<string, Table>, k: Kind)
    requires Entity.TableOf(tables, ContainerTable) == [] && Entity.TableOf(tables, PageDataTable) == []
    ensures Entity.TableOf(UpEffect(tables), Entity.PayloadTable(k)) == CopiedPayloads(tables, k)
  {
    if k == Page {
      UpPageData(tables);
    } else {
      UpContainers(tables);
    }
  }

  /** `relatedData()` over rows holding a single related payload loads that payload as stored. */
  lemma LoadsTheRelatedRow(k: Kind, id: Value, rows: Table, y: Row)
    requires Filter(rows, RelatedTo(k, id)) == [y]
    ensures Entity.LoadPayload(k, id, rows) == Entity.Loaded(y, y, true)
  {
    assert y in rows && RelatedTo(k, id)(y);
    var i :| 0 <= i < |rows| && rows[i] == y;
    assert Entity.RelatedTo(k, id, rows[i]);
  }

  /**
   * After `up()` the entity model's `relatedData()` lookup for an old row's id finds the payload that
   * row was split into.
   */
  lemma UpPayloadLoads(tables: map<string, Table>, k: Kind, x: Row)
    requires Entity.TableOf(tables, ContainerTable) == [] && Entity.TableOf(tables, PageDataTable) == []
    requires PrimaryKeyed(SourceRows(tables, k)) && x in SourceRows(tables, k)
    ensures var y := PayloadRow(k)(x);
      Entity.LoadPayload(k, Get(x, "id"), Entity.TableOf(UpEffect(tables), Entity.PayloadTable(k))) == Entity.Loaded(y, y, true)
  {
    UpPayloadTable(tables, k);
    CopiedPayloadOfRow(tables, k, x);
    LoadsTheRelatedRow(k, Get(x, "id"), CopiedPayloads(tables, k), PayloadRow(k)(x));
  }

  /** A payload row carries its old row's payload columns unchanged. */
  lemma PayloadRowKeeps(k: Kind, x: Row)
    ensures forall c | c in PayloadColumns(k) :: Get(PayloadRow(k)(x), c) == Get(x, c)
  {
    EntityPageData.FieldsAreColumns();
  }
}
