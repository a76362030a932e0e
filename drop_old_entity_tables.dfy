/**
 * The schema migration that drops the four old per-kind tables once their rows live in `entities`
 * and the two payload tables. Its `down()` recreates them empty, turns NULL references in
 * `entities` back into 0 and refills each old table from `entities` left-joined with the table
 * holding that kind's payload. Column types, indexes and the transaction are not modelled.
 */
module DropOldEntityTables {
  import opened Seqs
  import opened Php
  import opened Tables
  import opened EntityKinds
  import Entity
  import MigrateEntityData

  const ContainerTable := MigrateEntityData.ContainerTable
  const PageDataTable := MigrateEntityData.PageDataTable

  function OldTable(k: Kind): string {
    MigrateEntityData.SourceTable(k)
  }

  // ---------------------------------------------------------------------------------------------
  // up()

  /** `up()`: the old tables are dropped, pages first. */
  function UpEffect(tables: map<string, Table>): map<string, Table> {
    tables - {"pages", "chapters", "books", "bookshelves"}
  }

  method Up(db: Database)
    modifies db
    ensures db.tables == UpEffect(old(db.tables))
  {
    db.DropIfExists("pages");
    db.DropIfExists("chapters");
    db.DropIfExists("books");
    db.DropIfExists("bookshelves");
  }

  /** After `up()` no old table exists, and every other table is as it was. */
  lemma UpDropsOnlyOldTables(tables: map<string, Table>)
    ensures forall k :: OldTable(k) !in UpEffect(tables)
    ensures forall name | name !in {"pages", "chapters", "books", "bookshelves"} ::
      (name in UpEffect(tables) <==> name in tables) && Entity.TableOf(UpEffect(tables), name) == Entity.TableOf(tables, name)
  {
  }

  // ---------------------------------------------------------------------------------------------
  // down(): NULL references back to 0

  /** The statements that turn NULL references back into 0, in order. */
  const RevertUpdates: seq<Update> := [
    Update(Where("created_by", Null), "created_by", Int(0)),
    Update(Where("updated_by", Null), "updated_by", Int(0)),
    Update(Where("owned_by", Null), "owned_by", Int(0)),
    Update(Where("chapter_id", Null), "chapter_id", Int(0))
  ]

  /** The four NULL-to-zero updates of the identity table. */
  function NullsReverted(t: Table): Table {
    var t1 := SetWhere(t, Where("created_by", Null), "created_by", Int(0));
    var t2 := SetWhere(t1, Where("updated_by", Null), "updated_by", Int(0));
    var t3 := SetWhere(t2, Where("owned_by", Null), "owned_by", Int(0));
    SetWhere(t3, Where("chapter_id", Null), "chapter_id", Int(0))
  }

  function WithNullsReverted(tables: map<string, Table>): map<string, Table> {
    tables[IdentityTable := NullsReverted(Entity.TableOf(tables, IdentityTable))]
  }

  /** The four NULL-to-zero updates, applied to one identity row. */
  function RevertRow(): Row -> Row {
    RowUpdates(RevertUpdates)
  }

  /** What the NULL-to-zero updates leave in a reference. */
  function RevertedValue(v: Value): Value {
    if v == Null then Int(0) else v
  }

  lemma RevertStepGet(row: Row, column: string, c: string)
    ensures Get(SetIf(Where(column, Null), column, Int(0))(row), c) ==
      if c == column then RevertedValue(Get(row, c)) else Get(row, c)
  {
    SetIfGet(Where(column, Null), column, Int(0), row, c);
  }

  /** The NULL-to-zero updates turn a NULL reference into 0 and change nothing else. */
  lemma RevertRowGet(row: Row, c: string)
    ensures Get(RevertRow()(row), c) ==
      if MigrateEntityData.IsReference(c) then RevertedValue(Get(row, c)) else Get(row, c)
  {
    RunFour(RevertUpdates, row);
    var r1 := SetIf(Where("created_by", Null), "created_by", Int(0))(row);
    var r2 := SetIf(Where("updated_by", Null), "updated_by", Int(0))(r1);
    var r3 := SetIf(Where("owned_by", Null), "owned_by", Int(0))(r2);
    RevertStepGet(row, "created_by", c);
    RevertStepGet(r1, "updated_by", c);
    RevertStepGet(r2, "owned_by", c);
    RevertStepGet(r3, "chapter_id", c);
  }

  /** The four table updates are the row change mapped over the table. */
  lemma NullsRevertedIsMap(t: Table)
    ensures NullsReverted(t) == Map(t, RevertRow())
  {
    FourUpdatesAreMap(t, RevertUpdates);
  }

  /**
   * A reference through `up()`'s clean-up and back through `down()`: NULL and a dangling id come back
   * as 0; anything else, 0 included, comes back as it was.
   */
  lemma ReferenceRoundTrip(v: Value, ids: set<Value>)
    requires Null !in ids
    ensures RevertedValue(MigrateEntityData.CleanedValue(v, ids)) == if v == Null || v !in ids then Int(0) else v
  {
  }

  /** A reference that survives the round trip: 0, or an id that exists. */
  predicate Restorable(v: Value, ids: set<Value>) {
    v == Int(0) || (v != Null && v in ids)
  }

  lemma RestorableRoundTrip(v: Value, ids: set<Value>)
    requires Restorable(v, ids)
    ensures RevertedValue(MigrateEntityData.CleanedValue(v, ids)) == v
  {
  }

  // ---------------------------------------------------------------------------------------------
  // down(): refilling the old tables

  /** The columns each old table is refilled with. */
  function RestoredColumns(k: Kind): seq<string> {
    match k
    case Page => [
      "id", "book_id", "chapter_id", "name", "slug", "html", "text", "priority", "created_at", "updated_at",
      "created_by", "updated_by", "draft", "markdown", "revision_count", "template", "deleted_at", "owned_by", "editor"
    ]
    case Chapter => [
      "id", "book_id", "slug", "name", "description", "priority", "created_at", "updated_at", "created_by", "updated_by",
      "deleted_at", "owned_by", "description_html", "default_template_id"
    ]
    case Book => [
      "id", "name", "slug", "description", "created_at", "updated_at", "created_by", "updated_by", "image_id",
      "deleted_at", "owned_by", "default_template_id", "description_html", "sort_rule_id"
    ]
    case Bookshelf => [
      "id", "name", "slug", "description", "created_by", "updated_by", "image_id", "created_at", "updated_at",
      "deleted_at", "owned_by", "description_html"
    ]
  }

  /**
   * The join of an identity row with its payload: a page's by `page_id`; a container's by
   * `entity_id` and `entity_type` together.
   */
  function JoinOn(k: Kind): (Row, Row) -> bool {
    if k == Page then (l: Row, x: Row) => SqlEquals(Get(l, "id"), Get(x, "page_id"))
    else (l: Row, x: Row) => SqlEquals(Get(l, "id"), Get(x, "entity_id")) && SqlEquals(Get(l, "type"), Get(x, "entity_type"))
  }

  /** The rows the refill of kind `k` selects: the left join, restricted to the kind, cut to the columns. */
  function Restored(tables: map<string, Table>, k: Kind): Table {
    var joined := LeftJoin(Entity.TableOf(tables, IdentityTable), Entity.TableOf(tables, Entity.PayloadTable(k)), JoinOn(k));
    Map(Filter(joined, MigrateEntityData.OfKind(k)), Select(RestoredColumns(k)))
  }

  /** The refill of one old table: the selected rows appended. */
  function WithRestored(tables: map<string, Table>, k: Kind): map<string, Table> {
    tables[OldTable(k) := Entity.TableOf(tables, OldTable(k)) + Restored(tables, k)]
  }

  /** The old tables, created empty. */
  function Created(tables: map<string, Table>): map<string, Table> {
    tables["pages" := []]["chapters" := []]["books" := []]["bookshelves" := []]
  }

  /** The data changes of `down()`. */
  function DownEffect(tables: map<string, Table>): map<string, Table> {
    var reverted := WithNullsReverted(Created(tables));
    WithRestored(WithRestored(WithRestored(WithRestored(reverted, Page), Chapter), Book), Bookshelf)
  }

  method CreateOldTables(db: Database)
    modifies db
    ensures db.tables == Created(old(db.tables))
  {
    db.Create("pages");
    db.Create("chapters");
    db.Create("books");
    db.Create("bookshelves");
  }

  method RevertNulls(db: Database)
    modifies db
    ensures db.tables == WithNullsReverted(old(db.tables))
  {
    db.SetWhereIn(IdentityTable, Where("created_by", Null), "created_by", Int(0));
    db.SetWhereIn(IdentityTable, Where("updated_by", Null), "updated_by", Int(0));
    db.SetWhereIn(IdentityTable, Where("owned_by", Null), "owned_by", Int(0));
    db.SetWhereIn(IdentityTable, Where("chapter_id", Null), "chapter_id", Int(0));
  }

  /**
   * One refill of `down()`: `INSERT INTO <old table> SELECT ...` over `entities` left-joined to the
   * kind's payload table, rows of that kind only, in the order of `entities`.
   */
  method RestoreTable(db: Database, k: Kind)
    modifies db
    ensures db.tables == WithRestored(old(db.tables), k)
  {
    var joined := LeftJoin(db.Rows(IdentityTable), db.Rows(Entity.PayloadTable(k)), JoinOn(k));
    db.InsertUsing(OldTable(k), Map(Filter(joined, MigrateEntityData.OfKind(k)), Select(RestoredColumns(k))));
  }

  /** `down()`. */
  method Down(db: Database)
    modifies db
    ensures db.tables == DownEffect(old(db.tables))
  {
    CreateOldTables(db);
    RevertNulls(db);
    RestoreTable(db, Page);
    RestoreTable(db, Chapter);
    RestoreTable(db, Book);
    RestoreTable(db, Bookshelf);
  }

  // ---------------------------------------------------------------------------------------------
  // Splitting and rolling back: one old row

  /** The references of an old row that survive the round trip. */
  predicate RestorableRow(k: Kind, x: Row, userIds: set<Value>, chapterIds: set<Value>) {
    Restorable(Get(x, "created_by"), userIds) && Restorable(Get(x, "updated_by"), userIds) &&
    Restorable(Get(x, "owned_by"), userIds) && (k == Page ==> Restorable(Get(x, "chapter_id"), chapterIds))
  }

  /** Every restored column was copied across by `up()`, into the identity row or the payload row. */
  lemma RestoredColumnSource(k: Kind, c: string)
    requires c in RestoredColumns(k)
    ensures c != "type" && c != "page_id" && c != "entity_id" && c != "entity_type"
    ensures c in MigrateEntityData.PayloadColumns(k) || c in MigrateEntityData.IdentityColumns(k)
    ensures c == "chapter_id" ==> k == Page
  {
    match k
    case Page => PageColumnSource(c);
    case Chapter => ChapterColumnSource(c);
    case Book => BookColumnSource(c);
    case Bookshelf => ShelfColumnSource(c);
  }

  lemma PageColumnSource(c: string)
    requires c in RestoredColumns(Page)
    ensures c != "type" && c != "page_id" && c != "entity_id" && c != "entity_type"
    ensures c in MigrateEntityData.PayloadColumns(Page) || c in MigrateEntityData.IdentityColumns(Page)
  {
  }

  lemma ChapterColumnSource(c: string)
    requires c in RestoredColumns(Chapter)
    ensures c != "type" && c != "page_id" && c != "entity_id" && c != "entity_type" && c != "chapter_id"
    ensures c in MigrateEntityData.PayloadColumns(Chapter) || c in MigrateEntityData.IdentityColumns(Chapter)
  {
  }

  lemma BookColumnSource(c: string)
    requires c in RestoredColumns(Book)
    ensures c != "type" && c != "page_id" && c != "entity_id" && c != "entity_type" && c != "chapter_id"
    ensures c in MigrateEntityData.PayloadColumns(Book) || c in MigrateEntityData.IdentityColumns(Book)
  {
  }

  lemma ShelfColumnSource(c: string)
    requires c in RestoredColumns(Bookshelf)
    ensures c != "type" && c != "page_id" && c != "entity_id" && c != "entity_type" && c != "chapter_id"
    ensures c in MigrateEntityData.PayloadColumns(Bookshelf) || c in MigrateEntityData.IdentityColumns(Bookshelf)
  {
  }

  /** A payload row holds its kind's payload columns, read from the old row, and its foreign key. */
  lemma PayloadRowGet(k: Kind, x: Row, c: string)
    requires c != "page_id" && c != "entity_id" && c != "entity_type"
    ensures c in MigrateEntityData.PayloadRow(k)(x) <==> c in MigrateEntityData.PayloadColumns(k)
    ensures c in MigrateEntityData.PayloadColumns(k) ==> MigrateEntityData.PayloadRow(k)(x)[c] == Get(x, c)
  {
  }

  /** An identity row holds its kind's identity columns, read from the old row. */
  lemma IdentityRowGet(k: Kind, x: Row, c: string)
    requires c in MigrateEntityData.IdentityColumns(k)
    ensures Get(MigrateEntityData.IdentityRow(k)(x), c) == Get(x, c)
  {
  }

  /** An old row's identity part through the clean-up of `up()` and the NULL-to-zero updates of `down()`. */
  function BackAgain(k: Kind, userIds: set<Value>, chapterIds: set<Value>): Row -> Row {
    row => RevertRow()(MigrateEntityData.CleanRow(userIds, chapterIds)(MigrateEntityData.IdentityRow(k)(row)))
  }

  /** One restored column of an old row after the round trip. */
  lemma RoundTripColumn(k: Kind, x: Row, userIds: set<Value>, chapterIds: set<Value>, c: string)
    requires c in RestoredColumns(k)
    requires RestorableRow(k, x, userIds, chapterIds)
    ensures Get(BackAgain(k, userIds, chapterIds)(x) + MigrateEntityData.PayloadRow(k)(x), c) == Get(x, c)
  {
    RestoredColumnSource(k, c);
    PayloadRowGet(k, x, c);
    GetMerge(BackAgain(k, userIds, chapterIds)(x), MigrateEntityData.PayloadRow(k)(x), c);
    if c !in MigrateEntityData.PayloadColumns(k) {
      IdentityColumnBack(k, x, userIds, chapterIds, c);
    }
  }

  /** An identity column other than a reference comes back unchanged; a restorable reference too. */
  lemma IdentityColumnBack(k: Kind, x: Row, userIds: set<Value>, chapterIds: set<Value>, c: string)
    requires c in MigrateEntityData.IdentityColumns(k)
    requires c == "chapter_id" ==> k == Page
    requires RestorableRow(k, x, userIds, chapterIds)
    ensures Get(BackAgain(k, userIds, chapterIds)(x), c) == Get(x, c)
  {
    var id := MigrateEntityData.IdentityRow(k)(x);
    var cleaned := MigrateEntityData.CleanRow(userIds, chapterIds)(id);
    IdentityRowGet(k, x, c);
    MigrateEntityData.CleanRowGet(id, userIds, chapterIds, c);
    RevertRowGet(cleaned, c);
    if MigrateEntityData.IsUserColumn(c) {
      RestorableRoundTrip(Get(x, c), userIds);
    } else if c == "chapter_id" {
      RestorableRoundTrip(Get(x, c), chapterIds);
    }
  }

  /**
   * An old row through the round trip: its identity part cleaned and reverted, merged with its
   * payload and cut to the restored columns, is the old row cut to those columns.
   */
  lemma RoundTripRow(k: Kind, x: Row, userIds: set<Value>, chapterIds: set<Value>)
    requires RestorableRow(k, x, userIds, chapterIds)
    ensures Project(BackAgain(k, userIds, chapterIds)(x) + MigrateEntityData.PayloadRow(k)(x), RestoredColumns(k))
      == Project(x, RestoredColumns(k))
  {
    var merged := BackAgain(k, userIds, chapterIds)(x) + MigrateEntityData.PayloadRow(k)(x);
    forall c | c in RestoredColumns(k)
      ensures Get(merged, c) == Get(x, c)
    {
      RoundTripColumn(k, x, userIds, chapterIds, c);
    }
    ProjectAgrees(merged, x, RestoredColumns(k));
  }

  // ---------------------------------------------------------------------------------------------
  // Splitting and rolling back: whole tables

  /** A refill's select reads only `entities` and the table holding the kind's payloads. */
  lemma RestoredReads(a: map<string, Table>, b: map<string, Table>, k: Kind)
    requires Entity.TableOf(a, IdentityTable) == Entity.TableOf(b, IdentityTable)
    requires Entity.TableOf(a, Entity.PayloadTable(k)) == Entity.TableOf(b, Entity.PayloadTable(k))
    ensures Restored(a, k) == Restored(b, k)
  {
  }

  /** A refill writes only its own old table. */
  lemma RefillKeeps(t: map<string, Table>, j: Kind, k: Kind)
    requires j != k
    ensures Entity.TableOf(WithRestored(t, j), OldTable(k)) == Entity.TableOf(t, OldTable(k))
    ensures Restored(WithRestored(t, j), k) == Restored(t, k)
  {
    MigrateEntityData.SourceApart(j);
    var t1 := WithRestored(t, j);
    assert Entity.TableOf(t1, IdentityTable) == Entity.TableOf(t, IdentityTable);
    assert Entity.TableOf(t1, Entity.PayloadTable(k)) == Entity.TableOf(t, Entity.PayloadTable(k));
    RestoredReads(t1, t, k);
  }

  /** After the creates and the NULL-to-zero updates, each old table is empty. */
  lemma CreatedEmpty(tables: map<string, Table>, k: Kind)
    ensures Entity.TableOf(WithNullsReverted(Created(tables)), OldTable(k)) == []
  {
    MigrateEntityData.SourceApart(k);
  }

  /** `down()` fills each old table with exactly the rows its select reads after the NULL-to-zero updates. */
  lemma DownRefills(tables: map<string, Table>, k: Kind)
    ensures Entity.TableOf(DownEffect(tables), OldTable(k)) == Restored(WithNullsReverted(Created(tables)), k)
  {
    var t0 := WithNullsReverted(Created(tables));
    var t1 := WithRestored(t0, Page);
    var t2 := WithRestored(t1, Chapter);
    var t3 := WithRestored(t2, Book);
    CreatedEmpty(tables, k);
    match k
    case Page =>
      RefillKeeps(t1, Chapter, k);
      RefillKeeps(t2, Book, k);
      RefillKeeps(t3, Bookshelf, k);
    case Chapter =>
      RefillKeeps(t0, Page, k);
      RefillKeeps(t2, Book, k);
      RefillKeeps(t3, Bookshelf, k);
    case Book =>
      RefillKeeps(t0, Page, k);
      RefillKeeps(t1, Chapter, k);
      RefillKeeps(t3, Bookshelf, k);
    case Bookshelf =>
      RefillKeeps(t0, Page, k);
      RefillKeeps(t1, Chapter, k);
      RefillKeeps(t2, Book, k);
  }

  /** After the drops, the creates and the NULL-to-zero updates, `entities` is reverted and the payload tables unchanged. */
  lemma RevertedAfterDrop(t1: map<string, Table>, k: Kind)
    ensures Entity.TableOf(WithNullsReverted(Created(UpEffect(t1))), IdentityTable) == Map(Entity.TableOf(t1, IdentityTable), RevertRow())
    ensures Entity.TableOf(WithNullsReverted(Created(UpEffect(t1))), Entity.PayloadTable(k)) == Entity.TableOf(t1, Entity.PayloadTable(k))
  {
    MigrateEntityData.NamesApart();
    UpDropsOnlyOldTables(t1);
    NullsRevertedIsMap(Entity.TableOf(t1, IdentityTable));
  }

  /** The NULL-to-zero updates keep `type`. */
  lemma RevertKeepsType()
    ensures forall row :: Get(RevertRow()(row), "type") == Get(row, "type")
  {
    forall row
      ensures Get(RevertRow()(row), "type") == Get(row, "type")
    {
      RevertRowGet(row, "type");
    }
  }

  /** The rows of kind `k` in the reverted `entities` are the old rows of kind `k`, brought back, in order. */
  lemma RevertedKindRows(tables: map<string, Table>, e1: Table, k: Kind)
    requires Filter(e1, MigrateEntityData.OfKind(k)) ==
      Map(MigrateEntityData.IdentityRows(tables, k), MigrateEntityData.CleanRow(MigrateEntityData.UserIds(tables), MigrateEntityData.ChapterIds(tables)))
    ensures Filter(Map(e1, RevertRow()), MigrateEntityData.OfKind(k)) ==
      Map(MigrateEntityData.SourceRows(tables, k), BackAgain(k, MigrateEntityData.UserIds(tables), MigrateEntityData.ChapterIds(tables)))
  {
    RevertKeepsType();
    FilterMap(e1, RevertRow(), MigrateEntityData.OfKind(k));
    MapMapMap(MigrateEntityData.SourceRows(tables, k), MigrateEntityData.IdentityRow(k),
      MigrateEntityData.CleanRow(MigrateEntityData.UserIds(tables), MigrateEntityData.ChapterIds(tables)), RevertRow(),
      BackAgain(k, MigrateEntityData.UserIds(tables), MigrateEntityData.ChapterIds(tables)));
  }

  /** No payload row has a `type` column. */
  lemma PayloadRowsHaveNoType(tables: map<string, Table>, j: Kind)
    ensures forall y | y in MigrateEntityData.PayloadRows(tables, j) :: "type" !in y
  {
    var s := MigrateEntityData.SourceRows(tables, j);
    forall i | 0 <= i < |s|
      ensures "type" !in MigrateEntityData.PayloadRows(tables, j)[i]
    {
      PayloadRowGet(j, s[i], "type");
    }
  }

  /** So the refill's `where type = ...` reads the identity row's `type`. */
  lemma CopiedPayloadsHaveNoType(tables: map<string, Table>, k: Kind)
    ensures forall y | y in MigrateEntityData.CopiedPayloads(tables, k) :: "type" !in y
  {
    PayloadRowsHaveNoType(tables, Page);
    PayloadRowsHaveNoType(tables, Bookshelf);
    PayloadRowsHaveNoType(tables, Book);
    PayloadRowsHaveNoType(tables, Chapter);
  }

  /** A column other than a reference comes back from the clean-up and the NULL-to-zero updates as the identity row held it. */
  lemma BackAgainKeeps(k: Kind, x: Row, userIds: set<Value>, chapterIds: set<Value>, c: string)
    requires !MigrateEntityData.IsReference(c)
    ensures Get(BackAgain(k, userIds, chapterIds)(x), c) == Get(MigrateEntityData.IdentityRow(k)(x), c)
  {
    var id := MigrateEntityData.IdentityRow(k)(x);
    MigrateEntityData.CleanRowGet(id, userIds, chapterIds, c);
    RevertRowGet(MigrateEntityData.CleanRow(userIds, chapterIds)(id), c);
  }

  /** An old row brought back keeps its id and carries its kind's `type`. */
  lemma BackAgainKey(k: Kind, x: Row, userIds: set<Value>, chapterIds: set<Value>)
    ensures Get(BackAgain(k, userIds, chapterIds)(x), "id") == Get(x, "id")
    ensures Get(BackAgain(k, userIds, chapterIds)(x), "type") == Str(TypeName(k))
  {
    BackAgainId(k, x, userIds, chapterIds);
    BackAgainType(k, x, userIds, chapterIds);
  }

  lemma BackAgainType(k: Kind, x: Row, userIds: set<Value>, chapterIds: set<Value>)
    ensures Get(BackAgain(k, userIds, chapterIds)(x), "type") == Str(TypeName(k))
  {
    BackAgainKeeps(k, x, userIds, chapterIds, "type");
    MigrateEntityData.IdentityRowType(k, x);
  }

  lemma BackAgainId(k: Kind, x: Row, userIds: set<Value>, chapterIds: set<Value>)
    ensures Get(BackAgain(k, userIds, chapterIds)(x), "id") == Get(x, "id")
  {
    BackAgainKeeps(k, x, userIds, chapterIds, "id");
    assert "id" == MigrateEntityData.IdentityColumns(k)[0];
    IdentityRowGet(k, x, "id");
  }

  /** The refill's join condition, for an identity row of kind `k`, is the entity model's payload relation. */
  lemma JoinOnIsRelated(k: Kind, l: Row, y: Row)
    requires Get(l, "type") == Str(TypeName(k))
    ensures JoinOn(k)(l, y) == MigrateEntityData.RelatedTo(k, Get(l, "id"))(y)
  {
  }

  /** An old row, brought back, joins exactly the payload made of it. */
  lemma JoinsOwnPayload(tables: map<string, Table>, k: Kind, x: Row)
    requires MigrateEntityData.PrimaryKeyed(MigrateEntityData.SourceRows(tables, k)) && x in MigrateEntityData.SourceRows(tables, k)
    ensures Matching(BackAgain(k, MigrateEntityData.UserIds(tables), MigrateEntityData.ChapterIds(tables))(x),
      MigrateEntityData.CopiedPayloads(tables, k), JoinOn(k)) == [MigrateEntityData.PayloadRow(k)(x)]
  {
    var l := BackAgain(k, MigrateEntityData.UserIds(tables), MigrateEntityData.ChapterIds(tables))(x);
    var payloads := MigrateEntityData.CopiedPayloads(tables, k);
    BackAgainKey(k, x, MigrateEntityData.UserIds(tables), MigrateEntityData.ChapterIds(tables));
    forall y | y in payloads
      ensures JoinOn(k)(l, y) == MigrateEntityData.RelatedTo(k, Get(x, "id"))(y)
    {
      JoinOnIsRelated(k, l, y);
    }
    MatchingIsFilter(l, payloads, JoinOn(k), MigrateEntityData.RelatedTo(k, Get(x, "id")));
    MigrateEntityData.CopiedPayloadOfRow(tables, k, x);
  }

  /** Each old row, brought back, is merged with its own payload, in the old order. */
  lemma JoinedKindRows(tables: map<string, Table>, k: Kind)
    requires MigrateEntityData.PrimaryKeyed(MigrateEntityData.SourceRows(tables, k))
    ensures var back := BackAgain(k, MigrateEntityData.UserIds(tables), MigrateEntityData.ChapterIds(tables));
      LeftJoin(Map(MigrateEntityData.SourceRows(tables, k), back), MigrateEntityData.CopiedPayloads(tables, k), JoinOn(k)) ==
      Map(MigrateEntityData.SourceRows(tables, k), MergeWith(back, MigrateEntityData.PayloadRow(k)))
  {
    var back := BackAgain(k, MigrateEntityData.UserIds(tables), MigrateEntityData.ChapterIds(tables));
    forall x | x in MigrateEntityData.SourceRows(tables, k)
      ensures Matching(back(x), MigrateEntityData.CopiedPayloads(tables, k), JoinOn(k)) == [MigrateEntityData.PayloadRow(k)(x)]
    {
      JoinsOwnPayload(tables, k, x);
    }
    LeftJoinExactlyOne(MigrateEntityData.SourceRows(tables, k), back, MigrateEntityData.PayloadRow(k),
      MigrateEntityData.CopiedPayloads(tables, k), JoinOn(k));
  }

  /** Cut to the restored columns, the merged rows are the old rows cut to those columns. */
  lemma SelectedKindRows(s: Table, k: Kind, userIds: set<Value>, chapterIds: set<Value>)
    requires forall x | x in s :: RestorableRow(k, x, userIds, chapterIds)
    ensures Map(Map(s, MergeWith(BackAgain(k, userIds, chapterIds), MigrateEntityData.PayloadRow(k))), Select(RestoredColumns(k)))
      == Map(s, Select(RestoredColumns(k)))
  {
    var merged := Map(s, MergeWith(BackAgain(k, userIds, chapterIds), MigrateEntityData.PayloadRow(k)));
    forall i | 0 <= i < |s|
      ensures Select(RestoredColumns(k))(merged[i]) == Select(RestoredColumns(k))(s[i])
    {
      assert s[i] in s;
      RoundTripRow(k, s[i], userIds, chapterIds);
    }
  }

  /**
   * The rows the refill of kind `k` selects after both `up()`s, the drops, the creates and the
   * NULL-to-zero updates, in terms of the `entities` table `up()` left.
   */
  lemma RollBackReads(tables: map<string, Table>, k: Kind)
    requires Entity.TableOf(tables, ContainerTable) == [] && Entity.TableOf(tables, PageDataTable) == []
    ensures var e1 := Entity.TableOf(MigrateEntityData.UpEffect(tables), IdentityTable);
      Entity.TableOf(DownEffect(UpEffect(MigrateEntityData.UpEffect(tables))), OldTable(k)) ==
      Map(Filter(LeftJoin(Map(e1, RevertRow()), MigrateEntityData.CopiedPayloads(tables, k), JoinOn(k)), MigrateEntityData.OfKind(k)),
        Select(RestoredColumns(k)))
  {
    var t1 := MigrateEntityData.UpEffect(tables);
    DownRefills(UpEffect(t1), k);
    RevertedAfterDrop(t1, k);
    MigrateEntityData.UpPayloadTable(tables, k);
  }

  /** The reverted identity rows of kind `k`, joined, are the old rows brought back, each joined. */
  lemma RollBackJoin(tables: map<string, Table>, e1: Table, k: Kind)
    requires Filter(e1, MigrateEntityData.OfKind(k)) ==
      Map(MigrateEntityData.IdentityRows(tables, k), MigrateEntityData.CleanRow(MigrateEntityData.UserIds(tables), MigrateEntityData.ChapterIds(tables)))
    ensures Filter(LeftJoin(Map(e1, RevertRow()), MigrateEntityData.CopiedPayloads(tables, k), JoinOn(k)), MigrateEntityData.OfKind(k)) ==
      LeftJoin(Map(MigrateEntityData.SourceRows(tables, k), BackAgain(k, MigrateEntityData.UserIds(tables), MigrateEntityData.ChapterIds(tables))),
        MigrateEntityData.CopiedPayloads(tables, k), JoinOn(k))
  {
    CopiedPayloadsHaveNoType(tables, k);
    FilterLeftJoin(Map(e1, RevertRow()), MigrateEntityData.CopiedPayloads(tables, k), JoinOn(k), "type", Str(TypeName(k)));
    RevertedKindRows(tables, e1, k);
  }

  /** The refill's select over the reverted identity rows of kind `k`, each joining its own payload. */
  lemma RollBackRows(tables: map<string, Table>, e1: Table, k: Kind)
    requires Filter(e1, MigrateEntityData.OfKind(k)) ==
      Map(MigrateEntityData.IdentityRows(tables, k), MigrateEntityData.CleanRow(MigrateEntityData.UserIds(tables), MigrateEntityData.ChapterIds(tables)))
    requires MigrateEntityData.PrimaryKeyed(MigrateEntityData.SourceRows(tables, k))
    requires forall x | x in MigrateEntityData.SourceRows(tables, k) ::
      RestorableRow(k, x, MigrateEntityData.UserIds(tables), MigrateEntityData.ChapterIds(tables))
    ensures Map(Filter(LeftJoin(Map(e1, RevertRow()), MigrateEntityData.CopiedPayloads(tables, k), JoinOn(k)), MigrateEntityData.OfKind(k)),
        Select(RestoredColumns(k))) == Map(MigrateEntityData.SourceRows(tables, k), Select(RestoredColumns(k)))
  {
    RollBackJoin(tables, e1, k);
    JoinedKindRows(tables, k);
    SelectedKindRows(MigrateEntityData.SourceRows(tables, k), k, MigrateEntityData.UserIds(tables), MigrateEntityData.ChapterIds(tables));
  }

  /**
   * Splitting the old tables (`up()` of the data migration), dropping them (`up()` here) and rolling
   * back (`down()` here) gives back each old table's rows, on the columns the
   * rollback writes, provided `entities` held no row of that kind before, the payload tables started
   * empty, the old table's ids were a primary key, and each user reference (and a page's chapter)
   * held 0 or the id of an existing row. A NULL or dangling reference comes back as 0 instead
   * (`ReferenceRoundTrip`). The rows are stated in the order the model's join produces them, the
   * order of `entities`; SQL itself promises no order for `INSERT ... SELECT`.
   */
  lemma SplitThenRollBack(tables: map<string, Table>, k: Kind)
    requires forall r | r in Entity.TableOf(tables, IdentityTable) :: !MigrateEntityData.OfKind(k)(r)
    requires Entity.TableOf(tables, ContainerTable) == [] && Entity.TableOf(tables, PageDataTable) == []
    requires MigrateEntityData.PrimaryKeyed(MigrateEntityData.SourceRows(tables, k))
    requires forall x | x in MigrateEntityData.SourceRows(tables, k) ::
      RestorableRow(k, x, MigrateEntityData.UserIds(tables), MigrateEntityData.ChapterIds(tables))
    ensures Entity.TableOf(DownEffect(UpEffect(MigrateEntityData.UpEffect(tables))), OldTable(k)) ==
      Map(MigrateEntityData.SourceRows(tables, k), Select(RestoredColumns(k)))
  {
    RollBackReads(tables, k);
    MigrateEntityData.UpEntitiesOfKind(tables, k);
    RollBackRows(tables, Entity.TableOf(MigrateEntityData.UpEffect(tables), IdentityTable), k);
  }
}
