/**
 * `Entity`: the base model of shelves, books, chapters and pages. Its attribute bag is flat, but it
 * is stored in two places: the shared identity row in `entities` and a kind-specific payload row.
 * `save` splits the bag along the kind's payload list, writes both halves and merges the payload
 * back. The pure helpers compare entities, shorten names and texts, and find the static parent.
 */
module Entity {
  import opened Wrappers
  import opened Seqs
  import opened Php
  import opened Tables
  import opened EntityKinds
  import EntityContainerData
  import EntityPageData
  import EntityScope

  // ---------------------------------------------------------------------------------------------
  // Splitting the attribute bag

  /** The payload list `getContentsAttributes` consults: the page list for pages, the container list otherwise. */
  function PayloadFields(k: Kind): seq<string> {
    if k == Page then EntityPageData.Fields else EntityContainerData.Fields
  }

  function PayloadTable(k: Kind): string {
    if k == Page then EntityPageData.TableName else EntityContainerData.TableName
  }

  /** The payload list follows `isContainer`, and it never names an identity column. */
  lemma PayloadFieldsByKind(k: Kind)
    ensures IsContainer(k) <==> PayloadFields(k) == EntityContainerData.Fields
    ensures !IsContainer(k) <==> PayloadFields(k) == EntityPageData.Fields
    ensures forall f | f in PayloadFields(k) :: f !in CommonFields
  {
    EntityContainerData.FieldsDisjointFromCommon();
    EntityPageData.FieldsDisjointFromCommon();
  }

  function PayloadFieldSet(k: Kind): set<string> {
    set f | f in PayloadFields(k)
  }

  /** `getContentsAttributes()`: the attributes whose names are on the kind's payload list. */
  function ContentsOf(k: Kind, attrs: Row): Row {
    map f | f in attrs && f in PayloadFields(k) :: attrs[f]
  }

  /** What remains of the bag once the payload attributes are unset. */
  function IdentityPart(k: Kind, attrs: Row): Row {
    attrs - PayloadFieldSet(k)
  }

  /**
   * The split is a partition: the two halves share no attribute, the payload half holds exactly
   * the listed attributes with their values, and merging them gives back the bag.
   */
  lemma SplitPartitions(k: Kind, attrs: Row)
    ensures IdentityPart(k, attrs).Keys !! ContentsOf(k, attrs).Keys
    ensures forall f | f in attrs :: f in ContentsOf(k, attrs) <==> f in PayloadFields(k)
    ensures forall f | f in IdentityPart(k, attrs) :: f !in PayloadFields(k)
    ensures IdentityPart(k, attrs) + ContentsOf(k, attrs) == attrs
  {
  }

  lemma ContentsKeys(k: Kind, attrs: Row)
    ensures attrs - ContentsOf(k, attrs).Keys == IdentityPart(k, attrs)
  {
  }

  /** Laravel's `getDirty()`: the attributes that are new or differ from the original. */
  function Dirty(attrs: Row, original: Row): Row {
    map f | f in attrs && (f !in original || original[f] != attrs[f]) :: attrs[f]
  }

  // ---------------------------------------------------------------------------------------------
  // The effect of save

  /** The payload row `relatedData()->firstOrNew()` yields. */
  datatype Loaded = Loaded(row: Row, original: Row, stored: bool)

  /** The column that ties a payload row to its entity. */
  function ForeignKey(k: Kind): string {
    if k == Page then "page_id" else "entity_id"
  }

  /**
   * The relation's condition: the foreign key equals the entity id (a NULL id matches nothing), and
   * for containers the row's `entity_type` is the entity's kind.
   */
  predicate RelatedTo(k: Kind, id: Value, row: Row) {
    SqlEquals(Get(row, ForeignKey(k)), id) && (k == Page || WhereEquals(row, "entity_type", Str(TypeName(k))))
  }

  /** `firstOrNew()`: the first related row, or a new, unsaved one carrying only the foreign key. */
  function LoadPayload(k: Kind, id: Value, rows: Table): (r: Loaded)
    ensures r.stored ==> r.row == r.original && r.row in rows && RelatedTo(k, id, r.row)
    ensures !r.stored ==> r.row == map[ForeignKey(k) := id] && r.original == map[]
  {
    match First(rows, row => RelatedTo(k, id, row))
    case Some(row) => Loaded(row, row, true)
    case None => Loaded(map[ForeignKey(k) := id], map[], false)
  }

  /** The keys `save` force-fills onto the payload: `page_id`, or `entity_id` and `entity_type`. */
  function PayloadKeys(k: Kind, id: Value): Row {
    if k == Page then map["page_id" := id] else map["entity_id" := id, "entity_type" := Str(TypeName(k))]
  }

  /** `getKeyForSaveQuery()`: the original value of a key column, else its current value. */
  function KeyForSave(original: Row, attrs: Row, column: string): Value {
    if column in original then original[column] else Get(attrs, column)
  }

  /**
   * The identity write: an update of the dirty attributes on the row with the original id and the
   * model's type (the entity scope is on every builder, update queries included), or an insert of
   * the whole bag under the id the database assigns.
   */
  function IdentityWrite(k: Kind, t: Table, attrs: Row, original: Row, stored: bool, newId: int): Table {
    if stored then
      var id := KeyForSave(original, attrs, "id");
      var changes := Dirty(attrs, original);
      UpdateWhere(t, row => WhereEquals(row, "id", id) && WhereEquals(row, "type", Str(TypeName(k))), row => row + changes)
    else
      t + [attrs["id" := Int(newId)]]
  }

  /** The payload row's save query: `page_id`, or `entity_id` with the row's current `entity_type`. */
  predicate PayloadSaveKey(k: Kind, loaded: Loaded, payload: Row, row: Row) {
    WhereEquals(row, ForeignKey(k), KeyForSave(loaded.original, payload, ForeignKey(k))) &&
    (k == Page || WhereEquals(row, "entity_type", Get(payload, "entity_type")))
  }

  /** The payload write: an update of its dirty columns, or an insert of the new row. */
  function PayloadWrite(k: Kind, t: Table, loaded: Loaded, payload: Row): Table {
    if loaded.stored then
      var changes := Dirty(payload, loaded.original);
      UpdateWhere(t, row => PayloadSaveKey(k, loaded, payload, row), row => row + changes)
    else
      t + [payload]
  }

  /** The state `save` leaves behind and the value it returns. */
  datatype SaveOutcome = SaveOutcome(tables: map<string, Table>, attributes: Row, original: Row, stored: bool, ok: bool)

  function TableOf(tables: map<string, Table>, name: string): Table {
    if name in tables then tables[name] else []
  }

  /** Whether the payload row needs writing: always for a new one, else when a column changed. */
  function PayloadDirty(k: Kind, tables: map<string, Table>, attrs: Row): bool {
    var loaded := LoadPayload(k, Get(attrs, "id"), TableOf(tables, PayloadTable(k)));
    !loaded.stored || Dirty(loaded.row + ContentsOf(k, attrs), loaded.original) != map[]
  }

  /**
   * `save()` as a function of the state before it. `identityAccepted` is whether the identity save
   * goes ahead (a model event may cancel it), `payloadAccepted` the same for the payload row, and
   * `newId` the id the database assigns to an inserted identity row.
   */
  function SaveEffect(k: Kind, tables: map<string, Table>, attrs: Row, original: Row, stored: bool,
                      newId: int, identityAccepted: bool, payloadAccepted: bool): SaveOutcome
  {
    var contents := ContentsOf(k, attrs);
    var typed := IdentityPart(k, attrs)["type" := Str(TypeName(k))];
    var saved := if identityAccepted && !stored then typed["id" := Int(newId)] else typed;
    var t1 := if identityAccepted
              then tables[IdentityTable := IdentityWrite(k, TableOf(tables, IdentityTable), typed, original, stored, newId)]
              else tables;
    var loaded := LoadPayload(k, Get(attrs, "id"), TableOf(tables, PayloadTable(k)));
    var dirty := PayloadDirty(k, tables, attrs);
    var t2 := if identityAccepted && dirty && payloadAccepted
              then t1[PayloadTable(k) := PayloadWrite(k, TableOf(tables, PayloadTable(k)), loaded,
                                                      loaded.row + contents + PayloadKeys(k, Get(saved, "id")))]
              else t1;
    SaveOutcome(t2, saved + contents, if identityAccepted then saved else original,
                stored || identityAccepted, identityAccepted && (!dirty || payloadAccepted))
  }

  /**
   * Split then merge is a round trip: after `save` the bag holds every attribute it held before,
   * payload attributes with their old values, with `type` set to the model's kind and, after an
   * insert, the new id.
   */
  lemma SaveRestoresAttributes(k: Kind, tables: map<string, Table>, attrs: Row, original: Row, stored: bool,
                               newId: int, identityAccepted: bool, payloadAccepted: bool)
    ensures var out := SaveEffect(k, tables, attrs, original, stored, newId, identityAccepted, payloadAccepted);
      out.attributes == if identityAccepted && !stored then attrs["type" := Str(TypeName(k))]["id" := Int(newId)]
                        else attrs["type" := Str(TypeName(k))]
  {
    PayloadFieldsByKind(k);
    var identity := IdentityPart(k, attrs)["type" := Str(TypeName(k))];
    var contents := ContentsOf(k, attrs);
    assert identity + contents == attrs["type" := Str(TypeName(k))];
    assert identity["id" := Int(newId)] + contents == attrs["type" := Str(TypeName(k))]["id" := Int(newId)];
  }

  /**
   * The payload is written only after the identity save went ahead, and `save` reports success
   * exactly when the identity save went ahead and the payload, if it needed writing, was saved too.
   */
  lemma SavePayloadAfterIdentity(k: Kind, tables: map<string, Table>, attrs: Row, original: Row, stored: bool,
                                 newId: int, identityAccepted: bool, payloadAccepted: bool)
    ensures var out := SaveEffect(k, tables, attrs, original, stored, newId, identityAccepted, payloadAccepted);
      && (!identityAccepted ==> out.tables == tables)
      && (identityAccepted && !(PayloadDirty(k, tables, attrs) && payloadAccepted) ==>
            TableOf(out.tables, PayloadTable(k)) == TableOf(tables, PayloadTable(k)))
      && (out.ok <==> identityAccepted && (PayloadDirty(k, tables, attrs) ==> payloadAccepted))
  {
    assert PayloadTable(k) != IdentityTable;
  }

  /** `save` writes the identity table and the kind's payload table and no other table. */
  lemma SaveTouchesOnly(k: Kind, tables: map<string, Table>, attrs: Row, original: Row, stored: bool,
                        newId: int, identityAccepted: bool, payloadAccepted: bool, name: string)
    requires name != IdentityTable && name != PayloadTable(k)
    ensures var out := SaveEffect(k, tables, attrs, original, stored, newId, identityAccepted, payloadAccepted);
      TableOf(out.tables, name) == TableOf(tables, name)
  {
  }

  /**
   * A payload row saved for the first time carries the entity's keys: `page_id` = id for a page,
   * (`entity_id`, `entity_type`) = (id, kind) for a container, where id is the id the identity save
   * left, and it holds the attributes on the kind's payload list.
   */
  lemma SaveInsertsKeyedPayload(k: Kind, tables: map<string, Table>, attrs: Row, original: Row, stored: bool,
                                newId: int, payloadAccepted: bool)
    requires !LoadPayload(k, Get(attrs, "id"), TableOf(tables, PayloadTable(k))).stored
    requires payloadAccepted
    ensures var out := SaveEffect(k, tables, attrs, original, stored, newId, true, payloadAccepted);
      var id := Get(out.attributes, "id");
      var t := TableOf(out.tables, PayloadTable(k));
      && t == TableOf(tables, PayloadTable(k)) + [t[|t| - 1]]
      && (k == Page ==> Get(t[|t| - 1], "page_id") == id)
      && (k != Page ==> EntityContainerData.IsPayloadOf(t[|t| - 1], id, k))
      && (forall f | f in attrs && f in PayloadFields(k) :: Get(t[|t| - 1], f) == attrs[f])
  {
    var out := SaveEffect(k, tables, attrs, original, stored, newId, true, payloadAccepted);
    var id := Get(out.attributes, "id");
    SaveAppendsPayload(k, tables, attrs, original, stored, newId, payloadAccepted);
    NewPayloadRowKeys(k, attrs, id);
  }

  /** The payload row a first save inserts. */
  function NewPayloadRow(k: Kind, attrs: Row, id: Value): Row {
    map[ForeignKey(k) := Get(attrs, "id")] + ContentsOf(k, attrs) + PayloadKeys(k, id)
  }

  lemma NewPayloadRowKeys(k: Kind, attrs: Row, id: Value)
    ensures k == Page ==> Get(NewPayloadRow(k, attrs, id), "page_id") == id
    ensures k != Page ==> EntityContainerData.IsPayloadOf(NewPayloadRow(k, attrs, id), id, k)
    ensures forall f | f in attrs && f in PayloadFields(k) :: Get(NewPayloadRow(k, attrs, id), f) == attrs[f]
  {
    EntityPageData.FieldsAreColumns();
  }

  lemma SaveAppendsPayload(k: Kind, tables: map<string, Table>, attrs: Row, original: Row, stored: bool,
                           newId: int, payloadAccepted: bool)
    requires !LoadPayload(k, Get(attrs, "id"), TableOf(tables, PayloadTable(k))).stored
    requires payloadAccepted
    ensures var out := SaveEffect(k, tables, attrs, original, stored, newId, true, payloadAccepted);
      TableOf(out.tables, PayloadTable(k)) ==
        TableOf(tables, PayloadTable(k)) + [NewPayloadRow(k, attrs, Get(out.attributes, "id"))]
  {
    PayloadFieldsByKind(k);
    var contents := ContentsOf(k, attrs);
    var typed := IdentityPart(k, attrs)["type" := Str(TypeName(k))];
    var saved := if !stored then typed["id" := Int(newId)] else typed;
    assert "id" !in contents;
    assert Get(saved + contents, "id") == Get(saved, "id");
    assert PayloadDirty(k, tables, attrs);
    assert PayloadTable(k) != IdentityTable;
  }

  /**
   * The identity write never carries a payload attribute: if no identity row held one before, none
   * holds one after (the payload list of the kind is checked; lists are disjoint from the columns).
   */
  lemma SaveKeepsIdentityRowsSplit(k: Kind, tables: map<string, Table>, attrs: Row, original: Row, stored: bool,
                                   newId: int, identityAccepted: bool, payloadAccepted: bool)
    requires forall row, f | row in TableOf(tables, IdentityTable) && f in PayloadFields(k) :: f !in row
    ensures var out := SaveEffect(k, tables, attrs, original, stored, newId, identityAccepted, payloadAccepted);
      forall row, f | row in TableOf(out.tables, IdentityTable) && f in PayloadFields(k) :: f !in row
  {
    PayloadFieldsByKind(k);
    if identityAccepted {
      var t := TableOf(tables, IdentityTable);
      var identity := IdentityPart(k, attrs)["type" := Str(TypeName(k))];
      var written := IdentityWrite(k, t, identity, original, stored, newId);
      assert PayloadTable(k) != IdentityTable;
      forall row, f | row in written && f in PayloadFields(k) ensures f !in row {
        var i :| 0 <= i < |written| && written[i] == row;
        if !stored && i == |t| {
          assert row == identity["id" := Int(newId)];
        } else if stored {
          assert t[i] in t;
        } else {
          assert row == t[i];
        }
      }
    }
  }

  // ---------------------------------------------------------------------------------------------
  // The model object

  /**
   * The loop in `save` that moves each payload attribute from the bag onto the payload row: the bag
   * loses exactly those attributes and the payload row gains them with their values.
   */
  method MoveContents(attrs: Row, payload: Row, contentFields: Row) returns (identity: Row, contents: Row)
    ensures identity == attrs - contentFields.Keys
    ensures contents == payload + contentFields
  {
    identity, contents := attrs, payload;
    var keys := contentFields.Keys;
    while keys != {}
      invariant keys <= contentFields.Keys
      invariant contents == payload + map f | f in contentFields.Keys - keys :: contentFields[f]
      invariant identity == attrs - (contentFields.Keys - keys)
      decreases keys
    {
      var key :| key in keys;
      contents := contents[key := contentFields[key]];
      identity := identity - {key};
      keys := keys - {key};
    }
  }

  /**
   * Eloquent's `fill()` under a `$fillable` list: the listed keys of the input are written, every
   * other input key is dropped without effect.
   */
  function Fill(fillable: seq<string>, attrs: Row, input: Row): (r: Row)
    ensures forall c | c in input && c in fillable :: c in r && r[c] == input[c]
    ensures forall c | !(c in input && c in fillable) :: (c in r <==> c in attrs) && (c in attrs ==> r[c] == attrs[c])
  {
    attrs + map c | c in input && c in fillable :: input[c]
  }

  /** The column holding an entity's main text (`$textField`): pages keep it in `text`. */
  function TextField(k: Kind): string {
    if k == Page then "text" else "description"
  }

  class EntityModel {
    const kind: Kind
    /** The attribute bag (`$attributes`). */
    var attributes: Row
    /** The attributes as last read from or written to the database (`$original`). */
    var original: Row
    /** Whether the model has an identity row (`$exists`). */
    var stored: bool

    constructor(k: Kind, attrs: Row)
      ensures kind == k && attributes == attrs && original == map[] && !stored
    {
      kind := k;
      attributes := attrs;
      original := map[];
      stored := false;
    }

    /** `getContentsAttributes()`, built attribute by attribute. */
    method GetContentsAttributes() returns (fields: Row)
      ensures fields == ContentsOf(kind, attributes)
    {
      fields := map[];
      var keys := attributes.Keys;
      while keys != {}
        invariant keys <= attributes.Keys
        invariant fields == map f | f in attributes.Keys - keys && f in PayloadFields(kind) :: attributes[f]
        decreases keys
      {
        var key :| key in keys;
        if key in PayloadFields(kind) {
          fields := fields[key := attributes[key]];
        }
        keys := keys - {key};
      }
    }

    /** `save()`: see `SaveEffect` for what it does and the lemmas beside it for what that means. */
    method Save(db: Database, newId: int, identityAccepted: bool, payloadAccepted: bool) returns (ok: bool)
      modifies this, db
      ensures SaveOutcome(db.tables, attributes, original, stored, ok) ==
              SaveEffect(kind, old(db.tables), old(attributes), old(original), old(stored), newId, identityAccepted, payloadAccepted)
    {
      var id := Get(attributes, "id");
      var payloadRows := db.Rows(PayloadTable(kind));
      var loaded := LoadPayload(kind, id, payloadRows);
      var contents;
      var contentFields := GetContentsAttributes();
      ghost var before := attributes;

      var identity;
      identity, contents := MoveContents(attributes, loaded.row, contentFields);
      ContentsKeys(kind, before);

      // The identity row: `type` is set, then the row is updated or inserted.
      var typed := identity["type" := Str(TypeName(kind))];
      var saved := if identityAccepted && !stored then typed["id" := Int(newId)] else typed;
      if identityAccepted {
        db.tables := db.tables[IdentityTable := IdentityWrite(kind, db.Rows(IdentityTable), typed, original, stored, newId)];
      }

      // The payload row, only after the identity save went ahead and only when it changed.
      var payloadDirty := !loaded.stored || Dirty(contents, loaded.original) != map[];
      if identityAccepted && payloadDirty && payloadAccepted {
        var filled := contents + PayloadKeys(kind, Get(saved, "id"));
        db.tables := db.tables[PayloadTable(kind) := PayloadWrite(kind, payloadRows, loaded, filled)];
      }

      // The payload attributes are filled back into the bag.
      attributes := saved + contentFields;
      original := if identityAccepted then saved else original;
      stored := stored || identityAccepted;
      ok := identityAccepted && (!payloadDirty || payloadAccepted);
    }

    // -------------------------------------------------------------------------------------------
    // Pure helpers

    /** `matches()`: same class and strictly identical id (two unsaved models of a kind match). */
    predicate Matches(other: EntityModel)
      reads this, other
    {
      kind == other.kind && Get(attributes, "id") == Get(other.attributes, "id")
    }

    /**
     * `matchesOrContains()`: the same entity, or this book holding the other (a chapter or page)
     * through `book_id`, or this chapter holding the other (a page) through `chapter_id`.
     */
    predicate MatchesOrContains(other: EntityModel)
      reads this, other
    {
      if Matches(other) then true
      else if IsBookChild(other.kind) && kind == Book then Get(other.attributes, "book_id") == Get(attributes, "id")
      else if other.kind == Page && kind == Chapter then Get(other.attributes, "chapter_id") == Get(attributes, "id")
      else false
    }

    /** `getShortName()`: the name cut to `length` characters, the cut marked by "...". */
    function GetShortName(length: int := 25): (r: string)
      reads this
      ensures var name := StrCast(Get(attributes, "name"));
        && (|name| <= length ==> r == name)
        && (|name| > length ==> r == MbPrefix(name, length - 3) + "...")
        && (|name| > length && length >= 3 ==> |r| == length && r[..length - 3] == name[..length - 3])
    {
      var name := StrCast(Get(attributes, "name"));
      if |name| <= length then name else MbPrefix(name, length - 3) + "..."
    }

    /** `getExcerpt()`: the main text, cut like a short name when longer than `length`, then trimmed. */
    function GetExcerpt(length: int := 100): (r: string)
      reads this
      ensures length >= 3 ==> |r| <= length
      ensures var text := StrCast(Get(attributes, TextField(kind)));
        |text| <= length ==> r == Trim(text)
      ensures var text := StrCast(Get(attributes, TextField(kind)));
        |text| > length >= 3 ==> r == Trim(text[..length - 3] + "...")
    {
      var text := StrCast(Get(attributes, TextField(kind)));
      if |text| > length then Trim(MbPrefix(text, length - 3) + "...") else Trim(text)
    }

    /**
     * `getParent()`: for a page, the chapter named by a truthy `chapter_id`, else the book; for a
     * chapter, its book; soft-deleted parents included. Shelves and books have none.
     */
    function GetParent(tables: map<string, Table>): Option<Row>
      reads this
    {
      if kind == Page then
        if Truthy(Get(attributes, "chapter_id")) then
          var chapterId := Get(attributes, "chapter_id");
          First(EntityScope.Query(Chapter, tables), row => WhereEquals(row, "id", chapterId))
        else
          var bookId := Get(attributes, "book_id");
          First(EntityScope.Query(Book, tables), row => WhereEquals(row, "id", bookId))
      else if kind == Chapter then
        var bookId := Get(attributes, "book_id");
        First(EntityScope.Query(Book, tables), row => WhereEquals(row, "id", bookId))
      else None
    }
  }

  /**
   * Every entity matches itself; a book contains exactly the chapters and pages whose `book_id` is
   * its id, a chapter exactly the pages whose `chapter_id` is its id; shelves and pages contain
   * nothing but themselves.
   */
  lemma ContainmentOnlyDownward(a: EntityModel, b: EntityModel)
    ensures a.MatchesOrContains(a)
    ensures a.Matches(b) ==> a.MatchesOrContains(b)
    ensures a.kind == Book && IsBookChild(b.kind) ==>
      (a.MatchesOrContains(b) <==> Get(b.attributes, "book_id") == Get(a.attributes, "id"))
    ensures a.kind == Chapter && b.kind == Page ==>
      (a.MatchesOrContains(b) <==> Get(b.attributes, "chapter_id") == Get(a.attributes, "id"))
    ensures a.kind == Chapter && b.kind != Page ==> (a.MatchesOrContains(b) <==> a.Matches(b))
    ensures a.kind == Book && !IsBookChild(b.kind) ==> (a.MatchesOrContains(b) <==> a.Matches(b))
    ensures (a.kind == Bookshelf || a.kind == Page) ==> (a.MatchesOrContains(b) <==> a.Matches(b))
  {
  }

  /** The static parent of a page or chapter is the entity the relation names, and of that kind. */
  lemma {:induction false} GetParentIsNamedParent(e: EntityModel, tables: map<string, Table>)
    requires EntityScope.PayloadWellFormed(tables)
    ensures e.kind == Bookshelf || e.kind == Book ==> e.GetParent(tables) == None
    ensures e.GetParent(tables).Some? ==>
      var p := e.GetParent(tables).value;
      && (e.kind == Page && Truthy(Get(e.attributes, "chapter_id")) ==>
            Get(p, "type") == Str("chapter") && Get(p, "id") == Get(e.attributes, "chapter_id"))
      && (e.kind == Page && Falsy(Get(e.attributes, "chapter_id")) ==>
            Get(p, "type") == Str("book") && Get(p, "id") == Get(e.attributes, "book_id"))
      && (e.kind == Chapter ==> Get(p, "type") == Str("book") && Get(p, "id") == Get(e.attributes, "book_id"))
    ensures e.kind == Page || e.kind == Chapter ==>
      (e.GetParent(tables).Some? <==>
        exists row | row in EntityScope.Query(ParentKind(e), tables) :: Get(row, "id") == Get(e.attributes, ParentColumn(e)))
  {
    EntityScope.QueryRowsHaveKind(Chapter, tables);
    EntityScope.QueryRowsHaveKind(Book, tables);
  }

  /** The kind of entity `getParent` looks for: a chapter for a page with a truthy `chapter_id`, else a book. */
  function ParentKind(child: EntityModel): Kind
    reads child
  {
    if child.kind == Page && Truthy(Get(child.attributes, "chapter_id")) then Chapter else Book
  }

  /** The column of the child that names its parent. */
  function ParentColumn(child: EntityModel): string
    reads child
  {
    if ParentKind(child) == Chapter then "chapter_id" else "book_id"
  }

  /** The parent `getParent` finds contains the child in the sense of `matchesOrContains`. */
  lemma ParentContainsChild(child: EntityModel, parent: EntityModel, tables: map<string, Table>)
    requires EntityScope.PayloadWellFormed(tables)
    requires child.GetParent(tables).Some?
    requires Str(TypeName(parent.kind)) == Get(child.GetParent(tables).value, "type")
    requires Get(parent.attributes, "id") == Get(child.GetParent(tables).value, "id")
    ensures parent.MatchesOrContains(child)
  {
    var p := child.GetParent(tables).value;
    assert Get(p, "type") == Str(TypeName(ParentKind(child)))
        && Get(p, "id") == Get(child.attributes, ParentColumn(child)) by {
      GetParentIsNamedParent(child, tables);
    }
    assert parent.kind == ParentKind(child) by {
      TypeNameInjective(parent.kind, ParentKind(child));
    }
  }
}
