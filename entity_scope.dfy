/**
 * `EntityScope`: the global scope every entity query carries. It keeps the rows of the model's own
 * kind and left-joins the kind's payload table, so one query yields identity and payload columns.
 */
module EntityScope {
  import opened Seqs
  import opened Php
  import opened Tables
  import opened EntityKinds
  import EntityContainerData
  import EntityPageData

  /** Which payload table is joined, and on what. */
  datatype Join =
    | PageJoin                              // entity_page_data.page_id = entities.id
    | ContainerJoin(entityType: string)     // entity_container_data (entity_id, entity_type) = (entities.id, type)

  /** What `apply` adds to a query: one `type` filter and one payload join. */
  datatype Application = Application(typeFilter: string, join: Join)

  function Apply(k: Kind): Application {
    Application(TypeName(k), if k == Page then PageJoin else ContainerJoin(TypeName(k)))
  }

  function JoinTable(j: Join): string {
    if j.PageJoin? then EntityPageData.TableName else EntityContainerData.TableName
  }

  /** The join condition between an identity row and a payload row. */
  predicate JoinOn(j: Join, l: Row, r: Row) {
    match j
    case PageJoin => SqlEquals(Get(r, "page_id"), Get(l, "id"))
    case ContainerJoin(t) => SqlEquals(Get(r, "entity_id"), Get(l, "id")) && WhereEquals(r, "entity_type", Str(t))
  }

  function TableOf(tables: map<string, Table>, name: string): Table {
    if name in tables then tables[name] else []
  }

  /** The rows a scoped query over kind `k` starts from, before any further condition. */
  function Query(k: Kind, tables: map<string, Table>): Table {
    var a := Apply(k);
    LeftJoin(Filter(TableOf(tables, IdentityTable), row => WhereEquals(row, "type", Str(a.typeFilter))),
             TableOf(tables, JoinTable(a.join)),
             (l, r) => JoinOn(a.join, l, r))
  }

  /** Payload rows carry only their own table's columns: no `type`, no identity column. */
  ghost predicate PayloadWellFormed(tables: map<string, Table>) {
    (forall r, c | r in TableOf(tables, EntityContainerData.TableName) && c in r :: c in EntityContainerData.Columns) &&
    (forall r, c | r in TableOf(tables, EntityPageData.TableName) && c in r :: c in EntityPageData.Columns)
  }

  lemma PayloadHasNoCommonColumn(tables: map<string, Table>, k: Kind, x: Row, c: string)
    requires PayloadWellFormed(tables)
    requires x in TableOf(tables, JoinTable(Apply(k).join))
    requires c in CommonFields
    ensures c !in x
  {
    EntityContainerData.FieldsDisjointFromCommon();
    EntityPageData.FieldsDisjointFromCommon();
  }

  /**
   * Every row of a scoped query is of the model's kind; and when it carries a payload, that payload
   * belongs to the same entity (page_id = id for pages, (entity_id, entity_type) = (id, kind) for
   * containers).
   */
  lemma {:induction false} QueryRowsHaveKind(k: Kind, tables: map<string, Table>)
    requires PayloadWellFormed(tables)
    ensures forall m | m in Query(k, tables) :: Get(m, "type") == Str(TypeName(k))
  {
    var a := Apply(k);
    var ids := Filter(TableOf(tables, IdentityTable), row => WhereEquals(row, "type", Str(a.typeFilter)));
    var payload := TableOf(tables, JoinTable(a.join));
    LeftJoinRows(ids, payload, (l, r) => JoinOn(a.join, l, r));
    forall m | m in Query(k, tables) ensures Get(m, "type") == Str(TypeName(k)) {
      var l :| l in ids && (m == l || exists x | x in payload :: JoinOn(a.join, l, x) && m == l + x);
      if m != l {
        var x :| x in payload && JoinOn(a.join, l, x) && m == l + x;
        PayloadHasNoCommonColumn(tables, k, x, "type");
        GetMerge(l, x, "type");
      }
    }
  }

  /**
   * The join is a left join: every identity row of the kind comes back, with all its identity
   * columns, whether or not it has a payload row.
   */
  lemma KeepsIdentityRows(k: Kind, tables: map<string, Table>, l: Row)
    requires PayloadWellFormed(tables)
    requires l in TableOf(tables, IdentityTable) && Get(l, "type") == Str(TypeName(k))
    ensures exists m | m in Query(k, tables) :: forall c | c in CommonFields :: Get(m, c) == Get(l, c)
  {
    var a := Apply(k);
    var ids := Filter(TableOf(tables, IdentityTable), row => WhereEquals(row, "type", Str(a.typeFilter)));
    var payload := TableOf(tables, JoinTable(a.join));
    LeftJoinKeepsLeft(ids, payload, (l, r) => JoinOn(a.join, l, r), l);
    var m :| m in Query(k, tables) && (m == l || exists x | x in payload :: JoinOn(a.join, l, x) && m == l + x);
    if m != l {
      var x :| x in payload && JoinOn(a.join, l, x) && m == l + x;
      forall c | c in CommonFields ensures Get(m, c) == Get(l, c) {
        PayloadHasNoCommonColumn(tables, k, x, c);
        GetMerge(l, x, c);
      }
    }
  }

  /** A payload row joined to an identity row belongs to it: same id, and for containers the same kind. */
  lemma JoinedPayloadBelongs(k: Kind, l: Row, x: Row)
    requires JoinOn(Apply(k).join, l, x)
    ensures k == Page ==> Get(x, "page_id") == Get(l, "id") && Get(l, "id") != Null
    ensures k != Page ==> EntityContainerData.IsPayloadOf(x, Get(l, "id"), k) && Get(l, "id") != Null
  {
  }

  /** `SoftDeletes`: a row with a `deleted_at` is left out of every query that does not ask for it. */
  predicate NotTrashed(row: Row) {
    WhereEquals(row, "deleted_at", Null)
  }

  /** The rows a relation over kind `k` sees: the scoped query without soft-deleted rows. */
  function Live(k: Kind, tables: map<string, Table>): (r: Table)
    ensures forall m :: m in r <==> m in Query(k, tables) && NotTrashed(m)
  {
    Filter(Query(k, tables), NotTrashed)
  }

  /** Every row a relation over kind `k` sees is of that kind. */
  lemma LiveRowsHaveKind(k: Kind, tables: map<string, Table>)
    requires PayloadWellFormed(tables)
    ensures forall m | m in Live(k, tables) :: Get(m, "type") == Str(TypeName(k)) && Get(m, "deleted_at") == Null
  {
    QueryRowsHaveKind(k, tables);
  }
}
