/**
 * `EntityQueryBuilder`: the Eloquent builder every entity model uses. It registers the `entity`
 * scope when it is created, refuses to remove it, and restricts `forceDelete` (which bypasses
 * scopes) to the model's own kind.
 */
module EntityQueryBuilder {
  import opened Seqs
  import opened Php
  import opened Tables
  import opened EntityKinds
  import EntityScope

  /** The conditions a caller added with `where`, all of which a row must meet. */
  predicate MeetsAll(wheres: seq<Row -> bool>, row: Row) {
    forall i | 0 <= i < |wheres| :: wheres[i](row)
  }

  /** The rows `forceDelete` removes: those meeting the caller's conditions and of the model's kind. */
  predicate ForceDeletes(wheres: seq<Row -> bool>, k: Kind, row: Row) {
    MeetsAll(wheres, row) && WhereEquals(row, "type", Str(TypeName(k)))
  }

  /** The identity table after `forceDelete`. */
  function AfterForceDelete(t: Table, wheres: seq<Row -> bool>, k: Kind): (r: Table)
    ensures |r| <= |t|
  {
    DeleteWhere(t, row => ForceDeletes(wheres, k, row))
  }

  /**
   * `forceDelete` never removes a row of another kind, whatever conditions the caller added, and
   * removes exactly the rows of its kind that meet them.
   */
  lemma ForceDeleteOnlyOwnKind(t: Table, wheres: seq<Row -> bool>, k: Kind)
    ensures forall row | row in t && Get(row, "type") != Str(TypeName(k)) :: row in AfterForceDelete(t, wheres, k)
    ensures forall row | row in t :: row in AfterForceDelete(t, wheres, k) <==> !ForceDeletes(wheres, k, row)
  {
  }

  class Builder {
    /** The model kind the builder queries (`$this->model`). */
    const kind: Kind
    /** The names of the global scopes registered on this builder. */
    var scopes: set<string>
    /** The conditions added with `where`. */
    var wheres: seq<Row -> bool>

    /** The kind filter is in force: the `entity` scope is registered. */
    predicate Valid()
      reads this
    {
      "entity" in scopes
    }

    /** `__construct`: registers the `entity` scope on every new builder. */
    constructor(k: Kind)
      ensures kind == k && scopes == {"entity"} && wheres == []
      ensures Valid()
    {
      kind := k;
      scopes := {"entity"};
      wheres := [];
    }

    /** `withGlobalScope`. */
    method WithGlobalScope(name: string)
      modifies this
      ensures scopes == old(scopes) + {name} && wheres == old(wheres)
      ensures old(Valid()) ==> Valid()
    {
      scopes := scopes + {name};
    }

    /** `where`. */
    method Where(p: Row -> bool)
      modifies this
      ensures wheres == old(wheres) + [p] && scopes == old(scopes)
    {
      wheres := wheres + [p];
    }

    /**
     * `withoutGlobalScope`: the builder itself comes back in every case; the `entity` scope stays,
     * any other named scope is removed.
     */
    method WithoutGlobalScope(name: string) returns (b: Builder)
      modifies this
      ensures b == this
      ensures name == "entity" ==> scopes == old(scopes)
      ensures name != "entity" ==> scopes == old(scopes) - {name}
      ensures wheres == old(wheres)
      ensures old(Valid()) ==> Valid()
    {
      if name == "entity" {
        return this;
      }
      scopes := scopes - {name};
      return this;
    }

    /**
     * The rows `get()` returns: with the `entity` scope, the scoped query; then the caller's
     * conditions. Other named scopes belong to code outside this model and add no condition here.
     */
    function Results(tables: map<string, Table>): Table
      reads this
    {
      var base := if "entity" in scopes then EntityScope.Query(kind, tables)
                  else EntityScope.TableOf(tables, IdentityTable);
      var conditions := wheres;
      Filter(base, row => MeetsAll(conditions, row))
    }

    /** `forceDelete`: deletes from the identity table with the type filter added to the conditions. */
    method ForceDelete(db: Database) returns (count: nat)
      modifies db
      ensures db.tables == old(db.tables)[IdentityTable := AfterForceDelete(old(db.Rows(IdentityTable)), wheres, kind)]
      ensures count == |old(db.Rows(IdentityTable))| - |db.Rows(IdentityTable)|
    {
      var before := db.Rows(IdentityTable);
      var after := AfterForceDelete(before, wheres, kind);
      db.tables := db.tables[IdentityTable := after];
      count := |before| - |after|;
    }
  }

  /** Whatever conditions are added, a valid builder returns only rows of its own kind. */
  lemma ResultsOnlyOwnKind(b: Builder, tables: map<string, Table>)
    requires b.Valid()
    requires EntityScope.PayloadWellFormed(tables)
    ensures forall m | m in b.Results(tables) :: Get(m, "type") == Str(TypeName(b.kind))
  {
    EntityScope.QueryRowsHaveKind(b.kind, tables);
  }
}
