/**
 * `EntityContainerData`: the payload row of a shelf, book or chapter in `entity_container_data`,
 * addressed by the composite key (entity_id, entity_type).
 */
module EntityContainerData {
  import opened Seqs
  import opened Php
  import opened Tables
  import opened EntityKinds

  const TableName: string := "entity_container_data"

  /** `EntityContainerData::$fields`: the attributes a container keeps in its payload row. */
  const Fields: seq<string> := ["description", "description_html", "default_template_id", "image_id", "sort_rule_id"]

  /** The columns of `entity_container_data`: the composite key and one column per field. */
  const Columns: seq<string> := ["entity_id", "entity_type"] + Fields

  /** The payload fields and the identity columns name different attributes. */
  lemma FieldsDisjointFromCommon()
    ensures forall f | f in Fields :: f !in CommonFields
    ensures forall c | c in Columns :: c !in CommonFields
  {
  }

  /**
   * `setKeysForSaveQuery` and `setKeysForSelectQuery`: a payload row is addressed by `entity_id`
   * and `entity_type` together (Laravel's `where(col, '=', v)`).
   */
  predicate KeyMatches(row: Row, entityId: Value, entityType: Value) {
    WhereEquals(row, "entity_id", entityId) && WhereEquals(row, "entity_type", entityType)
  }

  /** The payload key a container of kind `k` with id `id` is looked up and saved under. */
  predicate IsPayloadOf(row: Row, id: Value, k: Kind) {
    KeyMatches(row, id, Str(TypeName(k)))
  }

  /** Rows whose composite key is unique, as the table's primary key guarantees. */
  ghost predicate KeysUnique(t: Table) {
    forall i, j | 0 <= i < |t| && 0 <= j < |t| &&
      Get(t[i], "entity_id") == Get(t[j], "entity_id") && Get(t[i], "entity_type") == Get(t[j], "entity_type") :: i == j
  }

  /**
   * A payload lookup or update touches at most one row, and the payloads of two kinds sharing a
   * numeric id are never the same row.
   */
  lemma KeyAddressesOneRow(t: Table, id: Value, k: Kind)
    requires KeysUnique(t)
    ensures |Filter(t, row => IsPayloadOf(row, id, k))| <= 1
  {
    FilterAtMostOne(t, row => IsPayloadOf(row, id, k));
  }

  lemma KindsOwnDistinctRows(row: Row, id: Value, a: Kind, b: Kind)
    requires a != b
    requires IsPayloadOf(row, id, a)
    ensures !IsPayloadOf(row, id, b)
  {
    if IsPayloadOf(row, id, b) {
      TypeNameInjective(a, b);
    }
  }
}
