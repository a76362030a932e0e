/** `EntityPageData`: the payload row of a page in `entity_page_data`, keyed by `page_id` alone. */
module EntityPageData {
  import opened Seqs
  import opened Php
  import opened Tables
  import opened EntityKinds

  const TableName: string := "entity_page_data"

  /** `EntityPageData::$fields`: the attributes a page keeps in its payload row. */
  const Fields: seq<string> := ["draft", "template", "revision_count", "editor", "html", "text", "markdown"]

  /** The columns of `entity_page_data`: the `page_id` primary key and one column per field. */
  const Columns: seq<string> := ["page_id", "draft", "template", "revision_count", "editor", "html", "text", "markdown"]

  lemma FieldsAreColumns()
    ensures forall f | f in Fields :: f in Columns && f != "page_id"
  {
  }

  lemma FieldsDisjointFromCommon()
    ensures forall f | f in Fields :: f !in CommonFields
    ensures forall c | c in Columns :: c !in CommonFields
  {
  }

  /** The primary key: `page_id`, not auto-incremented but copied from the page's id. */
  predicate KeyMatches(row: Row, pageId: Value) {
    WhereEquals(row, "page_id", pageId)
  }

  ghost predicate KeysUnique(t: Table) {
    forall i, j | 0 <= i < |t| && 0 <= j < |t| && Get(t[i], "page_id") == Get(t[j], "page_id") :: i == j
  }

  /** A page payload lookup or update touches at most one row. */
  lemma KeyAddressesOneRow(t: Table, id: Value)
    requires KeysUnique(t)
    ensures |Filter(t, row => KeyMatches(row, id))| <= 1
  {
    FilterAtMostOne(t, row => KeyMatches(row, id));
  }
}
