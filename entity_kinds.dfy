/**
 * The four kinds of content entity, the `type` discriminator each writes into the shared identity
 * table, and the identity columns every kind shares (`Entity::$commonFields`).
 */
module EntityKinds {
  import opened Wrappers

  datatype Kind = Bookshelf | Book | Chapter | Page

  /**
   * `getType()` / `getMorphClass()`: the lower-cased class name, which is also the value stored in
   * `entities.type` and in `entity_container_data.entity_type`.
   */
  function TypeName(k: Kind): string {
    match k
    case Bookshelf => "bookshelf"
    case Book => "book"
    case Chapter => "chapter"
    case Page => "page"
  }

  /** The kind a stored `type` value names, if any. */
  function KindOfType(t: string): (r: Option<Kind>)
    ensures r.Some? ==> TypeName(r.value) == t
  {
    if t == "bookshelf" then Some(Bookshelf)
    else if t == "book" then Some(Book)
    else if t == "chapter" then Some(Chapter)
    else if t == "page" then Some(Page)
    else None
  }

  /** Each kind's `type` value reads back as that kind, so no two kinds share a discriminator. */
  lemma KindOfTypeName(k: Kind)
    ensures KindOfType(TypeName(k)) == Some(k)
  {
  }

  lemma TypeNameInjective(a: Kind, b: Kind)
    requires TypeName(a) == TypeName(b)
    ensures a == b
  {
    KindOfTypeName(a);
    KindOfTypeName(b);
  }

  /** `isContainer()`: shelves, books and chapters hold other entities; pages do not. */
  predicate IsContainer(k: Kind) {
    k != Page
  }

  /** `BookChild`: the kinds that live inside a book. */
  predicate IsBookChild(k: Kind) {
    k == Chapter || k == Page
  }

  /** `Entity::$commonFields`: the columns of the `entities` identity table. */
  const CommonFields: seq<string> := [
    "id", "type", "name", "slug", "book_id", "chapter_id", "priority",
    "created_at", "updated_at", "deleted_at", "created_by", "updated_by", "owned_by"
  ]

  const IdentityTable: string := "entities"

  /** The pivot table linking shelves to the books on them, with each book's place on the shelf. */
  const ShelfBooksTable: string := "bookshelves_books"
}
