/**
 * `Book`: the pages and chapters a book holds, the shelves it sits on, the order in which its
 * direct children are listed, and its URL. Relations read the live (not soft-deleted) rows of the
 * scoped entity query; the permission scope `visible` is a predicate on rows supplied by the caller.
 */
module BookModel {
  import opened Seqs
  import opened Sorting
  import opened Php
  import opened Tables
  import opened EntityKinds
  import EntityScope
  import Entity

  /** `$fillable`: the only attribute a book takes from mass assignment. */
  const Fillable: seq<string> := ["name"]

  /** Mass assignment on a book changes at most its name, and takes the name when given one. */
  lemma FillOnlyName(attrs: Row, input: Row)
    ensures forall c | c != "name" :: Get(Entity.Fill(Fillable, attrs, input), c) == Get(attrs, c)
    ensures "name" in input ==> Get(Entity.Fill(Fillable, attrs, input), "name") == input["name"]
  {
  }

  /** The `book_id` foreign key names the book (SQL equality: a NULL id matches nothing). */
  function InBook(bookId: Value): Row -> bool {
    row => SqlEquals(Get(row, "book_id"), bookId)
  }

  /** `pages()`: the live pages whose `book_id` is this book. */
  function Pages(bookId: Value, tables: map<string, Table>): (r: Table)
    ensures forall m :: m in r <==> m in EntityScope.Live(Page, tables) && bookId != Null && Get(m, "book_id") == bookId
  {
    Filter(EntityScope.Live(Page, tables), InBook(bookId))
  }

  /** `whereNull('chapter_id')`. */
  predicate NotInChapter(row: Row) {
    WhereEquals(row, "chapter_id", Null)
  }

  /** `directPages()`: the pages of the book that sit in no chapter. */
  function DirectPages(bookId: Value, tables: map<string, Table>): (r: Table)
    ensures forall m :: m in r <==> m in Pages(bookId, tables) && Get(m, "chapter_id") == Null
  {
    Filter(Pages(bookId, tables), NotInChapter)
  }

  /** The relation's own `where('type', '=', 'chapter')`. */
  predicate IsChapterRow(row: Row) {
    WhereEquals(row, "type", Str("chapter"))
  }

  /** `chapters()`: the live chapters whose `book_id` is this book, of type `chapter`. */
  function Chapters(bookId: Value, tables: map<string, Table>): (r: Table)
    ensures forall m :: m in r <==>
      m in EntityScope.Live(Chapter, tables) && bookId != Null && Get(m, "book_id") == bookId && Get(m, "type") == Str("chapter")
  {
    Filter(Filter(EntityScope.Live(Chapter, tables), InBook(bookId)), IsChapterRow)
  }

  /** The relation's `type = 'chapter'` condition removes nothing: the scope already keeps only chapters. */
  lemma ChaptersTypeConditionRedundant(bookId: Value, tables: map<string, Table>)
    requires EntityScope.PayloadWellFormed(tables)
    ensures Chapters(bookId, tables) == Filter(EntityScope.Live(Chapter, tables), InBook(bookId))
  {
    EntityScope.LiveRowsHaveKind(Chapter, tables);
    FilterAll(Filter(EntityScope.Live(Chapter, tables), InBook(bookId)), IsChapterRow);
  }

  /** Pivot rows that put this book on a shelf. */
  function PivotOfBook(bookId: Value): Row -> bool {
    row => SqlEquals(Get(row, "book_id"), bookId)
  }

  /** The join condition of `shelves()`: the shelf row is the one the pivot row names. */
  predicate ShelfOfPivot(pivot: Row, shelf: Row) {
    SqlEquals(Get(shelf, "id"), Get(pivot, "bookshelf_id"))
  }

  /** `shelves()` selects the related row's own columns. */
  function RelatedRow(pivot: Row, related: Row): Row {
    related
  }

  /** `shelves()`: the live shelves linked to the book through the pivot table, in pivot order. */
  function Shelves(bookId: Value, tables: map<string, Table>): Table {
    InnerJoin(Filter(EntityScope.TableOf(tables, ShelfBooksTable), PivotOfBook(bookId)),
              EntityScope.Live(Bookshelf, tables), ShelfOfPivot, RelatedRow)
  }

  /** A shelf is among the book's shelves exactly when it is live and a pivot row links the two. */
  lemma ShelvesAreLinked(bookId: Value, tables: map<string, Table>, shelf: Row)
    ensures shelf in Shelves(bookId, tables) <==>
      shelf in EntityScope.Live(Bookshelf, tables) &&
      exists p | p in EntityScope.TableOf(tables, ShelfBooksTable) ::
        SqlEquals(Get(p, "book_id"), bookId) && SqlEquals(Get(shelf, "id"), Get(p, "bookshelf_id"))
  {
    var pivot := EntityScope.TableOf(tables, ShelfBooksTable);
    var links := Filter(pivot, PivotOfBook(bookId));
    var live := EntityScope.Live(Bookshelf, tables);
    InnerJoinRows(links, live, ShelfOfPivot, RelatedRow, shelf);
    if shelf in Shelves(bookId, tables) {
      var p, x :| p in links && x in live && ShelfOfPivot(p, x) && shelf == RelatedRow(p, x);
      assert p in pivot && PivotOfBook(bookId)(p);
    }
    if shelf in live && exists p | p in pivot :: SqlEquals(Get(p, "book_id"), bookId) && SqlEquals(Get(shelf, "id"), Get(p, "bookshelf_id")) {
      var p :| p in pivot && SqlEquals(Get(p, "book_id"), bookId) && SqlEquals(Get(shelf, "id"), Get(p, "bookshelf_id"));
      assert p in links && ShelfOfPivot(p, shelf) && shelf == RelatedRow(p, shelf);
    }
  }

  /** The value `sortBy('priority')` compares. */
  function Priority(row: Row): int {
    IntVal(Get(row, "priority"))
  }

  /** The value `sortByDesc('draft')` compares: a draft above everything else. */
  function DraftKey(row: Row): int {
    if Truthy(Get(row, "draft")) then 1 else 0
  }

  /** The visible direct pages, then the visible chapters, as the two queries return them. */
  function DirectVisible(bookId: Value, tables: map<string, Table>, visible: Row -> bool): Table {
    Filter(DirectPages(bookId, tables), visible) + Filter(Chapters(bookId, tables), visible)
  }

  /**
   * `->sortBy('priority')->sortByDesc('draft')`: a stable sort by priority, then a stable sort by
   * draft status, descending.
   */
  function DraftsFirst(s: Table): (r: Table)
    ensures multiset(r) == multiset(s)
    ensures forall i, j | 0 <= i < j < |r| :: DraftKey(r[i]) >= DraftKey(r[j])
  {
    SortByDesc(SortBy(s, Priority), DraftKey)
  }

  /**
   * Drafts come first, then the rest; within each group the rows are in ascending priority, equal
   * priorities in their original order.
   */
  lemma DraftsFirstOrder(s: Table)
    ensures DraftsFirst(s) == SortBy(Filter(s, KeyIs(DraftKey, 1)), Priority) + SortBy(Filter(s, KeyIs(DraftKey, 0)), Priority)
  {
    var byPriority := SortBy(s, Priority);
    SortByDescTwoValued(byPriority, DraftKey, 0, 1);
    FilterSortBy(s, Priority, KeyIs(DraftKey, 1));
    FilterSortBy(s, Priority, KeyIs(DraftKey, 0));
  }

  /** `getDirectVisibleChildren()`: the visible direct pages and chapters, drafts first. */
  function GetDirectVisibleChildren(bookId: Value, tables: map<string, Table>, visible: Row -> bool): (r: Table)
    ensures multiset(r) == multiset(DirectVisible(bookId, tables, visible))
  {
    DraftsFirst(DirectVisible(bookId, tables, visible))
  }

  /** The children are exactly the visible direct pages and the visible chapters. */
  lemma DirectVisibleChildrenMembers(bookId: Value, tables: map<string, Table>, visible: Row -> bool, m: Row)
    ensures m in GetDirectVisibleChildren(bookId, tables, visible) <==>
      visible(m) && (m in DirectPages(bookId, tables) || m in Chapters(bookId, tables))
  {
    SameMultisetSameMembers(GetDirectVisibleChildren(bookId, tables, visible), DirectVisible(bookId, tables, visible), m);
  }

  /**
   * Drafts come first, then the rest; within each group the children are in ascending priority,
   * equal priorities in query order.
   */
  lemma DirectVisibleChildrenOrder(bookId: Value, tables: map<string, Table>, visible: Row -> bool)
    ensures var all := DirectVisible(bookId, tables, visible);
      GetDirectVisibleChildren(bookId, tables, visible) ==
        SortBy(Filter(all, KeyIs(DraftKey, 1)), Priority) + SortBy(Filter(all, KeyIs(DraftKey, 0)), Priority)
  {
    DraftsFirstOrder(DirectVisible(bookId, tables, visible));
  }

  /** The characters `trim($path, '/')` removes. */
  const Slash: set<char> := {'/'}

  /**
   * The string `getUrl()` passes to `url()` (which adds the site base and drops a trailing `/`):
   * `/books/`, then the `/`-joined encoded slug and path with its surrounding slashes trimmed.
   * `urlencode` is supplied by the caller.
   */
  function GetUrl(slug: Value, path: string, urlencode: string -> string): string {
    "/books/" + Implode("/", [urlencode(StrCast(slug)), Trim(path, Slash)])
  }

  /** The book URL is the encoded slug between `/books/` and `/`, followed by the trimmed path. */
  lemma GetUrlShape(slug: Value, path: string, urlencode: string -> string)
    ensures GetUrl(slug, path, urlencode) == "/books/" + urlencode(StrCast(slug)) + "/" + Trim(path, Slash)
  {
    ImplodeCons("/", urlencode(StrCast(slug)), [Trim(path, Slash)]);
  }

  /** Slashes around the path, or trimming it beforehand, do not change the URL. */
  lemma GetUrlIgnoresSurroundingSlashes(slug: Value, path: string, urlencode: string -> string)
    ensures GetUrl(slug, "/" + path, urlencode) == GetUrl(slug, path, urlencode)
    ensures GetUrl(slug, path + "/", urlencode) == GetUrl(slug, path, urlencode)
    ensures GetUrl(slug, Trim(path, Slash), urlencode) == GetUrl(slug, path, urlencode)
  {
    TrimDropsSurrounding(path, Slash, '/');
    TrimIdempotent(path, Slash);
  }
}
