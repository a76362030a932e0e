/**
 * `Bookshelf`: the books on a shelf, read through the `bookshelves_books` pivot table and listed in
 * the pivot's `order`; the membership test; appending a book at the end of the shelf; the URL.
 */
module BookshelfModel {
  import opened Wrappers
  import opened Seqs
  import opened Sorting
  import opened Php
  import opened Tables
  import opened EntityKinds
  import EntityScope
  import BookModel

  import Entity

  /** `$fillable`: the only attribute a shelf takes from mass assignment. */
  const Fillable: seq<string> := ["name"]

  /** Mass assignment on a shelf changes at most its name, and takes the name when given one. */
  lemma FillOnlyName(attrs: Row, input: Row)
    ensures forall c | c != "name" :: Get(Entity.Fill(Fillable, attrs, input), c) == Get(attrs, c)
    ensures "name" in input ==> Get(Entity.Fill(Fillable, attrs, input), "name") == input["name"]
  {
  }

  /** Pivot rows that put a book on this shelf. */
  function PivotOfShelf(shelfId: Value): Row -> bool {
    row => SqlEquals(Get(row, "bookshelf_id"), shelfId)
  }

  /** The join condition of `books()`: the book row is the one the pivot row names. */
  predicate BookOfPivot(pivot: Row, book: Row) {
    SqlEquals(Get(book, "id"), Get(pivot, "book_id"))
  }

  /** `withPivot('order')`: the book row carrying its place on the shelf as `pivot_order`. */
  function WithPivotOrder(pivot: Row, book: Row): Row {
    book["pivot_order" := Get(pivot, "order")]
  }

  function PivotRows(tables: map<string, Table>): Table {
    EntityScope.TableOf(tables, ShelfBooksTable)
  }

  /** The pivot rows of this shelf, in table order. */
  function Links(shelfId: Value, tables: map<string, Table>): Table {
    Filter(PivotRows(tables), PivotOfShelf(shelfId))
  }

  /** The shelf's live books joined with their pivot rows, before ordering. */
  function Joined(shelfId: Value, tables: map<string, Table>): Table {
    InnerJoin(Links(shelfId, tables), EntityScope.Live(Book, tables), BookOfPivot, WithPivotOrder)
  }

  /** The value `orderBy('order', 'asc')` compares. */
  function Order(row: Row): int {
    IntVal(Get(row, "pivot_order"))
  }

  /** `books()`: the shelf's books in ascending pivot order, equal orders in join order. */
  function Books(shelfId: Value, tables: map<string, Table>): (r: Table)
    ensures multiset(r) == multiset(Joined(shelfId, tables))
    ensures SortedBy(r, Order)
  {
    SortBy(Joined(shelfId, tables), Order)
  }

  /** `visibleBooks()`: the permission scope is one more `where` on the same ordered query. */
  function VisibleBooks(shelfId: Value, tables: map<string, Table>, visible: Row -> bool): Table {
    SortBy(Filter(Joined(shelfId, tables), visible), Order)
  }

  /** The visible books are the shelf's books with the invisible ones taken out, order kept. */
  lemma VisibleBooksFilterBooks(shelfId: Value, tables: map<string, Table>, visible: Row -> bool)
    ensures VisibleBooks(shelfId, tables, visible) == Filter(Books(shelfId, tables), visible)
  {
    FilterSortBy(Joined(shelfId, tables), Order, visible);
  }

  /** `where('id', '=', $book->id)`. */
  function IdIs(id: Value): Row -> bool {
    row => WhereEquals(row, "id", id)
  }

  /** `contains()`: some book row of the shelf has the book's id. */
  predicate Contains(shelfId: Value, bookId: Value, tables: map<string, Table>) {
    |Filter(Books(shelfId, tables), IdIs(bookId))| > 0
  }

  /** A pivot row puts the book with id `bookId` (some live row of it) on the shelf. */
  predicate Linked(shelfId: Value, bookId: Value, tables: map<string, Table>) {
    exists p, b | p in PivotRows(tables) && b in EntityScope.Live(Book, tables) ::
      SqlEquals(Get(p, "bookshelf_id"), shelfId) && BookOfPivot(p, b) && Get(b, "id") == bookId
  }

  /** `contains()` holds exactly when a pivot row links the shelf to a live book with that id. */
  lemma ContainsIffLinked(shelfId: Value, bookId: Value, tables: map<string, Table>)
    ensures Contains(shelfId, bookId, tables) <==> Linked(shelfId, bookId, tables)
  {
    FilterNonEmpty(Books(shelfId, tables), IdIs(bookId));
    if Contains(shelfId, bookId, tables) {
      var m :| m in Books(shelfId, tables) && IdIs(bookId)(m);
      ContainsLinked(shelfId, bookId, tables, m);
    }
    if Linked(shelfId, bookId, tables) {
      LinkedContains(shelfId, bookId, tables);
    }
  }

  lemma ContainsLinked(shelfId: Value, bookId: Value, tables: map<string, Table>, m: Row)
    requires m in Books(shelfId, tables) && Get(m, "id") == bookId
    ensures Linked(shelfId, bookId, tables)
  {
    assert m in Joined(shelfId, tables) by {
      SameMultisetSameMembers(Books(shelfId, tables), Joined(shelfId, tables), m);
    }
    JoinedRowLinked(shelfId, tables, m);
  }

  /** A joined row is a live book merged with a pivot row of the shelf that names it. */
  lemma JoinedRowLinked(shelfId: Value, tables: map<string, Table>, m: Row)
    requires m in Joined(shelfId, tables)
    ensures exists p, b | p in PivotRows(tables) && b in EntityScope.Live(Book, tables) ::
      SqlEquals(Get(p, "bookshelf_id"), shelfId) && BookOfPivot(p, b) && Get(b, "id") == Get(m, "id")
  {
    var live := EntityScope.Live(Book, tables);
    var links := Links(shelfId, tables);
    InnerJoinRows(links, live, BookOfPivot, WithPivotOrder, m);
    var p, b :| p in links && b in live && BookOfPivot(p, b) && m == WithPivotOrder(p, b);
    assert p in PivotRows(tables) && SqlEquals(Get(p, "bookshelf_id"), shelfId);
  }

  lemma LinkedContains(shelfId: Value, bookId: Value, tables: map<string, Table>)
    requires Linked(shelfId, bookId, tables)
    ensures exists m | m in Books(shelfId, tables) :: IdIs(bookId)(m)
  {
    var p, b :| p in PivotRows(tables) && b in EntityScope.Live(Book, tables) &&
      SqlEquals(Get(p, "bookshelf_id"), shelfId) && BookOfPivot(p, b) && Get(b, "id") == bookId;
    var m := WithPivotOrder(p, b);
    LinkJoined(shelfId, tables, p, b);
    SameMultisetSameMembers(Books(shelfId, tables), Joined(shelfId, tables), m);
    assert IdIs(bookId)(m);
  }

  /** A pivot row of the shelf, merged with a live book it names, is a joined row. */
  lemma LinkJoined(shelfId: Value, tables: map<string, Table>, p: Row, b: Row)
    requires p in PivotRows(tables) && b in EntityScope.Live(Book, tables)
    requires SqlEquals(Get(p, "bookshelf_id"), shelfId) && BookOfPivot(p, b)
    ensures WithPivotOrder(p, b) in Joined(shelfId, tables)
  {
    var links := Links(shelfId, tables);
    assert p in links;
    InnerJoinRows(links, EntityScope.Live(Book, tables), BookOfPivot, WithPivotOrder, WithPivotOrder(p, b));
  }

  /** SQL `MAX(order)` over the shelf's books: NULL (here `None`) for a shelf with no books. */
  function MaxOrder(t: Table): (r: Option<int>)
    ensures r.None? <==> t == []
    ensures r.Some? ==> (forall m | m in t :: Order(m) <= r.value) && exists m | m in t :: Order(m) == r.value
  {
    if t == [] then None
    else match MaxOrder(t[1..])
      case None => Some(Order(t[0]))
      case Some(v) => Some(if Order(t[0]) > v then Order(t[0]) else v)
  }

  /** `$maxOrder + 1`, where PHP's `null + 1` is 1. */
  function NextOrder(shelfId: Value, tables: map<string, Table>): int {
    match MaxOrder(Joined(shelfId, tables))
    case None => 1
    case Some(v) => v + 1
  }

  /** The next order is above every book already on the shelf, and 1 on an empty shelf. */
  lemma NextOrderAboveAll(shelfId: Value, tables: map<string, Table>)
    ensures forall m | m in Books(shelfId, tables) :: Order(m) < NextOrder(shelfId, tables)
    ensures Books(shelfId, tables) == [] ==> NextOrder(shelfId, tables) == 1
  {
    forall m | m in Books(shelfId, tables) ensures m in Joined(shelfId, tables) {
      SameMultisetSameMembers(Books(shelfId, tables), Joined(shelfId, tables), m);
    }
  }

  /** The pivot row `attach()` writes. */
  function PivotRow(shelfId: Value, bookId: Value, order: int): Row {
    map["bookshelf_id" := shelfId, "book_id" := bookId, "order" := Int(order)]
  }

  /** The tables after `appendBook()`. */
  function AppendEffect(shelfId: Value, bookId: Value, tables: map<string, Table>): map<string, Table> {
    if Contains(shelfId, bookId, tables) then tables
    else tables[ShelfBooksTable := PivotRows(tables) + [PivotRow(shelfId, bookId, NextOrder(shelfId, tables))]]
  }

  /**
   * `appendBook()`: nothing when the book is already on the shelf; otherwise one pivot row
   * attaching it with the next order.
   */
  method AppendBook(db: Database, shelfId: Value, bookId: Value)
    modifies db
    ensures db.tables == AppendEffect(shelfId, bookId, old(db.tables))
  {
    var tables := db.tables;
    if Contains(shelfId, bookId, tables) {
      return;
    }
    var order := NextOrder(shelfId, tables);
    db.InsertUsing(ShelfBooksTable, [PivotRow(shelfId, bookId, order)]);
  }

  /** A change to the pivot table leaves every entity query as it was. */
  lemma LiveIgnoresPivot(tables: map<string, Table>, rows: Table, k: Kind)
    ensures EntityScope.Live(k, tables[ShelfBooksTable := rows]) == EntityScope.Live(k, tables)
  {
    var t := tables[ShelfBooksTable := rows];
    assert EntityScope.TableOf(t, IdentityTable) == EntityScope.TableOf(tables, IdentityTable);
    assert EntityScope.TableOf(t, EntityScope.JoinTable(EntityScope.Apply(k).join)) ==
      EntityScope.TableOf(tables, EntityScope.JoinTable(EntityScope.Apply(k).join));
  }

  /** The tables after attaching a pivot row. */
  function Attached(tables: map<string, Table>, p: Row): map<string, Table> {
    tables[ShelfBooksTable := PivotRows(tables) + [p]]
  }

  /** An attached pivot row links the shelf to the book it names. */
  lemma AttachedLinks(shelfId: Value, bookId: Value, order: int, tables: map<string, Table>, book: Row)
    requires shelfId != Null && bookId != Null
    requires book in EntityScope.Live(Book, tables) && Get(book, "id") == bookId
    ensures Linked(shelfId, bookId, Attached(tables, PivotRow(shelfId, bookId, order)))
  {
    var p := PivotRow(shelfId, bookId, order);
    var t := Attached(tables, p);
    LiveIgnoresPivot(tables, PivotRows(tables) + [p], Book);
    assert p in PivotRows(t);
    assert SqlEquals(Get(p, "bookshelf_id"), shelfId) && BookOfPivot(p, book);
  }

  /** After appending, the shelf contains the book, provided the book is live. */
  lemma AppendThenContains(shelfId: Value, bookId: Value, tables: map<string, Table>, book: Row)
    requires shelfId != Null && bookId != Null
    requires book in EntityScope.Live(Book, tables) && Get(book, "id") == bookId
    ensures Contains(shelfId, bookId, AppendEffect(shelfId, bookId, tables))
  {
    if !Contains(shelfId, bookId, tables) {
      var order := NextOrder(shelfId, tables);
      AttachedLinks(shelfId, bookId, order, tables, book);
      ContainsIffLinked(shelfId, bookId, Attached(tables, PivotRow(shelfId, bookId, order)));
    }
  }

  /** Appending a live book twice is appending it once: no pivot row is ever duplicated. */
  lemma AppendIdempotent(shelfId: Value, bookId: Value, tables: map<string, Table>, book: Row)
    requires shelfId != Null && bookId != Null
    requires book in EntityScope.Live(Book, tables) && Get(book, "id") == bookId
    ensures AppendEffect(shelfId, bookId, AppendEffect(shelfId, bookId, tables)) == AppendEffect(shelfId, bookId, tables)
  {
    AppendThenContains(shelfId, bookId, tables, book);
  }

  /** The shelf's pivot rows after appending: the old ones, then the new one. */
  lemma AppendLinks(shelfId: Value, bookId: Value, tables: map<string, Table>)
    requires shelfId != Null
    requires !Contains(shelfId, bookId, tables)
    ensures Links(shelfId, AppendEffect(shelfId, bookId, tables)) ==
      Links(shelfId, tables) + [PivotRow(shelfId, bookId, NextOrder(shelfId, tables))]
  {
    var p := PivotRow(shelfId, bookId, NextOrder(shelfId, tables));
    FilterSnoc(PivotRows(tables), p, PivotOfShelf(shelfId));
  }

  /** The pivot row of a book with a non-NULL id matches exactly the live rows with that id. */
  lemma MatchingNewLink(shelfId: Value, bookId: Value, order: int, tables: map<string, Table>)
    requires bookId != Null
    ensures Matching(PivotRow(shelfId, bookId, order), EntityScope.Live(Book, tables), BookOfPivot) ==
      Filter(EntityScope.Live(Book, tables), IdIs(bookId))
  {
    MatchingIsFilter(PivotRow(shelfId, bookId, order), EntityScope.Live(Book, tables), BookOfPivot, IdIs(bookId));
  }

  /** The joined rows after appending: the old ones, then the new book with its order. */
  lemma AppendJoined(shelfId: Value, bookId: Value, tables: map<string, Table>, book: Row)
    requires shelfId != Null && bookId != Null
    requires Filter(EntityScope.Live(Book, tables), IdIs(bookId)) == [book]
    requires !Contains(shelfId, bookId, tables)
    ensures Joined(shelfId, AppendEffect(shelfId, bookId, tables)) ==
      Joined(shelfId, tables) + [WithPivotOrder(PivotRow(shelfId, bookId, NextOrder(shelfId, tables)), book)]
  {
    var t := AppendEffect(shelfId, bookId, tables);
    var p := PivotRow(shelfId, bookId, NextOrder(shelfId, tables));
    var live := EntityScope.Live(Book, tables);
    LiveIgnoresPivot(tables, PivotRows(tables) + [p], Book);
    AppendLinks(shelfId, bookId, tables);
    InnerJoinSnoc(Links(shelfId, tables), p, live, BookOfPivot, WithPivotOrder);
    MatchingNewLink(shelfId, bookId, NextOrder(shelfId, tables), tables);
    assert Map([book], MergeLeft(p, WithPivotOrder)) == [WithPivotOrder(p, book)];
  }

  /**
   * A book not yet on the shelf is appended last, with order one above the current maximum (1 on
   * an empty shelf); every other book keeps its place and its order.
   */
  lemma AppendPlacesLast(shelfId: Value, bookId: Value, tables: map<string, Table>, book: Row)
    requires shelfId != Null && bookId != Null
    requires Filter(EntityScope.Live(Book, tables), IdIs(bookId)) == [book]
    requires !Contains(shelfId, bookId, tables)
    ensures var added := WithPivotOrder(PivotRow(shelfId, bookId, NextOrder(shelfId, tables)), book);
      && Books(shelfId, AppendEffect(shelfId, bookId, tables)) == Books(shelfId, tables) + [added]
      && Order(added) == NextOrder(shelfId, tables)
  {
    var next := NextOrder(shelfId, tables);
    var added := WithPivotOrder(PivotRow(shelfId, bookId, next), book);
    AppendJoined(shelfId, bookId, tables, book);
    assert Order(added) == next;
    var joined := Joined(shelfId, tables);
    NextOrderAboveAll(shelfId, tables);
    forall y | y in joined ensures Order(y) < Order(added) {
      SameMultisetSameMembers(Books(shelfId, tables), joined, y);
    }
    SortByGreatestLast(joined, added, Order);
  }

  /** The book's shelves and the shelf's books are read from the same pivot rows. */
  lemma ShelvesBooksInverse(shelf: Row, book: Row, tables: map<string, Table>)
    requires shelf in EntityScope.Live(Bookshelf, tables)
    requires book in EntityScope.Live(Book, tables)
    ensures shelf in BookModel.Shelves(Get(book, "id"), tables) <==> Contains(Get(shelf, "id"), Get(book, "id"), tables)
  {
    var shelfId, bookId := Get(shelf, "id"), Get(book, "id");
    BookModel.ShelvesAreLinked(bookId, tables, shelf);
    ContainsIffLinked(shelfId, bookId, tables);
    if Linked(shelfId, bookId, tables) {
      var p, b :| p in PivotRows(tables) && b in EntityScope.Live(Book, tables) &&
        SqlEquals(Get(p, "bookshelf_id"), shelfId) && BookOfPivot(p, b) && Get(b, "id") == bookId;
      assert SqlEquals(Get(p, "book_id"), bookId) && SqlEquals(Get(shelf, "id"), Get(p, "bookshelf_id"));
    }
    if shelf in BookModel.Shelves(bookId, tables) {
      var p :| p in PivotRows(tables) &&
        SqlEquals(Get(p, "book_id"), bookId) && SqlEquals(Get(shelf, "id"), Get(p, "bookshelf_id"));
      assert SqlEquals(Get(p, "bookshelf_id"), shelfId) && BookOfPivot(p, book);
    }
  }

  /** The string `getUrl()` passes to `url()`: `/shelves/`, then the `/`-joined encoded slug and trimmed path. */
  function GetUrl(slug: Value, path: string, urlencode: string -> string): string {
    "/shelves/" + Implode("/", [urlencode(StrCast(slug)), Trim(path, BookModel.Slash)])
  }

  /** The shelf URL is the encoded slug between `/shelves/` and `/`, followed by the trimmed path. */
  lemma GetUrlShape(slug: Value, path: string, urlencode: string -> string)
    ensures GetUrl(slug, path, urlencode) == "/shelves/" + urlencode(StrCast(slug)) + "/" + Trim(path, BookModel.Slash)
  {
    ImplodeCons("/", urlencode(StrCast(slug)), [Trim(path, BookModel.Slash)]);
  }

  /** Slashes around the path do not change the URL. */
  lemma GetUrlIgnoresSurroundingSlashes(slug: Value, path: string, urlencode: string -> string)
    ensures GetUrl(slug, "/" + path + "/", urlencode) == GetUrl(slug, path, urlencode)
  {
    GetUrlShape(slug, path, urlencode);
    GetUrlShape(slug, "/" + path + "/", urlencode);
    TrimDropsSurrounding(path, BookModel.Slash, '/');
    TrimDropsSurrounding("/" + path, BookModel.Slash, '/');
  }
}
