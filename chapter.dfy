/**
 * `Chapter`: the pages a chapter holds, ordered by priority; the visible pages, with drafts listed
 * first; and the chapter's URL under its book's.
 */
module ChapterModel {
  import opened Seqs
  import opened Sorting
  import opened Php
  import opened Tables
  import opened EntityKinds
  import EntityScope
  import Entity
  import BookModel

  /** `$fillable`: the attributes a chapter takes from mass assignment. */
  const Fillable: seq<string> := ["name", "priority"]

  /** Mass assignment on a chapter changes at most its name and priority, and takes them when given. */
  lemma FillOnlyNameAndPriority(attrs: Row, input: Row)
    ensures forall c | c != "name" && c != "priority" :: Get(Entity.Fill(Fillable, attrs, input), c) == Get(attrs, c)
    ensures forall c | c in input && (c == "name" || c == "priority") :: Get(Entity.Fill(Fillable, attrs, input), c) == input[c]
  {
  }

  /** The `chapter_id` foreign key names the chapter (SQL equality: a NULL id matches nothing). */
  function InChapter(chapterId: Value): Row -> bool {
    row => SqlEquals(Get(row, "chapter_id"), chapterId)
  }

  /** The live pages of the chapter, in table order. */
  function ChapterPages(chapterId: Value, tables: map<string, Table>): (r: Table)
    ensures forall m :: m in r <==> m in EntityScope.Live(Page, tables) && chapterId != Null && Get(m, "chapter_id") == chapterId
  {
    Filter(EntityScope.Live(Page, tables), InChapter(chapterId))
  }

  /** The direction `orderBy` is given. */
  datatype Direction = Asc | Desc

  /** `pages($dir)`: the chapter's pages ordered by priority in the given direction, ascending by default. */
  function Pages(chapterId: Value, tables: map<string, Table>, dir: Direction := Asc): (r: Table)
    ensures multiset(r) == multiset(ChapterPages(chapterId, tables))
    ensures dir == Asc ==> SortedBy(r, BookModel.Priority)
    ensures dir == Desc ==> forall i, j | 0 <= i < j < |r| :: BookModel.Priority(r[i]) >= BookModel.Priority(r[j])
  {
    if dir == Asc then SortBy(ChapterPages(chapterId, tables), BookModel.Priority)
    else SortByDesc(ChapterPages(chapterId, tables), BookModel.Priority)
  }

  /** The chapter's pages that pass the permission scope, in table order. */
  function VisibleRows(chapterId: Value, tables: map<string, Table>, visible: Row -> bool): Table {
    Filter(ChapterPages(chapterId, tables), visible)
  }

  /**
   * `ORDER BY priority ASC, draft DESC, priority ASC`: the relation's own ordering comes first, so
   * the draft flag only breaks ties in priority. Several keys are a stable sort per key, the last
   * key first.
   */
  function OrderAsWritten(s: Table): (r: Table)
    ensures multiset(r) == multiset(s)
    ensures SortedBy(r, BookModel.Priority)
  {
    SortBy(SortByDesc(SortBy(s, BookModel.Priority), BookModel.DraftKey), BookModel.Priority)
  }

  /** `getVisiblePages()` as the query is written: ordered by priority before anything else. */
  function GetVisiblePagesAsWritten(chapterId: Value, tables: map<string, Table>, visible: Row -> bool): (r: Table)
    ensures multiset(r) == multiset(VisibleRows(chapterId, tables, visible))
    ensures SortedBy(r, BookModel.Priority)
  {
    OrderAsWritten(VisibleRows(chapterId, tables, visible))
  }

  /** A page with priority 1 that is not a draft. */
  const Published: Row := map["priority" := Int(1), "draft" := Bool(false)]

  /** A draft page with priority 2. */
  const Draft: Row := map["priority" := Int(2), "draft" := Bool(true)]

  /** The priorities and draft flags of the two sample pages. */
  lemma SampleKeys()
    ensures BookModel.Priority(Published) == 1 && BookModel.Priority(Draft) == 2
    ensures BookModel.DraftKey(Published) == 0 && BookModel.DraftKey(Draft) == 1
  {
    assert Published["priority"] == Int(1) && Draft["priority"] == Int(2);
    assert Published["draft"] == Bool(false) && Draft["draft"] == Bool(true);
  }

  /**
   * The query as written does not list drafts first: a draft with a higher priority number comes
   * after a published page, whereas the drafts-first order lists it before.
   */
  lemma AsWrittenListsDraftLast()
    ensures OrderAsWritten([Published, Draft]) == [Published, Draft]
    ensures BookModel.DraftsFirst([Published, Draft]) == [Draft, Published]
  {
    SampleKeys();
    SortPair(Published, Draft, BookModel.Priority);
    SortByDescIsSortBy([Published, Draft], BookModel.DraftKey);
    SortPair(Published, Draft, Negated(BookModel.DraftKey));
    SortPair(Draft, Published, BookModel.Priority);
  }

  /** `getVisiblePages()` as intended: the visible pages, drafts first, each group by priority. */
  function GetVisiblePages(chapterId: Value, tables: map<string, Table>, visible: Row -> bool): (r: Table)
    ensures multiset(r) == multiset(VisibleRows(chapterId, tables, visible))
  {
    BookModel.DraftsFirst(VisibleRows(chapterId, tables, visible))
  }

  /** The visible pages are exactly the chapter's live pages that pass the permission scope. */
  lemma GetVisiblePagesMembers(chapterId: Value, tables: map<string, Table>, visible: Row -> bool, m: Row)
    ensures m in GetVisiblePages(chapterId, tables, visible) <==> m in ChapterPages(chapterId, tables) && visible(m)
  {
    SameMultisetSameMembers(GetVisiblePages(chapterId, tables, visible), VisibleRows(chapterId, tables, visible), m);
  }

  /** Drafts first, then the rest; each group in ascending priority, equal priorities in table order. */
  lemma GetVisiblePagesOrder(chapterId: Value, tables: map<string, Table>, visible: Row -> bool)
    ensures var rows := VisibleRows(chapterId, tables, visible);
      GetVisiblePages(chapterId, tables, visible) ==
        SortBy(Filter(rows, KeyIs(BookModel.DraftKey, 1)), BookModel.Priority) +
        SortBy(Filter(rows, KeyIs(BookModel.DraftKey, 0)), BookModel.Priority)
  {
    BookModel.DraftsFirstOrder(VisibleRows(chapterId, tables, visible));
  }

  /**
   * `$this->book_slug ?? $this->book->slug`: the `book_slug` a query may have selected onto the
   * chapter, else the slug of its book (`bookSlug`, read through the `book` relation).
   */
  function BookSlug(attrs: Row, bookSlug: Value): Value {
    if Get(attrs, "book_slug") != Null then Get(attrs, "book_slug") else bookSlug
  }

  /**
   * The string `getUrl()` passes to `url()`: `/` and the `/`-joined `books`, encoded book slug, `chapter`,
   * encoded chapter slug and path with its surrounding slashes trimmed.
   */
  function GetUrl(attrs: Row, bookSlug: Value, path: string, urlencode: string -> string): string {
    "/" + Implode("/", [
      "books",
      urlencode(StrCast(BookSlug(attrs, bookSlug))),
      "chapter",
      urlencode(StrCast(Get(attrs, "slug"))),
      Trim(path, BookModel.Slash)
    ])
  }

  /**
   * A chapter's URL sits under its book's URL: the book URL with an empty path, then the
   * `/`-joined `chapter`, encoded chapter slug and trimmed path.
   */
  lemma GetUrlUnderBook(attrs: Row, bookSlug: Value, path: string, urlencode: string -> string)
    ensures GetUrl(attrs, bookSlug, path, urlencode) ==
      BookModel.GetUrl(BookSlug(attrs, bookSlug), "", urlencode) +
      Implode("/", ["chapter", urlencode(StrCast(Get(attrs, "slug"))), Trim(path, BookModel.Slash)])
  {
    var b := urlencode(StrCast(BookSlug(attrs, bookSlug)));
    var c, t := urlencode(StrCast(Get(attrs, "slug"))), Trim(path, BookModel.Slash);
    ImplodeUnderBook(b, c, t);
    BookModel.GetUrlShape(BookSlug(attrs, bookSlug), "", urlencode);
    assert Trim("", BookModel.Slash) == "";
    BookPrefix(b, Implode("/", ["chapter", c, t]));
  }

  /** Joining the five segments splits after the book's slug. */
  lemma ImplodeUnderBook(b: string, c: string, t: string)
    ensures Implode("/", ["books", b, "chapter", c, t]) == ("books" + "/") + ((b + "/") + Implode("/", ["chapter", c, t]))
  {
    ImplodeCons("/", "books", [b, "chapter", c, t]);
    assert ["books"] + [b, "chapter", c, t] == ["books", b, "chapter", c, t];
    ImplodeCons("/", b, ["chapter", c, t]);
    assert [b] + ["chapter", c, t] == [b, "chapter", c, t];
  }

  /** Regrouping the leading `/books/<slug>/`. */
  lemma BookPrefix(b: string, rest: string)
    ensures "/" + (("books" + "/") + ((b + "/") + rest)) == ("/books/" + b + "/" + "") + rest
  {
    assert "/" + ("books" + "/") == "/books/";
    ConcatAssoc("/", "books" + "/", (b + "/") + rest);
    ConcatAssoc("/books/", b + "/", rest);
    ConcatAssoc("/books/", b, "/");
    assert ("/books/" + b) + "/" + "" == ("/books/" + b) + "/";
  }
}
