# BookStack content store, modelled in Dafny

This project models the core of BookStack's polymorphic content store and proves properties of it.
Shelves, books, chapters and pages all keep their identity in one table, `entities`, which has a
`type` discriminator. Each kind keeps its own fields in one of two payload tables:

- `entity_container_data` holds shelves, books and chapters, keyed by (`entity_id`, `entity_type`);
- `entity_page_data` holds pages, keyed by `page_id`.

The model covers five areas.

- **Storage.** It models how a model's attribute bag is split between the identity row and the
  payload row on save, and merged back afterwards (`Entity`, `EntityContainerData`,
  `EntityPageData`). It also models the global `entity` scope, which cannot be removed. That scope
  filters every query to one kind and left-joins the right payload table (`EntityScope`,
  `EntityQueryBuilder`).
- **Hierarchy.** It models the relations between shelves, books, chapters and pages. That
  includes containment, the static parent, a book's direct children and their order, a chapter's
  pages, the shelf/book pivot with append-at-the-end, and URLs (`BookModel`, `BookshelfModel`,
  `ChapterModel`).
- **Container attribute tools.** These are the HTML/plain description pair, the default template
  reference and the cover image (`EntityHtmlDescription`, `EntityDefaultTemplate`,
  `EntityCover`).
- **Repositories.** These are the create and update steps common to every entity, and the book
  repository's template, sort rule and cover handling (`BaseRepo`, `BookRepo`). They also include
  the user life cycle (`UserRepo`):
  - the only-admin and guest guards;
  - role assignment;
  - deletion with its clean-up;
  - ownership migration.
- **Migrations.** These split the old per-kind tables into the new layout and join them back on
  rollback (`MigrateEntityData`, `DropOldEntityTables`). They also clear dangling user and entity
  references (`CleanUserIdReferences`, `UpdateEntityRelationColumns`).

A database is a `Tables.Database` object: named tables changed in place by the statements run
against it. A table is a sequence of rows, and a row maps column names to PHP scalar values. A
column a row lacks reads as NULL. Queries are functions on tables: filters, updates, deletes and
left joins. The PHP built-ins the code relies on are defined in `Php`, with the loose semantics the
code depends on:

- `intval`, `strval` and loose `in_array`;
- `array_filter`;
- `trim`, `implode` and `mb_substr`;
- `e()` and `nl2br`.

The other modules are shared helpers:

- `Seqs` and `Sorting`: sequence lemmas and the stable sort that stands in for an `ORDER BY`;
- `ColumnLists`: the lists of columns the migrations walk;
- `Wrappers`: `Option` and `Result`.

Operations that change state are methods on `Database` or on a model object. Each is proved
against a function describing its effect, and the lemmas beside that function state what BookStack
promises.

## Model

| member | source | states |
|---|---|---|
| EntityKinds.KindOfType | app/Entities/Models/Entity.php:332-337 | a stored `type` value maps back to a kind only if it is that kind's lower-cased class name |
| EntityKinds.KindOfTypeName | app/Entities/Models/Entity.php:332-337 | every kind's `type` value reads back as that kind |
| EntityKinds.TypeNameInjective | app/Entities/Models/Entity.php:332-337 | two kinds never share a `type` discriminator |
| EntityKinds.TypeName | app/Entities/Models/Entity.php:332-337 | `getType()`: the lower-cased class name of each kind; that it reads back and is injective is stated by `KindOfTypeName` and `TypeNameInjective` |
| EntityKinds.IsContainer | app/Entities/Models/Entity.php:141-146 | `isContainer()`: shelves, books and chapters; which payload list follows from it is stated by `Entity.PayloadFieldsByKind` |
| EntityContainerData.FieldsDisjointFromCommon | app/Entities/Models/EntityContainerData.php:23-29 | no container payload field or payload column is one of the entity's common identity columns |
| EntityContainerData.KeyAddressesOneRow | app/Entities/Models/EntityContainerData.php:34-51 | with the composite key unique, a keyed save or select on (`entity_id`, `entity_type`) reaches at most one row |
| EntityContainerData.KindsOwnDistinctRows | app/Entities/Models/EntityContainerData.php:34-51 | a payload row that belongs to one kind under an id belongs to no other kind under that id |
| EntityPageData.FieldsAreColumns | app/Entities/Models/EntityPageData.php:13-24 | every page payload field is a column of `entity_page_data` and none is the `page_id` key |
| EntityPageData.FieldsDisjointFromCommon | app/Entities/Models/EntityPageData.php:16-24 | no page payload field or column is one of the entity's common identity columns |
| EntityPageData.KeyAddressesOneRow | app/Entities/Models/EntityPageData.php:13 | with `page_id` a primary key, a lookup by page id finds at most one row |
| EntityScope.PayloadHasNoCommonColumn | app/Entities/Models/EntityScope.php:15-26 | a payload row of a well-formed payload table holds none of the identity columns, so the join cannot overwrite them |
| EntityScope.QueryRowsHaveKind | app/Entities/Models/EntityScope.php:17 | every row the scoped query returns has the model's `type` |
| EntityScope.KeepsIdentityRows | app/Entities/Models/EntityScope.php:19-25 | the join is a left join: every identity row of the kind comes back with all its identity columns, payload or not |
| EntityScope.JoinedPayloadBelongs | app/Entities/Models/EntityScope.php:19-24 | a joined payload row has the entity's id as `page_id`, or as `entity_id` together with the kind's `entity_type` |
| EntityScope.Live | app/Entities/Models/Entity.php:64 | a relation sees exactly the scoped rows that are not soft-deleted |
| EntityScope.LiveRowsHaveKind | app/Entities/Models/EntityScope.php:15-26 | every live row of a relation has the kind's `type` and a null `deleted_at` |
| EntityQueryBuilder.AfterForceDelete | app/Entities/Models/EntityQueryBuilder.php:34-37 | a force delete never adds rows |
| EntityQueryBuilder.ForceDeleteOnlyOwnKind | app/Entities/Models/EntityQueryBuilder.php:34-37 | a force delete removes exactly the rows of the builder's kind meeting every condition, and never a row of another kind |
| EntityQueryBuilder.Builder.constructor | app/Entities/Models/EntityQueryBuilder.php:13-18 | a new builder has the `entity` scope registered and no conditions |
| EntityQueryBuilder.Builder.WithGlobalScope | app/Entities/Models/EntityQueryBuilder.php:17 | registering a scope adds its name and keeps the builder valid |
| EntityQueryBuilder.Builder.WithoutGlobalScope | app/Entities/Models/EntityQueryBuilder.php:20-28 | returns the builder itself; the `entity` scope can never be removed, any other named scope is |
| EntityQueryBuilder.Builder.ForceDelete | app/Entities/Models/EntityQueryBuilder.php:34-37 | the identity table loses exactly the rows `AfterForceDelete` drops, and the count returned is how many went |
| EntityQueryBuilder.ResultsOnlyOwnKind | app/Entities/Models/EntityQueryBuilder.php:13-28 | whatever conditions are added or scopes removed, a builder returns only rows of its own kind |
| Entity.PayloadFieldsByKind | app/Entities/Models/Entity.php:460-472 | containers keep the container field list in their payload, pages the page field list, and neither list names an identity column |
| Entity.SplitPartitions | app/Entities/Models/Entity.php:460-472 | the content attributes and the rest split the attribute bag: disjoint, exactly the payload fields go to the contents, and together they rebuild it |
| Entity.ContentsKeys | app/Entities/Models/Entity.php:117-120 | unsetting the content keys leaves exactly the identity part |
| Entity.LoadPayload | app/Entities/Models/Entity.php:114 | `firstOrNew` on the related data: a stored row comes from the table and is related to the entity; otherwise a new row holding only the foreign key |
| Entity.SaveRestoresAttributes | app/Entities/Models/Entity.php:111-136 | after `save` the attribute bag is the old one with the kind's `type` set, plus the new id on an insert: the content fields are filled back |
| Entity.SavePayloadAfterIdentity | app/Entities/Models/Entity.php:123-135 | a refused identity save writes nothing; the payload table changes only when the payload is dirty and accepted; the result is true exactly when both writes that ran succeeded |
| Entity.SaveTouchesOnly | app/Entities/Models/Entity.php:111-136 | `save` writes no table other than `entities` and the kind's payload table |
| Entity.SaveInsertsKeyedPayload | app/Entities/Models/Entity.php:126-131 | a new payload row is appended, keyed by the entity's id (and type for containers) and holding the entity's payload fields |
| Entity.NewPayloadRowKeys | app/Entities/Models/Entity.php:127-128 | the force-filled payload row carries the key columns and the content fields |
| Entity.SaveAppendsPayload | app/Entities/Models/Entity.php:126-131 | when no payload row existed the payload table gains exactly the new keyed row at its end |
| Entity.SaveKeepsIdentityRowsSplit | app/Entities/Models/Entity.php:117-123 | if no identity row holds a payload field before `save`, none does after |
| Entity.MoveContents | app/Entities/Models/Entity.php:117-120 | the loop moves each content field from the entity's attributes to the payload model |
| Entity.Fill | app/Entities/Repos/BaseRepo.php:77 | mass assignment takes exactly the fillable keys of the input and keeps every other attribute |
| Entity.EntityModel.GetContentsAttributes | app/Entities/Models/Entity.php:460-472 | the returned fields are the attributes whose keys are the kind's payload fields |
| Entity.EntityModel.Save | app/Entities/Models/Entity.php:111-136 | the database, attributes, original, stored flag and result after `save` are those of `SaveEffect` |
| Entity.EntityModel.GetShortName | app/Entities/Models/Entity.php:342-349 | a name within the length comes back whole; a longer one is cut to `length - 3` characters plus `...`, `length` characters in all |
| Entity.EntityModel.GetExcerpt | app/Entities/Models/Entity.php:354-363 | a text within the limit comes back trimmed; a longer one is its first `length - 3` characters plus `...`, trimmed; the excerpt is never longer than the limit |
| Entity.EntityModel.Matches | app/Entities/Models/Entity.php:187-190 | `matches()`: same kind and identical id; used by `ContainmentOnlyDownward` |
| Entity.EntityModel.MatchesOrContains | app/Entities/Models/Entity.php:195-210 | `matchesOrContains()`: the same entity, a book holding a chapter or page by `book_id`, a chapter holding a page by `chapter_id`; its cases are stated both ways by `ContainmentOnlyDownward` |
| Entity.EntityModel.GetParent | app/Entities/Models/Entity.php:375-389 | `getParent()`: the chapter or book a page names, the book a chapter names, soft-deleted ones included; stated both ways by `GetParentIsNamedParent` |
| Entity.SaveEffect | app/Entities/Models/Entity.php:111-136 | the tables and attributes after `save()`; its properties are the `Save*` lemmas and `EntityModel.Save` is proved against it |
| Entity.ContainmentOnlyDownward | app/Entities/Models/Entity.php:187-210 | an entity matches itself; a book contains a chapter or page exactly when its `book_id` is the book's id; a chapter contains a page exactly when its `chapter_id` is the chapter's id; in every other pairing containment is matching |
| Entity.GetParentIsNamedParent | app/Entities/Models/Entity.php:375-389 | shelves and books have no parent; a page's parent is its chapter when `chapter_id` is set, else its book; a chapter's is its book; a parent is found exactly when a row of that kind with the named id exists |
| Entity.ParentContainsChild | app/Entities/Models/Entity.php:195-210 | the parent `getParent` finds contains the child by `matchesOrContains` |
| BookModel.FillOnlyName | app/Entities/Models/Book.php:37 | mass assignment on a book changes at most `name`, and sets it when the input has it |
| BookModel.Pages | app/Entities/Models/Book.php:51-54 | the book's pages are exactly the live pages whose `book_id` is the book's id |
| BookModel.DirectPages | app/Entities/Models/Book.php:59-62 | the direct pages are exactly the book's pages with a null `chapter_id` |
| BookModel.Chapters | app/Entities/Models/Book.php:68-72 | the chapters are exactly the live chapter rows of the book with `type` = chapter |
| BookModel.ChaptersTypeConditionRedundant | app/Entities/Models/Book.php:68-72 | the extra `type` condition changes nothing: the scope already limits the rows to chapters |
| BookModel.ShelvesAreLinked | app/Entities/Models/Book.php:77-80 | a shelf is among the book's shelves exactly when it is live and a pivot row links it to the book |
| BookModel.DraftsFirst | app/Entities/Models/Book.php:90 | sorting by `draft` descending permutes the rows and puts drafts first |
| BookModel.DraftsFirstOrder | app/Entities/Models/Book.php:90 | the stable sorts give the drafts in priority order, then the other rows in priority order |
| BookModel.GetDirectVisibleChildren | app/Entities/Models/Book.php:85-91 | the children are a permutation of the visible direct pages followed by the visible chapters |
| BookModel.DirectVisibleChildrenMembers | app/Entities/Models/Book.php:85-91 | a row is a child exactly when it is visible and a direct page or a chapter of the book |
| BookModel.DirectVisibleChildrenOrder | app/Entities/Models/Book.php:85-91 | the children are the drafts by priority, then the rest by priority |
| BookModel.GetUrlShape | app/Entities/Models/Book.php:42-45 | the URL path is `/books/`, the encoded slug, `/` and the path with surrounding slashes trimmed |
| BookModel.GetUrl | app/Entities/Models/Book.php:42-45 | the string `getUrl()` passes to `url()` (which adds the site base and drops a trailing `/`); its shape is stated by `GetUrlShape` |
| BookModel.GetUrlIgnoresSurroundingSlashes | app/Entities/Models/Book.php:42-45 | leading or trailing slashes on the path do not change the URL |
| BookshelfModel.FillOnlyName | app/Entities/Models/Bookshelf.php:23 | mass assignment changes only the name, and takes it when given |
| BookshelfModel.Books | app/Entities/Models/Bookshelf.php:29-35 | the shelf's books are a permutation of the live books joined to its pivot rows, ordered by pivot order |
| BookshelfModel.VisibleBooksFilterBooks | app/Entities/Models/Bookshelf.php:40-43 | the visible books are the shelf's books filtered by visibility, order kept |
| BookshelfModel.VisibleBooks | app/Entities/Models/Bookshelf.php:40-43 | `visibleBooks()`: the shelf query with the permission scope added; `VisibleBooksFilterBooks` states it is an order-keeping filter of the books |
| BookshelfModel.ContainsIffLinked | app/Entities/Models/Bookshelf.php:56-59 | the shelf contains a book exactly when a pivot row of the shelf names a live book with that id |
| BookshelfModel.Contains | app/Entities/Models/Bookshelf.php:56-59 | `contains()`: some listed book has the id; `ContainsIffLinked` states when that holds |
| BookshelfModel.ContainsLinked | app/Entities/Models/Bookshelf.php:56-59 | a book found among the shelf's books is linked through a pivot row |
| BookshelfModel.JoinedRowLinked | app/Entities/Models/Bookshelf.php:29-35 | every joined row comes from a pivot row of the shelf and a live book |
| BookshelfModel.LinkedContains | app/Entities/Models/Bookshelf.php:56-59 | a linked book is found among the shelf's books |
| BookshelfModel.LinkJoined | app/Entities/Models/Bookshelf.php:29-35 | a pivot row of the shelf and the live book it names give a joined row |
| BookshelfModel.MaxOrder | app/Entities/Models/Bookshelf.php:70 | the maximum pivot order is absent exactly on an empty shelf, otherwise it bounds every order and is reached |
| BookshelfModel.NextOrderAboveAll | app/Entities/Models/Bookshelf.php:70-71 | the order given to an appended book is above every order on the shelf, and 1 on an empty shelf |
| BookshelfModel.NextOrder | app/Entities/Models/Bookshelf.php:70-71 | the maximum order plus one, 1 on an empty shelf; stated by `NextOrderAboveAll` |
| BookshelfModel.AppendEffect | app/Entities/Models/Bookshelf.php:64-72 | the tables after `appendBook()`; `AppendBook` is proved against it and `AppendIdempotent`, `AppendPlacesLast` state its properties |
| BookshelfModel.AppendBook | app/Entities/Models/Bookshelf.php:64-72 | the method leaves the tables as appending specifies: unchanged when the book is already on the shelf, one pivot row added otherwise |
| BookshelfModel.AttachedLinks | app/Entities/Models/Bookshelf.php:71 | the attached pivot row links the shelf to the book |
| BookshelfModel.AppendThenContains | app/Entities/Models/Bookshelf.php:64-72 | after appending a live book the shelf contains it |
| BookshelfModel.AppendIdempotent | app/Entities/Models/Bookshelf.php:66-68 | appending the same book twice is appending it once |
| BookshelfModel.AppendLinks | app/Entities/Models/Bookshelf.php:71 | appending adds exactly one pivot row of the shelf, at the end |
| BookshelfModel.MatchingNewLink | app/Entities/Models/Bookshelf.php:31 | the new pivot row joins exactly the live books with its book id |
| BookshelfModel.AppendJoined | app/Entities/Models/Bookshelf.php:64-72 | the joined rows after appending are the old ones followed by the new book with its order |
| BookshelfModel.AppendPlacesLast | app/Entities/Models/Bookshelf.php:61-72 | an appended book comes last in the shelf's books, with order one above the maximum, and every other book keeps its place |
| BookshelfModel.ShelvesBooksInverse | app/Entities/Models/Bookshelf.php:29-35 | a shelf is among a book's shelves exactly when the shelf contains the book |
| BookshelfModel.GetUrlShape | app/Entities/Models/Bookshelf.php:48-51 | the URL path is `/shelves/`, the encoded slug, `/` and the trimmed path |
| BookshelfModel.GetUrl | app/Entities/Models/Bookshelf.php:48-51 | the string `getUrl()` passes to `url()` (which adds the site base and drops a trailing `/`); its shape is stated by `GetUrlShape` |
| BookshelfModel.GetUrlIgnoresSurroundingSlashes | app/Entities/Models/Bookshelf.php:48-51 | slashes around the path do not change the URL |
| ChapterModel.FillOnlyNameAndPriority | app/Entities/Models/Chapter.php:23 | mass assignment changes only name and priority, and takes them when given |
| ChapterModel.ChapterPages | app/Entities/Models/Chapter.php:30-33 | a row is one of the chapter's pages exactly when it is a live page whose chapter id is the chapter's non-NULL id |
| ChapterModel.Pages | app/Entities/Models/Chapter.php:30-33 | the pages are a permutation of the chapter's pages, ascending by priority by default and descending on request |
| ChapterModel.GetVisiblePagesAsWritten | app/Entities/Models/Chapter.php:55-62 | the visible pages as the code orders them: a permutation of the visible pages sorted by priority only |
| ChapterModel.AsWrittenListsDraftLast | app/Entities/Models/Chapter.php:55-62 | on a published page of priority 1 and a draft of priority 2 the as-written order lists the draft last, while ordering drafts first lists it first |
| ChapterModel.GetVisiblePages | app/Entities/Models/Chapter.php:55-62 | the visible pages are a permutation of the chapter's visible pages |
| ChapterModel.GetVisiblePagesMembers | app/Entities/Models/Chapter.php:55-62 | a row is a visible page exactly when it is a visible page of the chapter |
| ChapterModel.GetVisiblePagesOrder | app/Entities/Models/Chapter.php:55-62 | the visible pages are the drafts by priority, then the rest by priority |
| ChapterModel.GetUrlUnderBook | app/Entities/Models/Chapter.php:38-49 | the chapter URL is the book URL followed by `chapter`, the encoded slug and the trimmed path |
| ChapterModel.GetUrl | app/Entities/Models/Chapter.php:38-49 | the string `getUrl()` passes to `url()` (which adds the site base and drops a trailing `/`); `GetUrlUnderBook` states it extends the book URL |
| EntityHtmlDescription.ParagraphTextGenerated | app/Entities/Tools/EntityHtmlDescription.php:48 | the paragraph generated from plain text carries exactly that text back |
| EntityHtmlDescription.RawHtml | app/Entities/Tools/EntityHtmlDescription.php:46-51 | the raw HTML is never empty; it is the stored HTML exactly when that is non-empty, otherwise a paragraph of the plain text |
| EntityHtmlDescription.AfterSetCases | app/Entities/Tools/EntityHtmlDescription.php:26-40 | after set: the plain text is the given one or unchanged when none is given; a non-empty HTML is kept; an empty HTML with non-empty text becomes the filtered paragraph of that text |
| EntityHtmlDescription.AfterSetIdempotent | app/Entities/Tools/EntityHtmlDescription.php:26-40 | setting the same description twice leaves what setting it once leaves |
| EntityHtmlDescription.HtmlDescription.constructor | app/Entities/Tools/EntityHtmlDescription.php:15-20 | the fields start from the entity's stored descriptions, a missing one read as empty |
| EntityHtmlDescription.HtmlDescription.Set | app/Entities/Tools/EntityHtmlDescription.php:26-40 | the fields change as AfterSet says, the entity's attributes carry the new HTML and the given plain text, and nothing else of the entity changes |
| EntityHtmlDescription.HtmlDescription.GetHtml | app/Entities/Tools/EntityHtmlDescription.php:46-54 | raw output is the stored HTML or the paragraph of the plain text; non-raw output is the filter applied to the raw output |
| EntityHtmlDescription.HtmlDescription.GetPlain | app/Entities/Tools/EntityHtmlDescription.php:56-59 | `getPlain()`: the plain text held, which `Set` and the constructor determine |
| EntityDefaultTemplate.TemplateAfterSet | app/Entities/Tools/EntityDefaultTemplate.php:20-38 | the stored reference afterwards is the old one, NULL or the requested id, and any non-NULL result is the requested id |
| EntityDefaultTemplate.SetSameIdKeeps | app/Entities/Tools/EntityDefaultTemplate.php:22-25 | asking for the id already stored changes nothing |
| EntityDefaultTemplate.SetNewIdValidated | app/Entities/Tools/EntityDefaultTemplate.php:27-37 | a new id 0 clears the reference; a new non-zero id is kept exactly when a visible template has it, otherwise the reference is cleared |
| EntityDefaultTemplate.SetFromIdIdempotent | app/Entities/Tools/EntityDefaultTemplate.php:20-38 | setting the same id a second time changes nothing |
| EntityDefaultTemplate.TemplateOf | app/Entities/Tools/EntityDefaultTemplate.php:43-58 | no template for a falsy id; a template found is a visible template with that id; none is found only when no visible template has it |
| EntityDefaultTemplate.DefaultTemplate.SetFromId | app/Entities/Tools/EntityDefaultTemplate.php:20-38 | the entity's attributes are unchanged when the id is the same, otherwise only the template column changes, to TemplateAfterSet |
| EntityDefaultTemplate.DefaultTemplate.GetTemplate | app/Entities/Tools/EntityDefaultTemplate.php:43-58 | a template is returned only when the entity's template id is truthy |
| EntityCover.ImageOf | app/Entities/Tools/EntityCover.php:34-46 | no image for a NULL id; an image found is in the images table and has that id |
| EntityCover.ExistsIffImage | app/Entities/Tools/EntityCover.php:26-46 | a cover exists exactly when getImage finds one |
| EntityCover.CoverUrl | app/Entities/Tools/EntityCover.php:51-62 | with a truthy id and an existing image the result is the thumbnail's URL, or the default when no URL comes back or thumbnailing throws; a falsy id or a missing image gives the default |
| EntityCover.SetImageThenGetImage | app/Entities/Tools/EntityCover.php:67-74 | after setting an image, or none, getImage returns that image, or none |
| EntityCover.Cover.GetImage | app/Entities/Tools/EntityCover.php:34-46 | an image is returned exactly when the cover exists |
| EntityCover.Cover.Exists | app/Entities/Tools/EntityCover.php:26-29 | `exists()`: the id is set and an image has it; `ExistsIffImage` ties it to `getImage()` |
| EntityCover.Cover.GetUrl | app/Entities/Tools/EntityCover.php:51-62 | the URL `CoverUrl` gives for the entity's `image_id`: the default for a falsy id (0 included) or no existing cover, otherwise the thumbnail URL |
| EntityCover.Cover.SetImage | app/Entities/Tools/EntityCover.php:67-74 | only the image column changes, to the image's id or NULL |
| BaseRepo.SaveStateKeeps | app/Entities/Repos/BaseRepo.php:52 | saving keeps every attribute other than `type` and `id` |
| BaseRepo.HtmlDescriptionWins | app/Entities/Repos/BaseRepo.php:149-156 | when HTML is given, a plain description in the input is ignored |
| BaseRepo.PlainDescriptionGeneratesHtml | app/Entities/Repos/BaseRepo.php:154-155 | a non-empty plain description alone becomes the text, and its filtered generated paragraph the HTML |
| BaseRepo.NoDescriptionKeeps | app/Entities/Repos/BaseRepo.php:143-157 | with neither description input, or for a page, the attributes are unchanged |
| BaseRepo.DescribedKeeps | app/Entities/Repos/BaseRepo.php:143-157 | only the two description attributes can change |
| BaseRepo.UpdateDescription | app/Entities/Repos/BaseRepo.php:143-157 | the entity's attributes become the described ones and nothing else of the entity changes |
| BaseRepo.Create | app/Entities/Repos/BaseRepo.php:37-65 | a fresh model of the kind is filled, stamped, slugged, described and saved once |
| BaseRepo.CreateStampsUser | app/Entities/Repos/BaseRepo.php:40-46 | a created entity has the current user as creator, updater and owner, and the slug generated from its filled attributes |
| BaseRepo.Update | app/Entities/Repos/BaseRepo.php:73-103 | the model is filled, stamped with the updater, re-slugged when needed, described and saved once |
| BaseRepo.UpdateStampsUpdater | app/Entities/Repos/BaseRepo.php:77-82 | an update sets the updater and keeps creator and owner; the slug is regenerated exactly when the name changed or the slug was empty |
| BaseRepo.SaveModel | app/Entities/Repos/BaseRepo.php:118 | the model and its tables change as saving specifies |
| BaseRepo.DestroyImage | app/Entities/Repos/BaseRepo.php:115 | the given image's rows are deleted; with no image nothing changes |
| BaseRepo.DestroyCover | app/Entities/Repos/BaseRepo.php:115 | the current cover is destroyed and nothing else changes |
| BaseRepo.ReplaceCover | app/Entities/Repos/BaseRepo.php:113-119 | a failed upload leaves the old cover destroyed and an error; otherwise the new cover is stored, set and saved |
| BaseRepo.RemoveCover | app/Entities/Repos/BaseRepo.php:121-125 | the cover is destroyed, the reference cleared and the entity saved |
| BaseRepo.UpdateCoverImage | app/Entities/Repos/BaseRepo.php:111-126 | the result and new state are those of the cover update: replace when a file is given, then remove when asked |
| BaseRepo.CoverUpdateWithoutInput | app/Entities/Repos/BaseRepo.php:111-126 | with neither a file nor a removal nothing changes |
| BaseRepo.CoverReplacedSetsImage | app/Entities/Repos/BaseRepo.php:113-119 | after an upload the entity points at a new image of type `cover_<kind>` that is stored, and the old cover can no longer be found |
| BaseRepo.WithoutCoverDestroys | app/Entities/Repos/BaseRepo.php:115 | once destroyed, the old cover can no longer be found |
| BaseRepo.CoverRemovedClears | app/Entities/Repos/BaseRepo.php:121-125 | removal succeeds, clears the image reference and leaves the old cover unfindable |
| BaseRepo.FailedUploadDropsCover | app/Entities/Repos/BaseRepo.php:113-116 | a failed upload reports an error, leaves the attributes unchanged and has already destroyed the old cover |
| BaseRepo.SortParent | app/Entities/Repos/BaseRepo.php:132-138 | a book is sorted exactly for a chapter or page, and it is the entity's own book |
| BookRepo.DefaultSortRule | app/Entities/Repos/BookRepo.php:38-41 | the book gets the default sort rule exactly when the setting is non-zero and names an existing rule, and then it is that rule |
| BookRepo.Create | app/Entities/Repos/BookRepo.php:30-47 | an error leaves the database as before; success yields a fresh book whose state and tables are those of the create steps |
| BookRepo.FinishCreate | app/Entities/Repos/BookRepo.php:35-43 | after the cover: the template is set, the default sort rule applied and the book saved |
| BookRepo.ApplyTemplate | app/Entities/Repos/BookRepo.php:35 | the book's state changes as setting the template id says |
| BookRepo.CreateFailsOnlyOnUpload | app/Entities/Repos/BookRepo.php:32-46 | create fails exactly when a cover file is given and its upload throws |
| BookRepo.CoverKeeps | app/Entities/Repos/BookRepo.php:34 | the cover step keeps every attribute other than `type`, `id` and `image_id` |
| BookRepo.CreatedBagLacks | app/Entities/Repos/BookRepo.php:33 | a newly created book has no default template and no sort rule yet |
| BookRepo.FinishTemplate | app/Entities/Repos/BookRepo.php:35-43 | after the steps that follow the cover, the template is what setFromId made of the earlier one |
| BookRepo.FinishSortRule | app/Entities/Repos/BookRepo.php:38-43 | after the steps that follow the cover, the sort rule is the default one when there is one, otherwise unchanged |
| BookRepo.CreateTemplate | app/Entities/Repos/BookRepo.php:35 | a created book's template is what setFromId makes of an empty reference and the input id |
| BookRepo.CreateSortRule | app/Entities/Repos/BookRepo.php:38-41 | a created book has the default sort rule when there is one, and none otherwise |
| BookRepo.Update | app/Entities/Repos/BookRepo.php:52-68 | the result and new state are those of the update steps: base update, template, cover, then a save when the cover step succeeded |
| BookRepo.UpdateFieldsAndTemplate | app/Entities/Repos/BookRepo.php:54-58 | the base update, then the template only when the input has the key |
| BookRepo.ApplyCover | app/Entities/Repos/BookRepo.php:60-62 | the cover changes only when the input has an `image` key, and a null value removes it |
| BookRepo.UpdateBaseKeeps | app/Entities/Repos/BookRepo.php:54 | the base update keeps the template and image columns and the images table |
| BookRepo.UpdateKeepsTemplateWithoutKey | app/Entities/Repos/BookRepo.php:56-58 | without a template key in the input the template is unchanged |
| BookRepo.UpdateKeepsCoverWithoutKey | app/Entities/Repos/BookRepo.php:60-62 | without an image key the cover reference and the images are unchanged |
| BookRepo.UpdateNullImageRemovesCover | app/Entities/Repos/BookRepo.php:60-62 | an image key holding null succeeds and clears the cover reference |
| UserRepo.OnlyAdminAlone | app/Users/UserRepo.php:262-274 | when the user is the only admin, every admin link in the role table belongs to that user |
| UserRepo.IsOnlyAdmin | app/Users/UserRepo.php:262-274 | `isOnlyAdmin()`: holds the admin role, which has at most one user; `OnlyAdminAlone` states what follows |
| UserRepo.DemotingLastAdmin | app/Users/UserRepo.php:296-306 | `demotingLastAdmin()`: the only admin with a role list lacking the admin id (loose match); used by `RolesSetOutcome` |
| UserRepo.RolesSet | app/Users/UserRepo.php:281-294 | `setUserRoles()` on the tables; `RolesSetOutcome` and `RolesSetKeepsOnlyAdmin` state its outcome |
| UserRepo.NewIds | app/Users/UserRepo.php:289 | the roles attached by sync are exactly the listed ones the user does not hold yet |
| UserRepo.SyncedHoldsExactly | app/Users/UserRepo.php:289 | after sync the user holds a role exactly when it is listed |
| UserRepo.SyncKeepsOthers | app/Users/UserRepo.php:289 | sync leaves every other user's role links as they were |
| UserRepo.RolesSetOutcome | app/Users/UserRepo.php:281-306 | setting roles fails exactly when it would demote the last admin, and then changes nothing; otherwise the user holds exactly the listed non-empty roles |
| UserRepo.RolesSetKeepsOnlyAdmin | app/Users/UserRepo.php:281-306 | the only admin still holds the admin role after any role change |
| UserRepo.SetUserRoles | app/Users/UserRepo.php:281-290 | the result and tables are those of setting the roles |
| UserRepo.DropSpec | app/Users/UserRepo.php:195 | deleting a user's rows from one table removes exactly the rows of that table naming the user |
| UserRepo.WithoutUserRowsSpec | app/Users/UserRepo.php:193-196 | after the loop a row remains exactly when it was there and is not a listed table's row naming the user |
| UserRepo.WithoutUserRowsKeeps | app/Users/UserRepo.php:193-196 | tables outside the list are unchanged |
| UserRepo.DeleteUserRows | app/Users/UserRepo.php:195 | the table loses the user's rows and nothing else changes |
| UserRepo.DeleteRelations | app/Users/UserRepo.php:187-191 | the user's tokens, social accounts, favourites, MFA values and watches are deleted |
| UserRepo.DeleteUserRowsFrom | app/Users/UserRepo.php:193-196 | the loop deletes the user's rows from each listed table |
| UserRepo.RemoveUserDependantRelations | app/Users/UserRepo.php:185-197 | the relations, then the three further tables, lose the user's rows |
| UserRepo.NullifyStep | app/Users/UserRepo.php:214-216 | one update nulls the column exactly where it names the user, keeping every row and every other column |
| UserRepo.NullifiedAllSpec | app/Users/UserRepo.php:212-218 | after all updates a listed column is null exactly where it named the user; rows and other columns are kept |
| UserRepo.NullifiedAllKeeps | app/Users/UserRepo.php:212-218 | tables not in the list are unchanged |
| UserRepo.NullifiedAllAppend | app/Users/UserRepo.php:212-218 | nulling two lists in turn is nulling their concatenation |
| UserRepo.NullifyColumns | app/Users/UserRepo.php:212-218 | the nested loop performs all the nulling updates of the list, in order |
| UserRepo.NullifyTable | app/Users/UserRepo.php:213-217 | the inner loop nulls each column of one table |
| UserRepo.NullifyUserNonDependantRelations | app/Users/UserRepo.php:198-219 | the tables are those of nulling every listed column |
| UserRepo.User.constructor | app/Users/UserRepo.php:59 | a new user has no attributes and is not stored |
| UserRepo.User.Insert | app/Users/UserRepo.php:67 | the user gets the new id and its row is appended to `users` |
| UserRepo.User.Update | app/Users/UserRepo.php:135 | the user's attributes are written over its row and nothing else changes |
| UserRepo.User.Delete | app/Users/UserRepo.php:167 | the user's row is deleted and the model is no longer stored |
| UserRepo.EnsureDeletable | app/Users/UserRepo.php:224-233 | the refusal is the one Deletable gives |
| UserRepo.Deletable | app/Users/UserRepo.php:224-233 | `ensureDeletable()`: refused for the only admin and the guest; `DestroyRefusals` states it |
| UserRepo.MigrateOwnership | app/Users/UserRepo.php:238-244 | entities owned by the user pass to the new owner's id, or NULL |
| UserRepo.MoveOwnership | app/Users/UserRepo.php:175-180 | the new owner is looked up only for a non-empty id, and the ownership moves to it or to NULL |
| UserRepo.ClearUser | app/Users/UserRepo.php:165-167 | the dependent rows, the nulled references and the user's row are gone as Cleared says |
| UserRepo.Destroy | app/Users/UserRepo.php:161-183 | the result and the tables are those of the destroy steps |
| UserRepo.WithoutRelationsSpec | app/Users/UserRepo.php:187-191 | a row remains exactly when it is not a relation row naming the user |
| UserRepo.WithoutRelationsKeeps | app/Users/UserRepo.php:187-191 | other tables are unchanged |
| UserRepo.DependantsKeep | app/Users/UserRepo.php:185-197 | tables that are neither relations nor dependants are unchanged |
| UserRepo.DependantsSpec | app/Users/UserRepo.php:185-197 | a dependent row remains exactly when it does not name the user |
| UserRepo.ClearedKeeps | app/Users/UserRepo.php:161-167 | a table the deletion neither empties nor nulls is unchanged |
| UserRepo.ClearedDependants | app/Users/UserRepo.php:165-167 | after clearing, a dependent row remains exactly when it does not name the user |
| UserRepo.ClearedNullifies | app/Users/UserRepo.php:166-167 | after clearing, a listed column is null exactly where it named the user, rows kept in place |
| UserRepo.ClearedUsers | app/Users/UserRepo.php:167 | after clearing, `users` has lost exactly the user's rows |
| UserRepo.NullifiedKeepsOwners | app/Users/UserRepo.php:204 | nulling leaves the owners of entities unchanged |
| UserRepo.ClearedKeepsOwners | app/Users/UserRepo.php:165-167 | clearing leaves the owners of entities unchanged |
| UserRepo.DestroyRefusals | app/Users/UserRepo.php:224-233 | destroy fails exactly for the only admin or the guest user, and then nothing changes |
| UserRepo.DestroyDeletesDependants | app/Users/UserRepo.php:185-197 | a destroyed user's dependent rows are gone, and only they |
| UserRepo.DestroyNullifiesReferences | app/Users/UserRepo.php:198-219 | each listed reference to the user becomes NULL and the rows stay |
| UserRepo.DestroyActivitiesUnchanged | app/Users/UserRepo.php:198-219 | the modelled deletion writes nothing to `activities` |
| UserRepo.NewOwnerAfterDelete | app/Users/UserRepo.php:176-179 | the new owner is found exactly when it is a non-zero id of another existing user |
| UserRepo.DestroyMigratesOwnership | app/Users/UserRepo.php:175-180 | the user's entities pass to the new owner when that is another existing user, and to nobody otherwise |
| UserRepo.DestroyRemovesUser | app/Users/UserRepo.php:167 | the user's row is gone and every other user's row stays |
| UserRepo.DestroyKeepsActivities | app/Users/UserRepo.php:198-219 | every activity row there before deletion is still there, in place, with its `user_id`: activities are not in the list of nulled references |
| UserRepo.CreateWithoutActivity | app/Users/UserRepo.php:57-80 | a fresh stored user, with the result, attributes and tables of the create steps |
| UserRepo.FillNew | app/Users/UserRepo.php:59-66 | the new user's attributes are those NewUser gives |
| UserRepo.NewUserFields | app/Users/UserRepo.php:60-66 | name and email from the request, the hash of the given or a random password, the confirmation flag, an empty external id by default, and a slug from those |
| UserRepo.CreatedUserAttributes | app/Users/UserRepo.php:57-67 | the saved user is the new user with the assigned id |
| UserRepo.CreatedUserStored | app/Users/UserRepo.php:67-75 | the row is appended whatever happens to the roles; without roles the links are unchanged; with roles accepted the user holds exactly the listed ones |
| UserRepo.UpdateWithoutActivity | app/Users/UserRepo.php:108-138 | the result, attributes and tables are those of the update steps |
| UserRepo.SavePassword | app/Users/UserRepo.php:127-135 | the password is hashed in when given, then the user's row is overwritten |
| UserRepo.UpdateAccount | app/Users/UserRepo.php:110-121 | the attributes become the updated account |
| UserRepo.AccountUpdatedFields | app/Users/UserRepo.php:110-121 | name and slug change only with a name; email and external id only when given and allowed; nothing else changes |
| UserRepo.PasswordUpdatedFields | app/Users/UserRepo.php:127-129 | the password is hashed in when given and nothing else changes |
| UserRepo.UpdatedAttributes | app/Users/UserRepo.php:108-138 | after an accepted update each attribute is set only under its own condition, and the rest keep their values |
| UserRepo.UpdateWithoutPermission | app/Users/UserRepo.php:115-125 | without permission to manage users the update succeeds and never touches email, external id or roles |
| UserRepo.UpdateSaves | app/Users/UserRepo.php:123-135 | a refused role change saves nothing; an accepted update writes over the user's own row only, and with roles the user holds exactly those listed |
| CleanUserIdReferences.Up | database/migrations/2025_10_18_163331_clean_user_id_references.php:35-57 | the tables become UpEffect: every listed reference nulled where zero or dangling, then the dangling rows of the owned tables deleted |
| CleanUserIdReferences.NullifyColumns | database/migrations/2025_10_18_163331_clean_user_id_references.php:39-50 | the loop applies the nulling step to each listed column, in order |
| CleanUserIdReferences.NullifyTable | database/migrations/2025_10_18_163331_clean_user_id_references.php:46-49 | the inner loop nulls each column of one table |
| CleanUserIdReferences.NullifyColumn | database/migrations/2025_10_18_163331_clean_user_id_references.php:47-48 | one column is nulled where it is zero or names no user, and nothing else changes |
| CleanUserIdReferences.DeleteRows | database/migrations/2025_10_18_163331_clean_user_id_references.php:52-56 | the loop deletes the dangling rows of each listed table, in order |
| CleanUserIdReferences.DeleteFromTable | database/migrations/2025_10_18_163331_clean_user_id_references.php:53-55 | the inner loop deletes one table's dangling rows |
| CleanUserIdReferences.Down | database/migrations/2025_10_18_163331_clean_user_id_references.php:62-75 | the tables become DownEffect: every listed NULL turned back to 0 |
| CleanUserIdReferences.RevertColumns | database/migrations/2025_10_18_163331_clean_user_id_references.php:64-68 | the loop turns NULLs back to 0 in each listed column, in order |
| CleanUserIdReferences.RevertTable | database/migrations/2025_10_18_163331_clean_user_id_references.php:65-67 | the inner loop reverts each column of one table |
| CleanUserIdReferences.NullifyStepRewrites | database/migrations/2025_10_18_163331_clean_user_id_references.php:47-48 | the nulling step rewrites only its column, value by value, and is idempotent |
| CleanUserIdReferences.RevertStepRewrites | database/migrations/2025_10_18_163331_clean_user_id_references.php:66 | the reverting step rewrites only its column, value by value, and is idempotent |
| CleanUserIdReferences.ListsApart | database/migrations/2025_10_18_163331_clean_user_id_references.php:8-30 | no table is both nulled and cleaned, and `users` is neither |
| CleanUserIdReferences.CleanColumns | database/migrations/2025_10_18_163331_clean_user_id_references.php:19-30 | every cleaned table is keyed by `user_id`, and none is `users` |
| CleanUserIdReferences.DeletedRows | database/migrations/2025_10_18_163331_clean_user_id_references.php:52-56 | after the deletions a row remains exactly when none of its listed columns names a missing user |
| CleanUserIdReferences.UpKeepsUsers | database/migrations/2025_10_18_163331_clean_user_id_references.php:35-57 | the users table is not changed |
| CleanUserIdReferences.UpNullifies | database/migrations/2025_10_18_163331_clean_user_id_references.php:39-50 | a listed reference becomes NULL exactly where it was zero or named no user; rows and other columns are kept |
| CleanUserIdReferences.UpLeavesOnlyUsers | database/migrations/2025_10_18_163331_clean_user_id_references.php:39-50 | afterwards every listed reference is NULL or the id of an existing user |
| CleanUserIdReferences.UpDeletes | database/migrations/2025_10_18_163331_clean_user_id_references.php:52-56 | an owned row survives exactly when it names an existing user |
| CleanUserIdReferences.DownReverts | database/migrations/2025_10_18_163331_clean_user_id_references.php:62-75 | down turns NULL back to 0 in exactly the listed columns |
| CleanUserIdReferences.DownAfterUp | database/migrations/2025_10_18_163331_clean_user_id_references.php:35-75 | up then down gives back every zero and every valid reference, and 0 for a dangling one |
| UpdateEntityRelationColumns.Up | database/migrations/2025_09_15_134751_update_entity_relation_columns.php:66-86 | the tables become UpEffect: zero references nulled, orphaned page images nulled, joint permissions rebuilt when empty |
| UpdateEntityRelationColumns.Down | database/migrations/2025_09_15_134751_update_entity_relation_columns.php:92-95 | the tables become DownEffect: NULL image owners turned back to 0 |
| UpdateEntityRelationColumns.ZerosNulledKeepsPages | database/migrations/2025_09_15_134751_update_entity_relation_columns.php:66-68 | nulling zeros does not change the set of page ids |
| UpdateEntityRelationColumns.UpImages | database/migrations/2025_09_15_134751_update_entity_relation_columns.php:66-77 | an image owner becomes NULL exactly where it was zero, or a gallery or drawio image's page is missing; every other column is kept |
| UpdateEntityRelationColumns.UpLeavesPageImagesOnPages | database/migrations/2025_09_15_134751_update_entity_relation_columns.php:70-77 | afterwards every gallery or drawio image is on an existing page or on none |
| UpdateEntityRelationColumns.UpActivities | database/migrations/2025_09_15_134751_update_entity_relation_columns.php:68 | an activity subject becomes NULL exactly where it was zero; every other column is kept |
| UpdateEntityRelationColumns.UpJointPermissions | database/migrations/2025_09_15_134751_update_entity_relation_columns.php:84-86 | joint permissions are replaced by the rebuilt ones exactly when the table was empty |
| UpdateEntityRelationColumns.DownAfterUpImages | database/migrations/2025_09_15_134751_update_entity_relation_columns.php:66-95 | up then down gives back every zero and every valid image owner, and 0 for an orphaned page image |
| MigrateEntityData.Up | database/migrations/2025_09_15_134701_migrate_entity_data.php:10-80 | the tables become UpEffect: identities and payloads copied, then zero and missing references nulled |
| MigrateEntityData.CopyIdentities | database/migrations/2025_09_15_134701_migrate_entity_data.php:15-35 | the identity rows of books, shelves, chapters and pages are appended to `entities` in that order |
| MigrateEntityData.CopyBooksAndShelves | database/migrations/2025_09_15_134701_migrate_entity_data.php:16-22 | the loop appends the book and then the shelf identity rows |
| MigrateEntityData.CopyContainers | database/migrations/2025_09_15_134701_migrate_entity_data.php:37-56 | the shelf, book and chapter payload rows are appended to the container table |
| MigrateEntityData.CopyPageData | database/migrations/2025_09_15_134701_migrate_entity_data.php:58-63 | the page payload rows are appended to the page data table |
| MigrateEntityData.NullZeroReferences | database/migrations/2025_09_15_134701_migrate_entity_data.php:65-69 | zero user and chapter references in `entities` become NULL |
| MigrateEntityData.NullMissingReferences | database/migrations/2025_09_15_134701_migrate_entity_data.php:71-76 | user and chapter references naming nothing become NULL |
| MigrateEntityData.CleanedValueKeeps | database/migrations/2025_09_15_134701_migrate_entity_data.php:65-76 | a reference is kept exactly when it is NULL or a non-zero existing id; every result is NULL or a non-zero existing id |
| MigrateEntityData.NullIfZeroGet | database/migrations/2025_09_15_134701_migrate_entity_data.php:66-69 | one zero update nulls only its column, and only a zero |
| MigrateEntityData.NullIfMissingGet | database/migrations/2025_09_15_134701_migrate_entity_data.php:73-76 | one missing-reference update nulls only its column, and only a dangling value |
| MigrateEntityData.ZeroRowGet | database/migrations/2025_09_15_134701_migrate_entity_data.php:66-69 | the four zero updates null exactly the zero references |
| MigrateEntityData.MissingRowGet | database/migrations/2025_09_15_134701_migrate_entity_data.php:73-76 | the four missing-reference updates null exactly the dangling user and chapter references |
| MigrateEntityData.CleanRowGet | database/migrations/2025_09_15_134701_migrate_entity_data.php:65-76 | both passes together clean each reference column and keep every other column |
| MigrateEntityData.CleanedInTwoSteps | database/migrations/2025_09_15_134701_migrate_entity_data.php:65-76 | nulling zeros and then dangling values is the one-step clean |
| MigrateEntityData.CleanedIsMap | database/migrations/2025_09_15_134701_migrate_entity_data.php:65-76 | the two passes over the table are one row-by-row clean |
| MigrateEntityData.CleanedRowsValid | database/migrations/2025_09_15_134701_migrate_entity_data.php:65-76 | every cleaned user reference is NULL or an existing non-zero user id, and every chapter reference NULL or an existing chapter id |
| MigrateEntityData.CopiedKeeps | database/migrations/2025_09_15_134701_migrate_entity_data.php:15-63 | copying touches only the three new tables |
| MigrateEntityData.CleanupKeeps | database/migrations/2025_09_15_134701_migrate_entity_data.php:65-76 | the clean-up touches only `entities` |
| MigrateEntityData.CopiedKeepsSources | database/migrations/2025_09_15_134701_migrate_entity_data.php:15-63 | the old tables, the user ids and the chapter ids are unchanged by copying |
| MigrateEntityData.UpPayloadTables | database/migrations/2025_09_15_134701_migrate_entity_data.php:37-63 | after up the container table has the shelf, book and chapter payloads appended, the page data table the page payloads, and the old tables are unchanged |
| MigrateEntityData.UpContainers | database/migrations/2025_09_15_134701_migrate_entity_data.php:37-56 | after up the container table has the shelf, book and chapter payloads appended |
| MigrateEntityData.UpPageData | database/migrations/2025_09_15_134701_migrate_entity_data.php:58-63 | after up the page data table has the page payloads appended |
| MigrateEntityData.CopiedEntities | database/migrations/2025_09_15_134701_migrate_entity_data.php:15-35 | after copying `entities` holds the old rows, then the books, shelves, chapters and pages |
| MigrateEntityData.ZerosNulledKeepsIds | database/migrations/2025_09_15_134701_migrate_entity_data.php:65-72 | nulling zeros leaves the user and chapter ids as they were |
| MigrateEntityData.UpEntities | database/migrations/2025_09_15_134701_migrate_entity_data.php:15-76 | after up `entities` is the old rows and the copied rows, each cleaned |
| MigrateEntityData.UpReferencesValid | database/migrations/2025_09_15_134701_migrate_entity_data.php:65-76 | after up every user reference in `entities` is NULL or an existing user, and every chapter reference NULL or an existing chapter |
| MigrateEntityData.IdentityRowType | database/migrations/2025_09_15_134701_migrate_entity_data.php:17-35 | a copied identity row carries its kind's type name |
| MigrateEntityData.IdentityRowsOfOneKind | database/migrations/2025_09_15_134701_migrate_entity_data.php:15-35 | filtering one kind's copied rows by kind keeps all of them for that kind and none for another |
| MigrateEntityData.CopiedRowsOfKind | database/migrations/2025_09_15_134701_migrate_entity_data.php:15-35 | the copied rows of one kind are exactly that kind's identity rows |
| MigrateEntityData.CopiedIdentityRowsSplit | database/migrations/2025_09_15_134701_migrate_entity_data.php:15-35 | the copied rows are the books, shelves, chapters and pages, in that order |
| MigrateEntityData.CleanRowKeepsKey | database/migrations/2025_09_15_134701_migrate_entity_data.php:65-76 | cleaning keeps a row's type and id |
| MigrateEntityData.UpEntitiesOfKind | database/migrations/2025_09_15_134701_migrate_entity_data.php:15-76 | when `entities` held no row of a kind, after up its rows of that kind are that kind's copied rows, cleaned |
| MigrateEntityData.UpEntitiesCopied | database/migrations/2025_09_15_134701_migrate_entity_data.php:15-76 | after up `entities` is the old rows and all copied rows, cleaned |
| MigrateEntityData.CleanedEntitiesOfKind | database/migrations/2025_09_15_134701_migrate_entity_data.php:15-76 | cleaning and filtering by kind picks out exactly that kind's copied rows |
| MigrateEntityData.PayloadRowRelated | database/migrations/2025_09_15_134701_migrate_entity_data.php:37-63 | a copied payload row belongs to an entity exactly when kind and id match |
| MigrateEntityData.PayloadRowsOfOneKind | database/migrations/2025_09_15_134701_migrate_entity_data.php:37-63 | among one kind's payload rows, exactly one belongs to a given source row of that kind, and none to another kind |
| MigrateEntityData.CopiedPayloadOfRow | database/migrations/2025_09_15_134701_migrate_entity_data.php:37-63 | each source row of a kind has exactly one copied payload row |
| MigrateEntityData.ContainerPayloadOfRow | database/migrations/2025_09_15_134701_migrate_entity_data.php:37-56 | each shelf, book or chapter row has exactly one copied container row |
| MigrateEntityData.UpPayloadTable | database/migrations/2025_09_15_134701_migrate_entity_data.php:37-63 | on empty payload tables, after up a kind's payload table holds exactly the copied payloads |
| MigrateEntityData.LoadsTheRelatedRow | database/migrations/2025_09_15_134701_migrate_entity_data.php:37-63 | when exactly one payload row belongs to an entity, loading reads that row |
| MigrateEntityData.UpPayloadLoads | database/migrations/2025_09_15_134701_migrate_entity_data.php:10-80 | after up, loading any migrated entity reads the payload copied from its old row |
| MigrateEntityData.PayloadRowKeeps | database/migrations/2025_09_15_134701_migrate_entity_data.php:37-63 | a copied payload row keeps every payload column of its source row |
| DropOldEntityTables.Up | database/migrations/2025_09_15_134813_drop_old_entity_tables.php:13-19 | the tables become UpEffect: the four old tables are dropped |
| DropOldEntityTables.UpDropsOnlyOldTables | database/migrations/2025_09_15_134813_drop_old_entity_tables.php:13-19 | after up none of the old tables exists, and every other table is exactly as before |
| DropOldEntityTables.RevertStepGet | database/migrations/2025_09_15_134813_drop_old_entity_tables.php:111-114 | one revert update turns NULL into 0 in its column only |
| DropOldEntityTables.RevertRowGet | database/migrations/2025_09_15_134813_drop_old_entity_tables.php:111-114 | the four revert updates turn NULL into 0 in exactly the reference columns |
| DropOldEntityTables.NullsRevertedIsMap | database/migrations/2025_09_15_134813_drop_old_entity_tables.php:111-114 | the four updates over the table are one row-by-row revert |
| DropOldEntityTables.ReferenceRoundTrip | database/migrations/2025_09_15_134813_drop_old_entity_tables.php:111-114 | cleaning on the way up and reverting on the way down gives back an existing id and gives 0 for NULL or a dangling id |
| DropOldEntityTables.RestorableRoundTrip | database/migrations/2025_09_15_134813_drop_old_entity_tables.php:111-114 | a reference that is 0 or an existing id survives the round trip |
| DropOldEntityTables.CreateOldTables | database/migrations/2025_09_15_134813_drop_old_entity_tables.php:26-106 | the four old tables are created empty |
| DropOldEntityTables.RevertNulls | database/migrations/2025_09_15_134813_drop_old_entity_tables.php:110-114 | the identity table's reference NULLs become 0 |
| DropOldEntityTables.RestoreTable | database/migrations/2025_09_15_134813_drop_old_entity_tables.php:116-158 | one old table is refilled from the join of the identity rows of its kind with their payloads |
| DropOldEntityTables.Down | database/migrations/2025_09_15_134813_drop_old_entity_tables.php:24-161 | the tables become DownEffect: old tables created, NULLs reverted, the four tables refilled |
| DropOldEntityTables.RestoredColumnSource | database/migrations/2025_09_15_134813_drop_old_entity_tables.php:117-154 | every restored column comes from the kind's identity or payload columns, and only pages restore `chapter_id` |
| DropOldEntityTables.PageColumnSource | database/migrations/2025_09_15_134813_drop_old_entity_tables.php:117-120 | every restored page column is a page identity or payload column |
| DropOldEntityTables.ChapterColumnSource | database/migrations/2025_09_15_134813_drop_old_entity_tables.php:131-134 | every restored chapter column is a chapter identity or payload column |
| DropOldEntityTables.BookColumnSource | database/migrations/2025_09_15_134813_drop_old_entity_tables.php:141-144 | every restored book column is a book identity or payload column |
| DropOldEntityTables.ShelfColumnSource | database/migrations/2025_09_15_134813_drop_old_entity_tables.php:151-154 | every restored shelf column is a shelf identity or payload column |
| DropOldEntityTables.PayloadRowGet | database/migrations/2025_09_15_134813_drop_old_entity_tables.php:116-158 | a payload row has exactly the payload columns, with the source row's values |
| DropOldEntityTables.IdentityRowGet | database/migrations/2025_09_15_134813_drop_old_entity_tables.php:116-158 | an identity row carries the source row's value in each identity column |
| DropOldEntityTables.RoundTripColumn | database/migrations/2025_09_15_134813_drop_old_entity_tables.php:116-158 | every restored column of a restorable row comes back with its original value |
| DropOldEntityTables.IdentityColumnBack | database/migrations/2025_09_15_134813_drop_old_entity_tables.php:111-158 | every identity column of a restorable row comes back with its original value |
| DropOldEntityTables.RoundTripRow | database/migrations/2025_09_15_134813_drop_old_entity_tables.php:116-158 | a restorable row, split up and joined back, projects to itself on the restored columns |
| DropOldEntityTables.RestoredReads | database/migrations/2025_09_15_134813_drop_old_entity_tables.php:116-158 | the refill reads only the identity table and the kind's payload table |
| DropOldEntityTables.RefillKeeps | database/migrations/2025_09_15_134813_drop_old_entity_tables.php:116-158 | refilling one old table changes neither another old table nor what its refill reads |
| DropOldEntityTables.CreatedEmpty | database/migrations/2025_09_15_134813_drop_old_entity_tables.php:26-114 | before the refills each old table is empty |
| DropOldEntityTables.DownRefills | database/migrations/2025_09_15_134813_drop_old_entity_tables.php:24-161 | after down each old table holds exactly its restored rows |
| DropOldEntityTables.RevertedAfterDrop | database/migrations/2025_09_15_134813_drop_old_entity_tables.php:13-114 | up then the first steps of down revert the identity rows and leave the payload tables as they were |
| DropOldEntityTables.RevertKeepsType | database/migrations/2025_09_15_134813_drop_old_entity_tables.php:111-114 | reverting keeps each row's type |
| DropOldEntityTables.RevertedKindRows | database/migrations/2025_09_15_134813_drop_old_entity_tables.php:111-158 | the reverted rows of one kind are that kind's old rows, split and taken back |
| DropOldEntityTables.PayloadRowsHaveNoType | database/migrations/2025_09_15_134813_drop_old_entity_tables.php:122 | no payload row has a `type` column, so the kind filter reads the identity row's |
| DropOldEntityTables.CopiedPayloadsHaveNoType | database/migrations/2025_09_15_134813_drop_old_entity_tables.php:122-157 | no copied payload row has a `type` column |
| DropOldEntityTables.BackAgainKeeps | database/migrations/2025_09_15_134813_drop_old_entity_tables.php:111-114 | reverting keeps every non-reference column of the identity row |
| DropOldEntityTables.BackAgainKey | database/migrations/2025_09_15_134813_drop_old_entity_tables.php:111-114 | a row taken back keeps its id and its kind's type |
| DropOldEntityTables.BackAgainType | database/migrations/2025_09_15_134813_drop_old_entity_tables.php:111-114 | a row taken back has its kind's type |
| DropOldEntityTables.BackAgainId | database/migrations/2025_09_15_134813_drop_old_entity_tables.php:111-114 | a row taken back keeps its id |
| DropOldEntityTables.JoinOnIsRelated | database/migrations/2025_09_15_134813_drop_old_entity_tables.php:122-130 | for an identity row of the kind, the join condition is the payload-ownership test |
| DropOldEntityTables.JoinsOwnPayload | database/migrations/2025_09_15_134813_drop_old_entity_tables.php:122-130 | each row taken back joins exactly the payload copied from it |
| DropOldEntityTables.JoinedKindRows | database/migrations/2025_09_15_134813_drop_old_entity_tables.php:121-157 | the left join of one kind's rows pairs each with its own payload |
| DropOldEntityTables.SelectedKindRows | database/migrations/2025_09_15_134813_drop_old_entity_tables.php:116-158 | selecting the restored columns of the joined restorable rows gives the old rows' columns |
| DropOldEntityTables.RollBackReads | database/migrations/2025_09_15_134813_drop_old_entity_tables.php:116-158 | after the migrations, up and down, an old table is the kind's reverted identity rows joined to their payloads, filtered by type, projected |
| DropOldEntityTables.RollBackJoin | database/migrations/2025_09_15_134813_drop_old_entity_tables.php:121-157 | filtering the join by type picks exactly the kind's rows taken back, joined |
| DropOldEntityTables.RollBackRows | database/migrations/2025_09_15_134813_drop_old_entity_tables.php:116-158 | the restored rows are the old rows projected on the restored columns |
| DropOldEntityTables.SplitThenRollBack | database/migrations/2025_09_15_134813_drop_old_entity_tables.php:13-161 | for restorable data, splitting into the new tables, dropping the old ones and rolling back gives each old table back on its restored columns |
| ChapterModel.OrderAsWritten | app/Entities/Models/Chapter.php:30-33 | the order the query produces: the priority order of `pages()` comes first, so the rows are a permutation sorted by priority |
| EntityCover.Cover.constructor | app/Entities/Tools/EntityCover.php:13-16 | the cover object wraps the given book or shelf |
| EntityDefaultTemplate.DefaultTemplate.constructor | app/Entities/Tools/EntityDefaultTemplate.php:12-15 | the template object wraps the given book or chapter |
| EntityQueryBuilder.Builder.Where | app/Entities/Models/EntityQueryBuilder.php:37 | a condition is appended and the registered scopes are kept |
| Php.ArrayFilter | app/Users/UserRepo.php:283 | the filtered roles are exactly the truthy ones, and never more than given |
| Php.IntValStrVal | app/Entities/Tools/EntityDefaultTemplate.php:22 | `intval` reads back the decimal form of any integer |
| Php.LooselyEqualsIntVal | app/Users/UserRepo.php:300 | a non-boolean value loosely equal to the decimal form of an id has that id as its `intval` |
| Php.Trim | app/Entities/Models/Book.php:44 | the trimmed string is a substring of the input that neither starts nor ends with a trimmed character, and an input without such characters is kept |
| Php.TrimIdempotent | app/Entities/Models/Entity.php:362 | trimming twice is trimming once |
| Php.TrimDropsSurrounding | app/Entities/Models/Chapter.php:45 | a trimmed character at either end does not change the result |
| Php.Implode | app/Entities/Models/Chapter.php:48 | joining no parts gives the empty string and one part gives that part |
| Php.ImplodeCons | app/Entities/Models/Chapter.php:48 | joining a first part with more parts puts the separator between them |
| Php.MbPrefix | app/Entities/Models/Entity.php:348 | the prefix is a prefix of the string of the requested length, counted from the end for a negative length |
| Php.Escape | app/Entities/Tools/EntityHtmlDescription.php:48 | escaped text contains no angle brackets or quotes |
| Php.EscapePlain | app/Entities/Tools/EntityHtmlDescription.php:48 | text without special characters is unchanged by escaping |
| Php.UnescapeEscape | app/Entities/Tools/EntityHtmlDescription.php:48 | decoding escaped text gives the text back |
| Php.Nl2br | app/Entities/Tools/EntityHtmlDescription.php:48 | text without line breaks is unchanged, and no text gets shorter |
| Php.RemoveBreaksNl2br | app/Entities/Tools/EntityHtmlDescription.php:48 | removing the inserted break tags from text without `<` gives the text back |
| Tables.Database.SetWhereIn | database/migrations/2025_09_15_134701_migrate_entity_data.php:66 | an update sets the column on the matching rows of one table and changes nothing else |
| Tables.Database.DeleteWhereIn | database/migrations/2025_10_18_163331_clean_user_id_references.php:54 | a delete removes the matching rows of one table and changes nothing else |
| Tables.Database.Create | database/migrations/2025_09_15_134813_drop_old_entity_tables.php:26 | creating a table leaves it empty and changes nothing else |
| Tables.Database.DropIfExists | database/migrations/2025_09_15_134813_drop_old_entity_tables.php:15 | dropping removes exactly that table |
| Tables.Database.InsertUsing | database/migrations/2025_09_15_134701_migrate_entity_data.php:17-21 | the selected rows are appended to the table and nothing else changes |

## Left out

- Timestamps (`created_at`, `updated_at`, `touch()`) are not modelled, because they depend on the clock.
- The current user's id is a parameter, and so is the admin role's id.
- Collaborators are supplied by the caller as parameters:
  - the visibility (permission) scope;
  - slug generation and password hashing;
  - `Str::random` and `urlencode`;
  - the `HtmlDescriptionFilter` and script filters;
  - the image store's upload and thumbnails;
  - `setting()`;
  - the visible template pages.
- These collaborators are not modelled at all:
  - tags, the reference store and updater, search indexing and the trash can;
  - joint permission rebuilding, apart from the migration's "rebuild when empty" choice, where the
    rebuilt table is a parameter;
  - `Activity::add`;
  - the book sorter, which is modelled only as the book it would sort.
- BookModel.GetUrl (and `GetUrlShape`): gives the argument passed to `url()`, not the final URL.
  `url()` also adds the site base and drops a trailing `/`. So with the default empty path the real
  URL ends at the slug (`/books/<slug>`), where the model gives `/books/<slug>/`.
- BookshelfModel.GetUrl (and `GetUrlShape`): the same. With an empty path the real URL is
  `/shelves/<slug>` and the model gives `/shelves/<slug>/`.
- ChapterModel.GetUrl (and `GetUrlUnderBook`): the same. With an empty path the real URL ends at
  the chapter slug, without the trailing `/` the model gives.
- `BaseRepo.Create` leaves out the `refresh()` of the new entity after its save. It only reloads
  timestamps and other database defaults.
- `Entity.Dirty` compares attributes with strict inequality. Laravel's `originalIsEquivalent`
  treats some differently typed values (`1` and `"1"`) as unchanged.
- `Php.IntVal` reads leading whitespace, an optional sign and decimal digits only. Exponent and decimal-point
  strings are not modelled.
- `ChapterModel.Pages` takes the direction as a two-valued type. The exception `orderBy` throws for a
  direction other than `asc` or `desc` is not modelled.
- User settings, language, avatars, invites and the activity-only wrappers around user creation
  and update are not modelled. They are calls into code outside this model.
- `scopeWithLastView` and `scopeWithViewCount` are not modelled. They are SQL subqueries tied to
  an ambient current user.
- A user's `save()` is modelled as writing all of the user's attributes over its row, not just
  the changed ones. The result is the same row. An entity's `save()` does follow the dirty check.
- Transactions are not modelled as failure recovery, and every SQL statement is taken to succeed.
  The exception is `BookRepo.Create`, which restores the database when the image upload fails.
- DDL is not modelled: column type changes, foreign keys and indexes. Creating and dropping a
  table is modelled only as the table appearing empty or disappearing.
- `update_entity_relation_columns` writes NULL `images.uploaded_to` back as the string '0'. The
  model stores it as the integer 0, which is what the integer column holds.
- The `down()` of `migrate_entity_data` is a no-op in the code, and so it is in the model.
- UserRepo.DestroyNullifiesReferences: the rows of `images` all stay because deleting the user's
  avatar images (the avatar service) is not part of this model.
- UserRepo.DestroyKeepsActivities: the `USER_DELETE` activity that `destroy` appends through
  `Activity::add` is not modelled, so only the rows already present are stated.
- The rollback round trip (`DropOldEntityTables.SplitThenRollBack`) does not restore NULL or
  dangling references: they come back as 0. This is the behaviour of the code.
- `UserRepo.RolesSetKeepsOnlyAdmin`: it is proved only for role lists without boolean values.
  Requests carry role ids as strings or numbers, and a `true` would loosely equal any id.
- Floating-point search factors and concurrency are not modelled.

## Findings

| source | as written | input that shows it | evidently intended | confidence | as-written member | corrected member |
|---|---|---|---|---|---|---|
| app/Entities/Models/Chapter.php:55-62 | `getVisiblePages()` appends `orderBy('draft', 'desc')` and `orderBy('priority', 'asc')` to `pages()`. But `pages()` already orders by priority, so the draft flag only breaks ties between equal priorities. | A chapter with a published page of priority 1 and a draft of priority 2. The code lists the published page first and the draft last. | Drafts first, then ascending priority, as a book's direct children are listed at app/Entities/Models/Book.php:90. | not executed | ChapterModel.AsWrittenListsDraftLast | ChapterModel.GetVisiblePagesOrder |
