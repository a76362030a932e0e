/**
 * `BaseRepo`: the steps every entity goes through when it is created or updated (mass assignment,
 * the creator/updater/owner stamps, the slug, the description), the cover image replacement, and
 * the parent sort hook. Slug generation, the HTML filters, the image store's file handling and the
 * book sorter are collaborators: the first three are supplied by the caller, the sorter is named by
 * the book it would sort. Tags, search indexing, references and permission rebuilding are not
 * part of this model.
 */
module BaseRepo {
  import opened Wrappers
  import opened Php
  import opened Tables
  import opened EntityKinds
  import Entity
  import EntityHtmlDescription
  import EntityCover

  /** The collaborators the repository calls. */
  datatype Services = Services(
    slugFor: Row -> string,          // `SlugGenerator::generate`
    htmlFilter: string -> string,    // `HtmlDescriptionFilter::filterFromString`
    htmlToText: string -> string,    // `html_entity_decode(strip_tags(...))`
    scriptFilter: string -> string)  // `HtmlContentFilter::removeScriptsFromHtmlString`

  /** How the database answers a `save()`: the id an insert gets and whether each write goes ahead. */
  datatype SaveParams = SaveParams(newId: int, identityAccepted: bool, payloadAccepted: bool)

  /** An entity model's state, together with the database it is saved to. */
  datatype State = State(tables: map<string, Table>, attributes: Row, original: Row, stored: bool)

  /** `save()` on a state: see `Entity.SaveEffect`. */
  function SaveState(k: Kind, st: State, p: SaveParams): State {
    var out := Entity.SaveEffect(k, st.tables, st.attributes, st.original, st.stored, p.newId, p.identityAccepted, p.payloadAccepted);
    State(out.tables, out.attributes, out.original, out.stored)
  }

  /** After `save()` the bag holds what it held before, with `type` set and, after an insert, the new id. */
  lemma SaveStateKeeps(k: Kind, st: State, p: SaveParams, column: string)
    requires column != "type" && column != "id"
    ensures Get(SaveState(k, st, p).attributes, column) == Get(st.attributes, column)
  {
    Entity.SaveRestoresAttributes(k, st.tables, st.attributes, st.original, st.stored, p.newId, p.identityAccepted, p.payloadAccepted);
  }

  /** `isset($input[$key])`: present and not null. */
  predicate IsSet(input: Row, key: string) {
    key in input && input[key] != Null
  }

  // ---------------------------------------------------------------------------------------------
  // updateDescription

  /** The arguments `updateDescription` passes to `descriptionInfo()->set()`, if it calls it. */
  function DescriptionSet(input: Row, s: Services): Option<(string, Option<string>)> {
    if IsSet(input, "description_html") then
      var html := StrCast(input["description_html"]);
      Some((s.htmlFilter(html), Some(s.htmlToText(html))))
    else if IsSet(input, "description") then
      Some(("", Some(StrCast(input["description"]))))
    else None
  }

  /** The attribute bag after `updateDescription($entity, $input)`; only shelves, books and chapters have a description. */
  function Described(k: Kind, attrs: Row, input: Row, s: Services): Row {
    if !IsContainer(k) then attrs
    else match DescriptionSet(input, s)
      case None => attrs
      case Some((html, plaintext)) =>
        var d := EntityHtmlDescription.Description(StrCast(Get(attrs, "description_html")), StrCast(Get(attrs, "description")));
        EntityHtmlDescription.DescribedAttributes(attrs, EntityHtmlDescription.AfterSet(d, html, plaintext, s.scriptFilter).html, plaintext)
  }

  /** An HTML description in the input wins: a plain description beside it is ignored. */
  lemma HtmlDescriptionWins(k: Kind, attrs: Row, input: Row, s: Services)
    requires IsSet(input, "description_html")
    ensures Described(k, attrs, input, s) == Described(k, attrs, input - {"description"}, s)
  {
    assert IsSet(input - {"description"}, "description_html");
  }

  /** A plain description alone is taken as the text, and its generated paragraph as the HTML. */
  lemma PlainDescriptionGeneratesHtml(k: Kind, attrs: Row, input: Row, s: Services)
    requires IsContainer(k) && !IsSet(input, "description_html") && IsSet(input, "description")
    requires !EntityHtmlDescription.EmptyString(StrCast(input["description"]))
    ensures var text := StrCast(input["description"]);
      && Get(Described(k, attrs, input, s), "description") == Str(text)
      && Get(Described(k, attrs, input, s), "description_html") == Str(s.scriptFilter(EntityHtmlDescription.Generated(text)))
  {
  }

  /** Without either description input, nothing changes; nor does anything for a page. */
  lemma NoDescriptionKeeps(k: Kind, attrs: Row, input: Row, s: Services)
    requires !IsContainer(k) || (!IsSet(input, "description_html") && !IsSet(input, "description"))
    ensures Described(k, attrs, input, s) == attrs
  {
  }

  /** The description touches only the two description attributes. */
  lemma DescribedKeeps(k: Kind, attrs: Row, input: Row, s: Services, column: string)
    requires column != "description" && column != "description_html"
    ensures Get(Described(k, attrs, input, s), column) == Get(attrs, column)
  {
  }

  /** `updateDescription($entity, $input)`. */
  method UpdateDescription(entity: Entity.EntityModel, input: Row, s: Services)
    modifies entity
    ensures entity.attributes == Described(entity.kind, old(entity.attributes), input, s)
    ensures entity.original == old(entity.original) && entity.stored == old(entity.stored)
  {
    if !IsContainer(entity.kind) {
      return;
    }
    if IsSet(input, "description_html") {
      var html := StrCast(input["description_html"]);
      var info := new EntityHtmlDescription.HtmlDescription(entity);
      info.Set(s.htmlFilter(html), Some(s.htmlToText(html)), s.scriptFilter);
    } else if IsSet(input, "description") {
      var info := new EntityHtmlDescription.HtmlDescription(entity);
      info.Set("", Some(StrCast(input["description"])), s.scriptFilter);
    }
  }

  // ---------------------------------------------------------------------------------------------
  // create and update

  /** `forceFill` of the three user stamps. */
  function Stamped(attrs: Row, userId: int): Row {
    attrs["created_by" := Int(userId)]["updated_by" := Int(userId)]["owned_by" := Int(userId)]
  }

  /** `refreshSlug()`. */
  function RefreshSlug(attrs: Row, s: Services): Row {
    attrs["slug" := Str(s.slugFor(attrs))]
  }

  /** The bag `create` saves: filled, stamped, slugged and described. */
  function Prepared(k: Kind, attrs: Row, input: Row, fillable: seq<string>, userId: int, s: Services): Row {
    Described(k, RefreshSlug(Stamped(Entity.Fill(fillable, attrs, input), userId), s), input, s)
  }

  /** `create($entity, $input)`: a new model of the kind, saved once. */
  method Create(k: Kind, attrs: Row, input: Row, fillable: seq<string>, userId: int, s: Services,
                db: Tables.Database, p: SaveParams) returns (entity: Entity.EntityModel)
    modifies db
    ensures fresh(entity) && entity.kind == k
    ensures State(db.tables, entity.attributes, entity.original, entity.stored) ==
      SaveState(k, State(old(db.tables), Prepared(k, attrs, input, fillable, userId, s), map[], false), p)
  {
    entity := new Entity.EntityModel(k, attrs);
    entity.attributes := Entity.Fill(fillable, entity.attributes, input);
    entity.attributes := Stamped(entity.attributes, userId);
    entity.attributes := RefreshSlug(entity.attributes, s);
    UpdateDescription(entity, input, s);
    var _ := entity.Save(db, p.newId, p.identityAccepted, p.payloadAccepted);
  }

  /**
   * A created entity is created, updated and owned by the current user, and carries a slug made
   * from its filled and stamped attributes.
   */
  lemma CreateStampsUser(k: Kind, tables: map<string, Table>, attrs: Row, input: Row, fillable: seq<string>,
                         userId: int, s: Services, p: SaveParams)
    ensures var filled := Stamped(Entity.Fill(fillable, attrs, input), userId);
      var after := SaveState(k, State(tables, Prepared(k, attrs, input, fillable, userId, s), map[], false), p).attributes;
      && Get(after, "created_by") == Int(userId)
      && Get(after, "updated_by") == Int(userId)
      && Get(after, "owned_by") == Int(userId)
      && Get(after, "slug") == Str(s.slugFor(filled))
  {
    var filled := Stamped(Entity.Fill(fillable, attrs, input), userId);
    var st := State(tables, Prepared(k, attrs, input, fillable, userId, s), map[], false);
    SaveStateKeeps(k, st, p, "created_by");
    SaveStateKeeps(k, st, p, "updated_by");
    SaveStateKeeps(k, st, p, "owned_by");
    SaveStateKeeps(k, st, p, "slug");
    DescribedKeeps(k, RefreshSlug(filled, s), input, s, "created_by");
    DescribedKeeps(k, RefreshSlug(filled, s), input, s, "updated_by");
    DescribedKeeps(k, RefreshSlug(filled, s), input, s, "owned_by");
    DescribedKeeps(k, RefreshSlug(filled, s), input, s, "slug");
  }

  /** `isDirty('name') || empty($entity->slug)`: the condition for a new slug on update. */
  predicate NeedsSlug(attrs: Row, original: Row) {
    "name" in Entity.Dirty(attrs, original) || Falsy(Get(attrs, "slug"))
  }

  /** The bag `update` saves: filled, stamped with the updater, re-slugged when needed, described. */
  function Updated(k: Kind, attrs: Row, original: Row, input: Row, fillable: seq<string>, userId: int, s: Services): Row {
    var filled := Entity.Fill(fillable, attrs, input)["updated_by" := Int(userId)];
    var slugged := if NeedsSlug(filled, original) then RefreshSlug(filled, s) else filled;
    Described(k, slugged, input, s)
  }

  /** `update($entity, $input)`: the model is changed in place and saved once. */
  method Update(entity: Entity.EntityModel, input: Row, fillable: seq<string>, userId: int, s: Services,
                db: Tables.Database, p: SaveParams)
    modifies entity, db
    ensures State(db.tables, entity.attributes, entity.original, entity.stored) ==
      SaveState(entity.kind, State(old(db.tables),
                                   Updated(entity.kind, old(entity.attributes), old(entity.original), input, fillable, userId, s),
                                   old(entity.original), old(entity.stored)), p)
  {
    entity.attributes := Entity.Fill(fillable, entity.attributes, input);
    entity.attributes := entity.attributes["updated_by" := Int(userId)];
    if NeedsSlug(entity.attributes, entity.original) {
      entity.attributes := RefreshSlug(entity.attributes, s);
    }
    UpdateDescription(entity, input, s);
    var _ := entity.Save(db, p.newId, p.identityAccepted, p.payloadAccepted);
  }

  /**
   * An update stamps the updater and leaves the creator and owner as they were (no kind lists them
   * as fillable); the slug is regenerated exactly when the name changed or the slug was empty.
   */
  lemma UpdateStampsUpdater(k: Kind, tables: map<string, Table>, attrs: Row, original: Row, stored: bool, input: Row,
                            fillable: seq<string>, userId: int, s: Services, p: SaveParams)
    requires "created_by" !in fillable && "owned_by" !in fillable && "slug" !in fillable
    ensures var filled := Entity.Fill(fillable, attrs, input)["updated_by" := Int(userId)];
      var after := SaveState(k, State(tables, Updated(k, attrs, original, input, fillable, userId, s), original, stored), p).attributes;
      && Get(after, "updated_by") == Int(userId)
      && Get(after, "created_by") == Get(attrs, "created_by")
      && Get(after, "owned_by") == Get(attrs, "owned_by")
      && Get(after, "slug") == (if NeedsSlug(filled, original) then Str(s.slugFor(filled)) else Get(attrs, "slug"))
  {
    var filled := Entity.Fill(fillable, attrs, input)["updated_by" := Int(userId)];
    var slugged := if NeedsSlug(filled, original) then RefreshSlug(filled, s) else filled;
    var st := State(tables, Updated(k, attrs, original, input, fillable, userId, s), original, stored);
    SaveStateKeeps(k, st, p, "created_by");
    SaveStateKeeps(k, st, p, "updated_by");
    SaveStateKeeps(k, st, p, "owned_by");
    SaveStateKeeps(k, st, p, "slug");
    DescribedKeeps(k, slugged, input, s, "created_by");
    DescribedKeeps(k, slugged, input, s, "updated_by");
    DescribedKeeps(k, slugged, input, s, "owned_by");
    DescribedKeeps(k, slugged, input, s, "slug");
  }

  // ---------------------------------------------------------------------------------------------
  // updateCoverImage

  const ImagesTable := "images"

  /** The file handed to `updateCoverImage`: none, or one whose upload succeeds or throws. */
  datatype Upload = NoFile | File(fails: bool)

  const UploadError := "image upload failed"

  /** `imageRepo->destroyImage($image)`: the image's row goes; no image, nothing happens. */
  function Destroyed(tables: map<string, Table>, image: Option<Row>): map<string, Table> {
    if image.None? then tables
    else tables[ImagesTable := DeleteWhere(Entity.TableOf(tables, ImagesTable), EntityCover.IsImage(Get(image.value, "id")))]
  }

  /** The current cover, destroyed. */
  function WithoutCover(st: State): State {
    var cover := EntityCover.ImageOf(Get(st.attributes, EntityCover.ImageColumn), Entity.TableOf(st.tables, ImagesTable));
    st.(tables := Destroyed(st.tables, cover))
  }

  /** The image row `saveNew` stores for an uploaded cover: type `cover_<kind>`, uploaded to the entity. */
  function NewCover(k: Kind, entityId: Value, newImageId: int): Row {
    map["id" := Int(newImageId), "type" := Str("cover_" + TypeName(k)), "uploaded_to" := entityId]
  }

  /** The old cover destroyed, the new one stored and set, the entity saved. */
  function CoverReplaced(k: Kind, st: State, newImageId: int, p: SaveParams): State {
    var st1 := WithoutCover(st);
    var image := NewCover(k, Get(st1.attributes, "id"), newImageId);
    var st2 := st1.(tables := st1.tables[ImagesTable := Entity.TableOf(st1.tables, ImagesTable) + [image]],
                    attributes := st1.attributes[EntityCover.ImageColumn := EntityCover.ImageIdOf(Some(image))]);
    SaveState(k, st2, p)
  }

  /** The cover destroyed, the reference cleared, the entity saved. */
  function CoverRemoved(k: Kind, st: State, p: SaveParams): State {
    var st1 := WithoutCover(st);
    SaveState(k, st1.(attributes := st1.attributes[EntityCover.ImageColumn := EntityCover.ImageIdOf(None)]), p)
  }

  /** `updateCoverImage($entity, $coverImage, $removeImage)` as a function of the state before it. */
  function CoverUpdate(k: Kind, st: State, upload: Upload, removeImage: bool, newImageId: int, p: SaveParams): (Result<(), string>, State) {
    if upload.File? && upload.fails then (Err(UploadError), WithoutCover(st))
    else
      var st1 := if upload.File? then CoverReplaced(k, st, newImageId, p) else st;
      (Ok(()), if removeImage then CoverRemoved(k, st1, p) else st1)
  }

  /** `$entity->save()`, read as a step on the state of the model and its database. */
  method SaveModel(entity: Entity.EntityModel, db: Tables.Database, p: SaveParams)
    modifies entity, db
    ensures State(db.tables, entity.attributes, entity.original, entity.stored) ==
      SaveState(entity.kind, old(State(db.tables, entity.attributes, entity.original, entity.stored)), p)
  {
    var _ := entity.Save(db, p.newId, p.identityAccepted, p.payloadAccepted);
  }

  /** The image store: destroys the given image, if any. */
  method DestroyImage(db: Tables.Database, image: Option<Row>)
    modifies db
    ensures db.tables == Destroyed(old(db.tables), image)
  {
    if image.Some? {
      db.DeleteWhereIn(ImagesTable, EntityCover.IsImage(Get(image.value, "id")));
    }
  }

  /** `destroyImage($entity->coverInfo()->getImage())`. */
  method DestroyCover(entity: Entity.EntityModel, db: Tables.Database)
    requires entity.kind == Book || entity.kind == Bookshelf
    modifies db
    ensures State(db.tables, entity.attributes, entity.original, entity.stored) ==
      WithoutCover(old(State(db.tables, entity.attributes, entity.original, entity.stored)))
  {
    var cover := new EntityCover.Cover(entity);
    DestroyImage(db, cover.GetImage(db.Rows(ImagesTable)));
  }

  /** The uploaded-file branch: the old cover destroyed, then the new image stored, set and saved. */
  method ReplaceCover(entity: Entity.EntityModel, db: Tables.Database, fails: bool, newImageId: int, p: SaveParams)
    returns (r: Result<(), string>)
    requires entity.kind == Book || entity.kind == Bookshelf
    modifies entity, db
    ensures var before := old(State(db.tables, entity.attributes, entity.original, entity.stored));
      (r, State(db.tables, entity.attributes, entity.original, entity.stored)) ==
        if fails then (Err(UploadError), WithoutCover(before)) else (Ok(()), CoverReplaced(entity.kind, before, newImageId, p))
  {
    DestroyCover(entity, db);
    if fails {
      return Err(UploadError);
    }
    var image := NewCover(entity.kind, Get(entity.attributes, "id"), newImageId);
    db.InsertUsing(ImagesTable, [image]);
    var cover := new EntityCover.Cover(entity);
    cover.SetImage(Some(image));
    SaveModel(entity, db, p);
    return Ok(());
  }

  /** The `removeImage` branch: the cover destroyed, the reference cleared and saved. */
  method RemoveCover(entity: Entity.EntityModel, db: Tables.Database, p: SaveParams)
    requires entity.kind == Book || entity.kind == Bookshelf
    modifies entity, db
    ensures State(db.tables, entity.attributes, entity.original, entity.stored) ==
      CoverRemoved(entity.kind, old(State(db.tables, entity.attributes, entity.original, entity.stored)), p)
  {
    DestroyCover(entity, db);
    var cover := new EntityCover.Cover(entity);
    cover.SetImage(None);
    SaveModel(entity, db, p);
  }

  /** `updateCoverImage($entity, $coverImage, $removeImage)`; a failed upload throws. */
  method UpdateCoverImage(entity: Entity.EntityModel, db: Tables.Database, upload: Upload, removeImage: bool,
                          newImageId: int, p: SaveParams) returns (r: Result<(), string>)
    requires entity.kind == Book || entity.kind == Bookshelf
    modifies entity, db
    ensures (r, State(db.tables, entity.attributes, entity.original, entity.stored)) ==
      CoverUpdate(entity.kind, old(State(db.tables, entity.attributes, entity.original, entity.stored)), upload, removeImage, newImageId, p)
  {
    if upload.File? {
      r := ReplaceCover(entity, db, upload.fails, newImageId, p);
      if r.Err? {
        return;
      }
    }
    if removeImage {
      RemoveCover(entity, db, p);
    }
    r := Ok(());
  }

  /** With neither a file nor `removeImage`, nothing happens. */
  lemma CoverUpdateWithoutInput(k: Kind, st: State, newImageId: int, p: SaveParams)
    ensures CoverUpdate(k, st, NoFile, false, newImageId, p) == (Ok(()), st)
  {
  }

  /** The cover table is none of the tables `save` writes. */
  lemma ImagesNotSaved(k: Kind)
    ensures ImagesTable != IdentityTable && ImagesTable != Entity.PayloadTable(k)
  {
    assert ImagesTable[1] == 'm' && IdentityTable[1] == 'n';
    assert Entity.PayloadTable(k)[1] == 'n';
  }

  /**
   * A successful upload leaves the entity pointing at a new stored image of type `cover_<kind>`,
   * and the old cover's row is gone.
   */
  lemma CoverReplacedSetsImage(k: Kind, st: State, newImageId: int, p: SaveParams)
    requires Get(st.attributes, EntityCover.ImageColumn) != Int(newImageId)
    ensures var out := CoverUpdate(k, st, File(false), false, newImageId, p);
      var images := Entity.TableOf(out.1.tables, ImagesTable);
      && out.0 == Ok(())
      && Get(out.1.attributes, EntityCover.ImageColumn) == Int(newImageId)
      && NewCover(k, Get(st.attributes, "id"), newImageId) in images
      && EntityCover.ImageOf(Get(st.attributes, EntityCover.ImageColumn), Entity.TableOf(WithoutCover(st).tables, ImagesTable)).None?
  {
    var st1 := WithoutCover(st);
    var image := NewCover(k, Get(st1.attributes, "id"), newImageId);
    var st2 := st1.(tables := st1.tables[ImagesTable := Entity.TableOf(st1.tables, ImagesTable) + [image]],
                    attributes := st1.attributes[EntityCover.ImageColumn := EntityCover.ImageIdOf(Some(image))]);
    ImagesNotSaved(k);
    SaveStateKeeps(k, st2, p, EntityCover.ImageColumn);
    Entity.SaveTouchesOnly(k, st2.tables, st2.attributes, st2.original, st2.stored, p.newId, p.identityAccepted, p.payloadAccepted, ImagesTable);
    assert image in Entity.TableOf(st2.tables, ImagesTable);
    WithoutCoverDestroys(st);
  }

  /** Once destroyed, the old cover can no longer be found. */
  lemma WithoutCoverDestroys(st: State)
    ensures EntityCover.ImageOf(Get(st.attributes, EntityCover.ImageColumn), Entity.TableOf(WithoutCover(st).tables, ImagesTable)).None?
  {
    var id := Get(st.attributes, EntityCover.ImageColumn);
    var images := Entity.TableOf(st.tables, ImagesTable);
    var cover := EntityCover.ImageOf(id, images);
    if cover.Some? {
      var left := DeleteWhere(images, EntityCover.IsImage(Get(cover.value, "id")));
      assert Entity.TableOf(WithoutCover(st).tables, ImagesTable) == left;
      assert forall i | 0 <= i < |left| :: !EntityCover.IsImage(id)(left[i]) by {
        forall i | 0 <= i < |left| ensures !EntityCover.IsImage(id)(left[i]) {
          assert left[i] in left;
        }
      }
    }
  }

  /** `removeImage` clears the reference and destroys the old cover. */
  lemma CoverRemovedClears(k: Kind, st: State, newImageId: int, p: SaveParams)
    ensures var out := CoverUpdate(k, st, NoFile, true, newImageId, p);
      && out.0 == Ok(())
      && Get(out.1.attributes, EntityCover.ImageColumn) == Null
      && EntityCover.ImageOf(Get(st.attributes, EntityCover.ImageColumn), Entity.TableOf(WithoutCover(st).tables, ImagesTable)).None?
  {
    var st1 := WithoutCover(st);
    SaveStateKeeps(k, st1.(attributes := st1.attributes[EntityCover.ImageColumn := Null]), p, EntityCover.ImageColumn);
    WithoutCoverDestroys(st);
  }

  /**
   * A failed upload has already destroyed the old cover: the entity keeps its `image_id`, which now
   * names no image, and nothing is saved.
   */
  lemma FailedUploadDropsCover(k: Kind, st: State, removeImage: bool, newImageId: int, p: SaveParams)
    ensures var out := CoverUpdate(k, st, File(true), removeImage, newImageId, p);
      && out.0.Err?
      && out.1.attributes == st.attributes
      && EntityCover.ImageOf(Get(st.attributes, EntityCover.ImageColumn), Entity.TableOf(out.1.tables, ImagesTable)).None?
  {
    WithoutCoverDestroys(st);
  }

  // ---------------------------------------------------------------------------------------------
  // sortParent

  /** `sortParent($entity)`: the book whose auto sort runs, for a chapter or page; none otherwise. */
  function SortParent(k: Kind, attrs: Row): (book: Option<Value>)
    ensures book.Some? <==> k == Chapter || k == Page
    ensures book.Some? ==> book.value == Get(attrs, "book_id")
  {
    if IsBookChild(k) then Some(Get(attrs, "book_id")) else None
  }
}
