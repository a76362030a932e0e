/**
 * `BookRepo`: creating a book inside one transaction (the entity, its cover, its default template
 * and its default sort rule) and updating one (template and cover only when the input names them).
 * Activity logging is not part of this model; the `sorting-book-default` setting is supplied by the
 * caller, the sort rules are read from the `sort_rules` table.
 */
module BookRepo {
  import opened Wrappers
  import opened Php
  import opened Tables
  import opened EntityKinds
  import Entity
  import EntityDefaultTemplate
  import BaseRepo
  import BookModel

  const SortRulesTable := "sort_rules"

  /** `$input['image'] ?? null`, as the file `updateCoverImage` receives: a file when the value is not null. */
  function UploadOf(input: Row, uploadFails: bool): BaseRepo.Upload {
    if Get(input, "image") != Null then BaseRepo.File(uploadFails) else BaseRepo.NoFile
  }

  /** `SortRule::query()->find($id)` found a rule. */
  predicate SortRuleExists(tables: map<string, Table>, id: int) {
    exists row | row in Entity.TableOf(tables, SortRulesTable) :: Get(row, "id") == Int(id)
  }

  /** The sort rule `create` gives the book: the default setting, when it is non-zero and names a rule. */
  function DefaultSortRule(tables: map<string, Table>, sortSetting: Value): (rule: Option<int>)
    ensures rule.Some? <==> IntVal(sortSetting) != 0 && SortRuleExists(tables, IntVal(sortSetting))
    ensures rule.Some? ==> rule.value == IntVal(sortSetting)
  {
    var id := IntVal(sortSetting);
    if id != 0 && SortRuleExists(tables, id) then Some(id) else None
  }

  /** `defaultTemplate()->setFromId($templateId)` on a state. */
  function WithTemplate(st: BaseRepo.State, templateId: int, visibleTemplateIds: set<int>): BaseRepo.State {
    var current := Get(st.attributes, EntityDefaultTemplate.TemplateColumn);
    if templateId == IntVal(current) then st
    else st.(attributes := st.attributes[EntityDefaultTemplate.TemplateColumn :=
                                         EntityDefaultTemplate.TemplateAfterSet(current, templateId, visibleTemplateIds)])
  }

  /** The per-request answers `create` and `update` depend on. */
  datatype Request = Request(userId: int, services: BaseRepo.Services, save: BaseRepo.SaveParams, newImageId: int,
                             uploadFails: bool, visibleTemplateIds: set<int>)

  /** The attribute bag `create` starts the cover step from. */
  function CreatedBag(tables: map<string, Table>, input: Row, q: Request): BaseRepo.State {
    BaseRepo.SaveState(Book, BaseRepo.State(tables, BaseRepo.Prepared(Book, map[], input, BookModel.Fillable, q.userId, q.services), map[], false), q.save)
  }

  /** The steps of `create` after the cover: the template, the default sort rule, the last save. */
  function CreateFinish(st: BaseRepo.State, input: Row, q: Request, sortSetting: Value): BaseRepo.State {
    var st1 := WithTemplate(st, IntVal(Get(input, "default_template_id")), q.visibleTemplateIds);
    var rule := DefaultSortRule(st1.tables, sortSetting);
    var st2 := if rule.Some? then st1.(attributes := st1.attributes["sort_rule_id" := Int(rule.value)]) else st1;
    BaseRepo.SaveState(Book, st2, q.save)
  }

  /** `create($input)` as a function of the database before it; an error rolls everything back. */
  function CreateEffect(tables: map<string, Table>, input: Row, q: Request, sortSetting: Value): Result<BaseRepo.State, string> {
    var covered := BaseRepo.CoverUpdate(Book, CreatedBag(tables, input, q), UploadOf(input, q.uploadFails), false, q.newImageId, q.save);
    if covered.0.Err? then Err(covered.0.error) else Ok(CreateFinish(covered.1, input, q, sortSetting))
  }

  /** `create($input)`, inside `DatabaseTransaction`: on an exception the database is restored. */
  method Create(db: Tables.Database, input: Row, q: Request, sortSetting: Value) returns (r: Result<Entity.EntityModel, string>)
    modifies db
    ensures r.Err? ==> db.tables == old(db.tables) && CreateEffect(old(db.tables), input, q, sortSetting).Err?
    ensures r.Ok? ==>
      && fresh(r.value) && r.value.kind == Book
      && CreateEffect(old(db.tables), input, q, sortSetting) == Ok(BaseRepo.State(db.tables, r.value.attributes, r.value.original, r.value.stored))
  {
    var snapshot := db.tables;
    var book := BaseRepo.Create(Book, map[], input, BookModel.Fillable, q.userId, q.services, db, q.save);
    ghost var created := BaseRepo.State(db.tables, book.attributes, book.original, book.stored);
    assert created == CreatedBag(snapshot, input, q);
    var cover := BaseRepo.UpdateCoverImage(book, db, UploadOf(input, q.uploadFails), false, q.newImageId, q.save);
    ghost var covered := BaseRepo.State(db.tables, book.attributes, book.original, book.stored);
    assert (cover, covered) == BaseRepo.CoverUpdate(Book, created, UploadOf(input, q.uploadFails), false, q.newImageId, q.save);
    if cover.Err? {
      db.tables := snapshot;
      return Err(cover.error);
    }
    FinishCreate(book, db, input, q, sortSetting);
    return Ok(book);
  }

  /** The steps of `create` after the cover, on the model and the database. */
  method FinishCreate(book: Entity.EntityModel, db: Tables.Database, input: Row, q: Request, sortSetting: Value)
    requires book.kind == Book
    modifies book, db
    ensures BaseRepo.State(db.tables, book.attributes, book.original, book.stored) ==
      CreateFinish(old(BaseRepo.State(db.tables, book.attributes, book.original, book.stored)), input, q, sortSetting)
  {
    ApplyTemplate(book, db, IntVal(Get(input, "default_template_id")), q.visibleTemplateIds);
    ghost var templated := BaseRepo.State(db.tables, book.attributes, book.original, book.stored);

    var defaultBookSortSetting := IntVal(sortSetting);
    if defaultBookSortSetting != 0 && SortRuleExists(db.tables, defaultBookSortSetting) {
      book.attributes := book.attributes["sort_rule_id" := Int(defaultBookSortSetting)];
    }
    ghost var sorted := BaseRepo.State(db.tables, book.attributes, book.original, book.stored);
    assert sorted == (var rule := DefaultSortRule(templated.tables, sortSetting);
                      if rule.Some? then templated.(attributes := templated.attributes["sort_rule_id" := Int(rule.value)]) else templated);

    BaseRepo.SaveModel(book, db, q.save);
  }

  /** `$book->defaultTemplate()->setFromId($templateId)`, read as a step on the state. */
  method ApplyTemplate(entity: Entity.EntityModel, db: Tables.Database, templateId: int, visibleTemplateIds: set<int>)
    requires entity.kind == Book
    modifies entity
    ensures BaseRepo.State(db.tables, entity.attributes, entity.original, entity.stored) ==
      WithTemplate(old(BaseRepo.State(db.tables, entity.attributes, entity.original, entity.stored)), templateId, visibleTemplateIds)
  {
    var template := new EntityDefaultTemplate.DefaultTemplate(entity);
    template.SetFromId(templateId, visibleTemplateIds);
  }

  /** `create` fails exactly when a cover file is given and its upload throws; then the database is as before. */
  lemma CreateFailsOnlyOnUpload(tables: map<string, Table>, input: Row, q: Request, sortSetting: Value)
    ensures CreateEffect(tables, input, q, sortSetting).Err? <==> Get(input, "image") != Null && q.uploadFails
  {
  }

  /** Neither the cover step nor a save touches the template or sort rule columns. */
  lemma CoverKeeps(st: BaseRepo.State, upload: BaseRepo.Upload, removeImage: bool, q: Request, column: string)
    requires column != "type" && column != "id" && column != "image_id"
    ensures Get(BaseRepo.CoverUpdate(Book, st, upload, removeImage, q.newImageId, q.save).1.attributes, column) == Get(st.attributes, column)
  {
    var st1 := BaseRepo.WithoutCover(st);
    if upload.File? && !upload.fails {
      var image := BaseRepo.NewCover(Book, Get(st1.attributes, "id"), q.newImageId);
      BaseRepo.SaveStateKeeps(Book, st1.(tables := st1.tables[BaseRepo.ImagesTable := Entity.TableOf(st1.tables, BaseRepo.ImagesTable) + [image]],
                                          attributes := st1.attributes["image_id" := Get(image, "id")]), q.save, column);
      var st2 := BaseRepo.CoverReplaced(Book, st, q.newImageId, q.save);
      var st3 := BaseRepo.WithoutCover(st2);
      BaseRepo.SaveStateKeeps(Book, st3.(attributes := st3.attributes["image_id" := Null]), q.save, column);
    } else {
      BaseRepo.SaveStateKeeps(Book, st1.(attributes := st1.attributes["image_id" := Null]), q.save, column);
    }
  }

  /** A book is created without a template or sort rule: the book's only fillable column is its name. */
  lemma CreatedBagLacks(tables: map<string, Table>, input: Row, q: Request, column: string)
    requires column == EntityDefaultTemplate.TemplateColumn || column == "sort_rule_id"
    ensures Get(CreatedBag(tables, input, q).attributes, column) == Null
  {
    var filled := Entity.Fill(BookModel.Fillable, map[], input);
    BookModel.FillOnlyName(map[], input);
    BaseRepo.DescribedKeeps(Book, BaseRepo.RefreshSlug(BaseRepo.Stamped(filled, q.userId), q.services), input, q.services, column);
    var prepared := BaseRepo.Prepared(Book, map[], input, BookModel.Fillable, q.userId, q.services);
    BaseRepo.SaveStateKeeps(Book, BaseRepo.State(tables, prepared, map[], false), q.save, column);
  }

  /** After the steps that follow the cover, the template is what `setFromId` made of the one before. */
  lemma FinishTemplate(st: BaseRepo.State, input: Row, q: Request, sortSetting: Value)
    ensures var column := EntityDefaultTemplate.TemplateColumn;
      Get(CreateFinish(st, input, q, sortSetting).attributes, column) ==
        EntityDefaultTemplate.TemplateAfterSet(Get(st.attributes, column), IntVal(Get(input, column)), q.visibleTemplateIds)
  {
    var st1 := WithTemplate(st, IntVal(Get(input, "default_template_id")), q.visibleTemplateIds);
    var rule := DefaultSortRule(st1.tables, sortSetting);
    var st2 := if rule.Some? then st1.(attributes := st1.attributes["sort_rule_id" := Int(rule.value)]) else st1;
    BaseRepo.SaveStateKeeps(Book, st2, q.save, EntityDefaultTemplate.TemplateColumn);
  }

  /** After the steps that follow the cover, the sort rule is the default one when there is one. */
  lemma FinishSortRule(st: BaseRepo.State, input: Row, q: Request, sortSetting: Value)
    ensures var rule := DefaultSortRule(st.tables, sortSetting);
      Get(CreateFinish(st, input, q, sortSetting).attributes, "sort_rule_id") ==
        if rule.Some? then Int(rule.value) else Get(st.attributes, "sort_rule_id")
  {
    var st1 := WithTemplate(st, IntVal(Get(input, "default_template_id")), q.visibleTemplateIds);
    var rule := DefaultSortRule(st1.tables, sortSetting);
    var st2 := if rule.Some? then st1.(attributes := st1.attributes["sort_rule_id" := Int(rule.value)]) else st1;
    BaseRepo.SaveStateKeeps(Book, st2, q.save, "sort_rule_id");
  }

  /**
   * A created book's default template is what `setFromId(intval($input['default_template_id']))`
   * makes of an empty reference: none without the key (or with 0), the id when it names a visible
   * template.
   */
  lemma CreateTemplate(tables: map<string, Table>, input: Row, q: Request, sortSetting: Value)
    requires CreateEffect(tables, input, q, sortSetting).Ok?
    ensures Get(CreateEffect(tables, input, q, sortSetting).value.attributes, "default_template_id") ==
      EntityDefaultTemplate.TemplateAfterSet(Null, IntVal(Get(input, "default_template_id")), q.visibleTemplateIds)
  {
    var st1 := CreatedBag(tables, input, q);
    var column := EntityDefaultTemplate.TemplateColumn;
    CreatedBagLacks(tables, input, q, column);
    CoverKeeps(st1, UploadOf(input, q.uploadFails), false, q, column);
    FinishTemplate(BaseRepo.CoverUpdate(Book, st1, UploadOf(input, q.uploadFails), false, q.newImageId, q.save).1, input, q, sortSetting);
  }

  /** A created book gets the default sort rule exactly when the setting is non-zero and names a rule. */
  lemma CreateSortRule(tables: map<string, Table>, input: Row, q: Request, sortSetting: Value)
    requires CreateEffect(tables, input, q, sortSetting).Ok?
    ensures var rule := DefaultSortRule(BaseRepo.CoverUpdate(Book, CreatedBag(tables, input, q), UploadOf(input, q.uploadFails), false, q.newImageId, q.save).1.tables, sortSetting);
      Get(CreateEffect(tables, input, q, sortSetting).value.attributes, "sort_rule_id") == if rule.Some? then Int(rule.value) else Null
  {
    var st1 := CreatedBag(tables, input, q);
    CreatedBagLacks(tables, input, q, "sort_rule_id");
    CoverKeeps(st1, UploadOf(input, q.uploadFails), false, q, "sort_rule_id");
    FinishSortRule(BaseRepo.CoverUpdate(Book, st1, UploadOf(input, q.uploadFails), false, q.newImageId, q.save).1, input, q, sortSetting);
  }

  /** The first step of `update`: `BaseRepo::update`, which fills, stamps, re-slugs, describes and saves. */
  function UpdateBase(st: BaseRepo.State, input: Row, q: Request): BaseRepo.State {
    BaseRepo.SaveState(Book, st.(attributes := BaseRepo.Updated(Book, st.attributes, st.original, input, BookModel.Fillable, q.userId, q.services)), q.save)
  }

  /** The template step of `update`, taken only when the input has the `default_template_id` key. */
  function UpdateTemplate(st: BaseRepo.State, input: Row, q: Request): BaseRepo.State {
    if "default_template_id" in input then WithTemplate(st, IntVal(input["default_template_id"]), q.visibleTemplateIds) else st
  }

  /** The cover step of `update`, taken only when the input has the `image` key; a null image removes the cover. */
  function UpdateCover(st: BaseRepo.State, input: Row, q: Request): (Result<(), string>, BaseRepo.State) {
    if "image" in input
    then BaseRepo.CoverUpdate(Book, st, UploadOf(input, q.uploadFails), input["image"] == Null, q.newImageId, q.save)
    else (Ok(()), st)
  }

  /** `update($book, $input)` as a function of the state before it; it runs outside a transaction. */
  function UpdateEffect(st: BaseRepo.State, input: Row, q: Request): (Result<(), string>, BaseRepo.State) {
    var covered := UpdateCover(UpdateTemplate(UpdateBase(st, input, q), input, q), input, q);
    if covered.0.Err? then (Err(covered.0.error), covered.1)
    else (Ok(()), BaseRepo.SaveState(Book, covered.1, q.save))
  }

  /** `update($book, $input)`. */
  method Update(book: Entity.EntityModel, db: Tables.Database, input: Row, q: Request) returns (r: Result<(), string>)
    requires book.kind == Book
    modifies book, db
    ensures (r, BaseRepo.State(db.tables, book.attributes, book.original, book.stored)) ==
      UpdateEffect(old(BaseRepo.State(db.tables, book.attributes, book.original, book.stored)), input, q)
  {
    ghost var st0 := BaseRepo.State(db.tables, book.attributes, book.original, book.stored);
    UpdateFieldsAndTemplate(book, db, input, q);
    ghost var st1 := BaseRepo.State(db.tables, book.attributes, book.original, book.stored);
    r := ApplyCover(book, db, input, q);
    ghost var st2 := BaseRepo.State(db.tables, book.attributes, book.original, book.stored);
    UpdateEffectSteps(st0, st1, st2, r, input, q);
    if r.Err? {
      return;
    }

    BaseRepo.SaveModel(book, db, q.save);
  }

  /** `update` is the fields and template step, then the cover step, then, when the cover step succeeded, the save. */
  lemma UpdateEffectSteps(st0: BaseRepo.State, st1: BaseRepo.State, st2: BaseRepo.State, r: Result<(), string>, input: Row, q: Request)
    requires st1 == UpdateTemplate(UpdateBase(st0, input, q), input, q)
    requires (r, st2) == UpdateCover(st1, input, q)
    ensures r.Err? ==> UpdateEffect(st0, input, q) == (r, st2)
    ensures r.Ok? ==> UpdateEffect(st0, input, q) == (Ok(()), BaseRepo.SaveState(Book, st2, q.save))
  {
  }

  /** The steps of `update` before the cover, on the model and the database. */
  method UpdateFieldsAndTemplate(book: Entity.EntityModel, db: Tables.Database, input: Row, q: Request)
    requires book.kind == Book
    modifies book, db
    ensures BaseRepo.State(db.tables, book.attributes, book.original, book.stored) ==
      UpdateTemplate(UpdateBase(old(BaseRepo.State(db.tables, book.attributes, book.original, book.stored)), input, q), input, q)
  {
    ghost var st0 := BaseRepo.State(db.tables, book.attributes, book.original, book.stored);
    BaseRepo.Update(book, input, BookModel.Fillable, q.userId, q.services, db, q.save);
    ghost var st1 := BaseRepo.State(db.tables, book.attributes, book.original, book.stored);
    assert st1 == UpdateBase(st0, input, q);
    if "default_template_id" in input {
      ApplyTemplate(book, db, IntVal(input["default_template_id"]), q.visibleTemplateIds);
    }
  }

  /** The cover step of `update`, on the model and the database. */
  method ApplyCover(book: Entity.EntityModel, db: Tables.Database, input: Row, q: Request) returns (r: Result<(), string>)
    requires book.kind == Book
    modifies book, db
    ensures (r, BaseRepo.State(db.tables, book.attributes, book.original, book.stored)) ==
      UpdateCover(old(BaseRepo.State(db.tables, book.attributes, book.original, book.stored)), input, q)
  {
    r := Ok(());
    if "image" in input {
      r := BaseRepo.UpdateCoverImage(book, db, UploadOf(input, q.uploadFails), input["image"] == Null, q.newImageId, q.save);
    }
  }

  /** The first step of `update` keeps every column it neither fills, stamps, re-slugs nor describes, and the images. */
  lemma UpdateBaseKeeps(st: BaseRepo.State, input: Row, q: Request, column: string)
    requires column == EntityDefaultTemplate.TemplateColumn || column == "image_id"
    ensures Get(UpdateBase(st, input, q).attributes, column) == Get(st.attributes, column)
    ensures Entity.TableOf(UpdateBase(st, input, q).tables, BaseRepo.ImagesTable) == Entity.TableOf(st.tables, BaseRepo.ImagesTable)
  {
    var filled := Entity.Fill(BookModel.Fillable, st.attributes, input)["updated_by" := Int(q.userId)];
    BookModel.FillOnlyName(st.attributes, input);
    var slugged := if BaseRepo.NeedsSlug(filled, st.original) then BaseRepo.RefreshSlug(filled, q.services) else filled;
    BaseRepo.DescribedKeeps(Book, slugged, input, q.services, column);
    var st1 := st.(attributes := BaseRepo.Updated(Book, st.attributes, st.original, input, BookModel.Fillable, q.userId, q.services));
    BaseRepo.SaveStateKeeps(Book, st1, q.save, column);
    BaseRepo.ImagesNotSaved(Book);
    Entity.SaveTouchesOnly(Book, st1.tables, st1.attributes, st1.original, st1.stored, q.save.newId, q.save.identityAccepted, q.save.payloadAccepted, BaseRepo.ImagesTable);
  }

  /** Without the `default_template_id` key an update keeps the book's template. */
  lemma UpdateKeepsTemplateWithoutKey(st: BaseRepo.State, input: Row, q: Request)
    requires "default_template_id" !in input
    ensures Get(UpdateEffect(st, input, q).1.attributes, "default_template_id") == Get(st.attributes, "default_template_id")
  {
    var column := EntityDefaultTemplate.TemplateColumn;
    var st1 := UpdateBase(st, input, q);
    UpdateBaseKeeps(st, input, q, column);
    if "image" in input {
      CoverKeeps(st1, UploadOf(input, q.uploadFails), input["image"] == Null, q, column);
    }
    BaseRepo.SaveStateKeeps(Book, UpdateCover(st1, input, q).1, q.save, column);
  }

  /** Without the `image` key an update keeps the book's cover reference and the images table. */
  lemma UpdateKeepsCoverWithoutKey(st: BaseRepo.State, input: Row, q: Request)
    requires "image" !in input
    ensures Get(UpdateEffect(st, input, q).1.attributes, "image_id") == Get(st.attributes, "image_id")
    ensures Entity.TableOf(UpdateEffect(st, input, q).1.tables, BaseRepo.ImagesTable) == Entity.TableOf(st.tables, BaseRepo.ImagesTable)
  {
    UpdateBaseKeeps(st, input, q, "image_id");
    var st2 := UpdateTemplate(UpdateBase(st, input, q), input, q);
    BaseRepo.SaveStateKeeps(Book, st2, q.save, "image_id");
    BaseRepo.ImagesNotSaved(Book);
    Entity.SaveTouchesOnly(Book, st2.tables, st2.attributes, st2.original, st2.stored, q.save.newId, q.save.identityAccepted, q.save.payloadAccepted, BaseRepo.ImagesTable);
  }

  /** An `image` key holding null removes the cover. */
  lemma UpdateNullImageRemovesCover(st: BaseRepo.State, input: Row, q: Request)
    requires "image" in input && input["image"] == Null
    ensures UpdateEffect(st, input, q).0.Ok?
    ensures Get(UpdateEffect(st, input, q).1.attributes, "image_id") == Null
  {
    var st2 := UpdateTemplate(UpdateBase(st, input, q), input, q);
    BaseRepo.CoverRemovedClears(Book, st2, q.newImageId, q.save);
    BaseRepo.SaveStateKeeps(Book, UpdateCover(st2, input, q).1, q.save, "image_id");
  }
}
