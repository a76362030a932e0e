/**
 * `EntityDefaultTemplate`: the page a book or chapter offers as the template for new pages, held in
 * its `default_template_id` attribute. The ids of the template pages visible to the current user,
 * and the rows of that query, are supplied by the caller.
 */
module EntityDefaultTemplate {
  import opened Wrappers
  import opened Php
  import opened Tables
  import opened EntityKinds
  import Entity

  const TemplateColumn := "default_template_id"

  /**
   * The `default_template_id` that `setFromId($templateId)` leaves: the current value when `intval`
   * of it is already `templateId`, null for 0, otherwise the id when a visible template page has it
   * and null when none does.
   */
  function TemplateAfterSet(current: Value, templateId: int, visibleTemplateIds: set<int>): (r: Value)
    ensures r == current || r == Null || r == Int(templateId)
    ensures r == Null || IntVal(r) == templateId
  {
    if templateId == IntVal(current) then current
    else if templateId == 0 then Null
    else if templateId in visibleTemplateIds then Int(templateId)
    else Null
  }

  /** Setting the id the reference already has changes nothing, however the templates have changed. */
  lemma SetSameIdKeeps(current: Value, visibleTemplateIds: set<int>)
    ensures TemplateAfterSet(current, IntVal(current), visibleTemplateIds) == current
  {
  }

  /** A new non-zero id is kept exactly when a visible template page has it; otherwise the reference is cleared. */
  lemma SetNewIdValidated(current: Value, templateId: int, visibleTemplateIds: set<int>)
    requires templateId != IntVal(current)
    ensures templateId == 0 ==> TemplateAfterSet(current, templateId, visibleTemplateIds) == Null
    ensures templateId != 0 ==>
      (TemplateAfterSet(current, templateId, visibleTemplateIds) == Int(templateId) <==> templateId in visibleTemplateIds)
    ensures TemplateAfterSet(current, templateId, visibleTemplateIds) == Int(templateId) ||
      TemplateAfterSet(current, templateId, visibleTemplateIds) == Null
  {
  }

  /** With the visible templates unchanged, a second `setFromId` with the same id changes nothing. */
  lemma SetFromIdIdempotent(current: Value, templateId: int, visibleTemplateIds: set<int>)
    ensures var once := TemplateAfterSet(current, templateId, visibleTemplateIds);
      TemplateAfterSet(once, templateId, visibleTemplateIds) == once
  {
  }

  /** The rows of the template query with the given id. */
  function IdIs(id: Value): Row -> bool {
    row => SqlEquals(Get(row, "id"), id)
  }

  /** `get()` on a stored value: no template for a falsy id, else the first visible template page with that id. */
  function TemplateOf(id: Value, templates: Table): (r: Option<Row>)
    ensures Falsy(id) ==> r == None
    ensures r.Some? ==> r.value in templates && Get(r.value, "id") == id
    ensures Truthy(id) && r == None ==> forall t | t in templates :: Get(t, "id") != id
  {
    if Falsy(id) then None else First(templates, IdIs(id))
  }

  class DefaultTemplate {
    const entity: Entity.EntityModel

    constructor(e: Entity.EntityModel)
      requires e.kind == Book || e.kind == Chapter
      ensures entity == e
    {
      entity := e;
    }

    /** `setFromId($templateId)`: writes `TemplateAfterSet` into the entity, which is left alone when nothing changes. */
    method SetFromId(templateId: int, visibleTemplateIds: set<int>)
      modifies entity
      ensures var current := old(Get(entity.attributes, TemplateColumn));
        entity.attributes ==
          if templateId == IntVal(current) then old(entity.attributes)
          else old(entity.attributes)[TemplateColumn := TemplateAfterSet(current, templateId, visibleTemplateIds)]
      ensures entity.original == old(entity.original) && entity.stored == old(entity.stored)
    {
      var changing := templateId != IntVal(Get(entity.attributes, TemplateColumn));
      if !changing {
        return;
      }

      if templateId == 0 {
        entity.attributes := entity.attributes[TemplateColumn := Null];
        return;
      }

      var templateExists := templateId in visibleTemplateIds;
      entity.attributes := entity.attributes[TemplateColumn := if templateExists then Int(templateId) else Null];
    }

    /** `get()`: the visible template page the entity names, if any. */
    function GetTemplate(templates: Table): (r: Option<Row>)
      reads entity
      ensures r.Some? ==> Truthy(Get(entity.attributes, TemplateColumn))
    {
      TemplateOf(Get(entity.attributes, TemplateColumn), templates)
    }
  }
}
