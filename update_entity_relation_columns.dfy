/**
 * The data-cleaning part of the migration that moves entity relation columns onto the shared
 * identity table: `images.uploaded_to` and `activities.loggable_id` hold NULL rather than 0, gallery
 * and drawio images not uploaded to an existing page lose their page, and joint permissions are
 * rebuilt when there are none. The column type changes are not part of this model, and the rows
 * `JointPermissionBuilder::rebuildForAll()` writes are supplied by the caller.
 */
module UpdateEntityRelationColumns {
  import opened Seqs
  import opened Php
  import opened Tables
  import opened EntityKinds
  import Entity

  const ImagesTable := "images"
  const ActivitiesTable := "activities"
  const JointPermissionsTable := "joint_permissions"

  /** `where('type', '=', 'page')` on the identity table. */
  function IsPageRow(): Row -> bool {
    Where("type", Str("page"))
  }

  /** The page ids, as the sub-select `select id from entities where type = 'page'` yields them. */
  function PageIds(tables: map<string, Table>): set<Value> {
    ColumnValues(Filter(Entity.TableOf(tables, IdentityTable), IsPageRow()), "id")
  }

  /** `whereIn('type', ['gallery', 'drawio'])`: the image types that belong to a page. */
  predicate PageBound(image: Row) {
    Get(image, "type") == Str("gallery") || Get(image, "type") == Str("drawio")
  }

  /** The gallery and drawio images whose `uploaded_to` is not a page id. */
  function Orphaned(pageIds: set<Value>): Row -> bool {
    row => PageBound(row) && SqlNotIn(Get(row, "uploaded_to"), pageIds)
  }

  /** The zero-to-NULL updates that open the data clean-up. */
  function ZerosNulled(tables: map<string, Table>): map<string, Table> {
    var images := SetWhere(Entity.TableOf(tables, ImagesTable), Where("uploaded_to", Int(0)), "uploaded_to", Null);
    var activities := SetWhere(Entity.TableOf(tables, ActivitiesTable), Where("loggable_id", Int(0)), "loggable_id", Null);
    tables[ImagesTable := images][ActivitiesTable := activities]
  }

  /** The data changes of `up()`; `rebuilt` is what rebuilding the joint permissions writes. */
  function UpEffect(tables: map<string, Table>, rebuilt: Table): map<string, Table> {
    var zeroed := ZerosNulled(tables);
    var images := SetWhere(Entity.TableOf(zeroed, ImagesTable), Orphaned(PageIds(zeroed)), "uploaded_to", Null);
    var cleaned := zeroed[ImagesTable := images];
    if |Entity.TableOf(cleaned, JointPermissionsTable)| == 0 then cleaned[JointPermissionsTable := rebuilt] else cleaned
  }

  /**
   * The data change of `down()`: NULL `uploaded_to` values back to 0. The statement writes the
   * string '0', which the integer column stores as 0.
   */
  function DownEffect(tables: map<string, Table>): map<string, Table> {
    tables[ImagesTable := SetWhere(Entity.TableOf(tables, ImagesTable), Where("uploaded_to", Null), "uploaded_to", Int(0))]
  }

  /** The data changes of `up()`. */
  method Up(db: Database, rebuilt: Table)
    modifies db
    ensures db.tables == UpEffect(old(db.tables), rebuilt)
  {
    db.SetWhereIn(ImagesTable, Where("uploaded_to", Int(0)), "uploaded_to", Null);
    db.SetWhereIn(ActivitiesTable, Where("loggable_id", Int(0)), "loggable_id", Null);

    var pageIds := ColumnValues(Filter(db.Rows(IdentityTable), IsPageRow()), "id");
    db.SetWhereIn(ImagesTable, Orphaned(pageIds), "uploaded_to", Null);

    if |db.Rows(JointPermissionsTable)| == 0 {
      db.tables := db.tables[JointPermissionsTable := rebuilt];
    }
  }

  /** The data change of `down()`. */
  method Down(db: Database)
    modifies db
    ensures db.tables == DownEffect(old(db.tables))
  {
    db.SetWhereIn(ImagesTable, Where("uploaded_to", Null), "uploaded_to", Int(0));
  }

  // ---------------------------------------------------------------------------------------------
  // What the migration does

  /** The zero updates leave the identity table, and so the page ids, alone. */
  lemma ZerosNulledKeepsPages(tables: map<string, Table>)
    ensures PageIds(ZerosNulled(tables)) == PageIds(tables)
  {
    assert Entity.TableOf(ZerosNulled(tables), IdentityTable) == Entity.TableOf(tables, IdentityTable);
  }

  /**
   * `up` makes `uploaded_to` NULL where it was 0 and where a gallery or drawio image names no page;
   * every other image keeps its value, and every image keeps its place and its other columns.
   */
  lemma UpImages(tables: map<string, Table>, rebuilt: Table)
    ensures var before := Entity.TableOf(tables, ImagesTable);
      var after := Entity.TableOf(UpEffect(tables, rebuilt), ImagesTable);
      && |after| == |before|
      && (forall i | 0 <= i < |before| :: Get(after[i], "uploaded_to") ==
            if Get(before[i], "uploaded_to") == Int(0) then Null
            else if PageBound(before[i]) && SqlNotIn(Get(before[i], "uploaded_to"), PageIds(tables)) then Null
            else Get(before[i], "uploaded_to"))
      && (forall i, c | 0 <= i < |before| && c != "uploaded_to" :: Get(after[i], c) == Get(before[i], c))
  {
    ZerosNulledKeepsPages(tables);
    var before := Entity.TableOf(tables, ImagesTable);
    var zeroed := Entity.TableOf(ZerosNulled(tables), ImagesTable);
    assert zeroed == SetWhere(before, Where("uploaded_to", Int(0)), "uploaded_to", Null);
    var after := Entity.TableOf(UpEffect(tables, rebuilt), ImagesTable);
    assert after == SetWhere(zeroed, Orphaned(PageIds(tables)), "uploaded_to", Null);
    forall i | 0 <= i < |before| ensures PageBound(zeroed[i]) == PageBound(before[i]) {
      assert Get(zeroed[i], "type") == Get(before[i], "type");
    }
  }

  /** After `up`, every gallery or drawio image is uploaded to an existing page or to none. */
  lemma UpLeavesPageImagesOnPages(tables: map<string, Table>, rebuilt: Table, i: int)
    requires forall e | e in Entity.TableOf(tables, IdentityTable) && IsPageRow()(e) :: Get(e, "id") != Null
    requires 0 <= i < |Entity.TableOf(UpEffect(tables, rebuilt), ImagesTable)|
    ensures var image := Entity.TableOf(UpEffect(tables, rebuilt), ImagesTable)[i];
      PageBound(image) ==> Get(image, "uploaded_to") == Null || Get(image, "uploaded_to") in PageIds(UpEffect(tables, rebuilt))
  {
    UpImages(tables, rebuilt);
    ZerosNulledKeepsPages(tables);
    var before := Entity.TableOf(tables, ImagesTable);
    assert Get(before[i], "type") == Get(Entity.TableOf(UpEffect(tables, rebuilt), ImagesTable)[i], "type");
    assert Entity.TableOf(UpEffect(tables, rebuilt), IdentityTable) == Entity.TableOf(tables, IdentityTable);
    assert Null !in PageIds(tables);
  }

  /** `up` makes a 0 `loggable_id` NULL and keeps every other activity value and row. */
  lemma UpActivities(tables: map<string, Table>, rebuilt: Table)
    ensures var before := Entity.TableOf(tables, ActivitiesTable);
      var after := Entity.TableOf(UpEffect(tables, rebuilt), ActivitiesTable);
      && |after| == |before|
      && (forall i | 0 <= i < |before| :: Get(after[i], "loggable_id") ==
            if Get(before[i], "loggable_id") == Int(0) then Null else Get(before[i], "loggable_id"))
      && (forall i, c | 0 <= i < |before| && c != "loggable_id" :: Get(after[i], c) == Get(before[i], c))
  {
    assert Entity.TableOf(UpEffect(tables, rebuilt), ActivitiesTable) == Entity.TableOf(ZerosNulled(tables), ActivitiesTable);
  }

  /** Joint permissions are rebuilt exactly when there are none, and otherwise kept. */
  lemma UpJointPermissions(tables: map<string, Table>, rebuilt: Table)
    ensures Entity.TableOf(UpEffect(tables, rebuilt), JointPermissionsTable) ==
      if |Entity.TableOf(tables, JointPermissionsTable)| == 0 then rebuilt else Entity.TableOf(tables, JointPermissionsTable)
  {
    assert Entity.TableOf(ZerosNulled(tables), JointPermissionsTable) == Entity.TableOf(tables, JointPermissionsTable);
  }

  /**
   * `down` after `up` gives back every `uploaded_to` that was 0, and every other value up kept; the
   * page of an orphaned gallery or drawio image comes back as 0.
   */
  lemma DownAfterUpImages(tables: map<string, Table>, rebuilt: Table, i: int)
    requires 0 <= i < |Entity.TableOf(tables, ImagesTable)|
    ensures var before := Entity.TableOf(tables, ImagesTable);
      var back := Entity.TableOf(DownEffect(UpEffect(tables, rebuilt)), ImagesTable);
      var v := Get(before[i], "uploaded_to");
      && |back| == |before|
      && (v == Int(0) ==> Get(back[i], "uploaded_to") == Int(0))
      && (v != Null && !(PageBound(before[i]) && SqlNotIn(v, PageIds(tables))) ==> Get(back[i], "uploaded_to") == v)
      && (v != Int(0) && PageBound(before[i]) && SqlNotIn(v, PageIds(tables)) ==> Get(back[i], "uploaded_to") == Int(0))
  {
    UpImages(tables, rebuilt);
  }
}
