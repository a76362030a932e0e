/**
 * `EntityCover`: the cover image of a book or shelf, held in its `image_id` attribute. The images
 * table and the thumbnail generator are supplied by the caller; thumbnailing may fail, which the
 * model represents by `Threw`.
 */
module EntityCover {
  import opened Wrappers
  import opened Php
  import opened Tables
  import opened EntityKinds
  import Entity

  const ImageColumn := "image_id"

  /** The URL `getUrl()` falls back to: a transparent one-pixel GIF. */
  const DefaultCoverUrl := "data:image/gif;base64,R0lGODlhAQABAAAAACH5BAEKAAEALAAAAAABAAEAAAICTAEAOw=="

  /** What `getThumb()` gives for an image: a URL, null, or an exception. */
  datatype Thumb = Url(url: string) | NoUrl | Threw

  /** `imageQuery()`: the images whose id is the given one (none for a null id). */
  function IsImage(imageId: Value): Row -> bool {
    row => SqlEquals(Get(row, "id"), imageId)
  }

  /** `exists()` on a stored value: the id is set and an image has it. */
  predicate CoverExists(imageId: Value, images: Table) {
    imageId != Null && exists i | 0 <= i < |images| :: IsImage(imageId)(images[i])
  }

  /** `getImage()` on a stored value: the first image with the id, none for a null id. */
  function ImageOf(imageId: Value, images: Table): (r: Option<Row>)
    ensures imageId == Null ==> r == None
    ensures r.Some? ==> r.value in images && Get(r.value, "id") == imageId
  {
    if imageId == Null then None else First(images, IsImage(imageId))
  }

  /** `exists()` and `getImage()` agree: a cover exists exactly when there is an image to return. */
  lemma ExistsIffImage(imageId: Value, images: Table)
    ensures CoverExists(imageId, images) <==> ImageOf(imageId, images).Some?
  {
  }

  /**
   * `getUrl()` on a stored value: the thumbnail URL of the cover image when the id is truthy, the
   * image exists and a URL comes back; the default when the id is falsy (0 included), the image is
   * missing, no URL comes back or thumbnailing throws.
   */
  function CoverUrl(imageId: Value, images: Table, thumb: (Row, int, int) -> Thumb, width: int, height: int,
                    default: Option<string>): (r: Option<string>)
    ensures Falsy(imageId) ==> r == default
    ensures ImageOf(imageId, images).None? ==> r == default
    ensures Truthy(imageId) && ImageOf(imageId, images).Some? ==>
      var t := thumb(ImageOf(imageId, images).value, width, height);
      (t.Url? ==> r == Some(t.url)) && (!t.Url? ==> r == default)
    ensures r != default ==>
      r.Some? && Truthy(imageId) && ImageOf(imageId, images).Some? && thumb(ImageOf(imageId, images).value, width, height) == Url(r.value)
  {
    if Falsy(imageId) then default
    else match ImageOf(imageId, images)
      case None => default
      case Some(image) =>
        match thumb(image, width, height)
        case Url(u) => Some(u)
        case NoUrl => default
        case Threw => default
  }

  /** The `image_id` that `setImage($image)` writes. */
  function ImageIdOf(image: Option<Row>): Value {
    if image.None? then Null else Get(image.value, "id")
  }

  /** Each image id belongs to one image (`images.id` is the primary key). */
  ghost predicate KeyedById(images: Table) {
    forall i, j | 0 <= i < |images| && 0 <= j < |images| && Get(images[i], "id") == Get(images[j], "id") :: images[i] == images[j]
  }

  /** After `setImage($image)` with a stored image, `getImage()` returns that image; after `setImage(null)`, none. */
  lemma SetImageThenGetImage(image: Option<Row>, images: Table)
    requires KeyedById(images)
    requires image.Some? ==> image.value in images && Get(image.value, "id") != Null
    ensures ImageOf(ImageIdOf(image), images) == image
  {
    if image.Some? {
      var r := ImageOf(ImageIdOf(image), images);
      var k :| 0 <= k < |images| && images[k] == image.value;
      assert IsImage(ImageIdOf(image))(images[k]);
      var i :| 0 <= i < |images| && images[i] == r.value;
    }
  }

  class Cover {
    const entity: Entity.EntityModel

    constructor(e: Entity.EntityModel)
      requires e.kind == Book || e.kind == Bookshelf
      ensures entity == e
    {
      entity := e;
    }

    /** `exists()`. */
    predicate Exists(images: Table)
      reads entity
    {
      CoverExists(Get(entity.attributes, ImageColumn), images)
    }

    /** `getImage()`. */
    function GetImage(images: Table): (r: Option<Row>)
      reads entity
      ensures r.Some? <==> Exists(images)
    {
      ExistsIffImage(Get(entity.attributes, ImageColumn), images);
      ImageOf(Get(entity.attributes, ImageColumn), images)
    }

    /** `getUrl($width, $height, $default)`. */
    function GetUrl(images: Table, thumb: (Row, int, int) -> Thumb, width: int := 440, height: int := 250,
                    default: Option<string> := Some(DefaultCoverUrl)): (r: Option<string>)
      reads entity
      ensures !Exists(images) ==> r == default
      ensures Falsy(Get(entity.attributes, ImageColumn)) ==> r == default
      ensures r == CoverUrl(Get(entity.attributes, ImageColumn), images, thumb, width, height, default)
    {
      ExistsIffImage(Get(entity.attributes, ImageColumn), images);
      CoverUrl(Get(entity.attributes, ImageColumn), images, thumb, width, height, default)
    }

    /** `setImage($image)`: the cover becomes the given image, or none. */
    method SetImage(image: Option<Row>)
      modifies entity
      ensures entity.attributes == old(entity.attributes)[ImageColumn := ImageIdOf(image)]
      ensures entity.original == old(entity.original) && entity.stored == old(entity.stored)
    {
      if image == None {
        entity.attributes := entity.attributes[ImageColumn := Null];
      } else {
        entity.attributes := entity.attributes[ImageColumn := Get(image.value, "id")];
      }
    }
  }
}
