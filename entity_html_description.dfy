/**
 * `EntityHtmlDescription`: the pair of descriptions a shelf, book or chapter carries, its HTML
 * (`description_html`) and its plain text (`description`). Setting an empty HTML description with
 * non-empty plain text generates a paragraph from the text. The script filter that `getHtml()` runs
 * over non-raw HTML is supplied by the caller.
 */
module EntityHtmlDescription {
  import opened Wrappers
  import opened Php
  import opened Tables
  import opened EntityKinds
  import Entity

  /** `empty()` on a string: "" and "0". */
  predicate EmptyString(s: string) {
    s == "" || s == "0"
  }

  /** The paragraph built from plain text: `'<p>' . nl2br(e($plain)) . '</p>'`. */
  function Generated(plain: string): string {
    "<p>" + Nl2br(Escape(plain)) + "</p>"
  }

  /** The text a paragraph `<p>...</p>` stands for: its breaks removed and its entities decoded. */
  function ParagraphText(t: string): string {
    if |t| >= 7 then Unescape(RemoveBreaks(t[3..|t| - 4])) else ""
  }

  lemma ParagraphInner(x: string)
    ensures var t := "<p>" + x + "</p>"; |t| >= 7 && t[3..|t| - 4] == x
  {
    var t := "<p>" + x + "</p>";
    assert forall i | 0 <= i < |x| :: t[3 + i] == x[i];
  }

  /** The generated paragraph carries exactly the plain text it was built from. */
  lemma ParagraphTextGenerated(plain: string)
    ensures ParagraphText(Generated(plain)) == plain
  {
    ParagraphInner(Nl2br(Escape(plain)));
    RemoveBreaksNl2br(Escape(plain));
    UnescapeEscape(plain);
  }

  /** The object's two fields. */
  datatype Description = Description(html: string, plain: string)

  /** `getHtml(true)`: the stored HTML, or a paragraph generated from the plain text when it is empty. */
  function RawHtml(d: Description): (r: string)
    ensures !EmptyString(r)
    ensures r == d.html <==> !EmptyString(d.html)
    ensures EmptyString(d.html) ==> ParagraphText(r) == d.plain
  {
    ParagraphTextGenerated(d.plain);
    if EmptyString(d.html) then Generated(d.plain) else d.html
  }

  /**
   * `set($html, $plaintext)` on the object's fields: the HTML is taken as given, the plain text only
   * when given; an empty HTML with non-empty plain text is replaced by the filtered generated paragraph.
   */
  function AfterSet(d: Description, html: string, plaintext: Option<string>, filter: string -> string): Description {
    var plain := if plaintext.Some? then plaintext.value else d.plain;
    if EmptyString(html) && plaintext.Some? && !EmptyString(plaintext.value)
    then Description(filter(RawHtml(Description(html, plain))), plain)
    else Description(html, plain)
  }

  /** What `set` leaves in the fields, case by case. */
  lemma AfterSetCases(d: Description, html: string, plaintext: Option<string>, filter: string -> string)
    ensures var r := AfterSet(d, html, plaintext, filter);
      && (plaintext.None? ==> r == Description(html, d.plain))
      && (plaintext.Some? ==> r.plain == plaintext.value)
      && (!EmptyString(html) ==> r.html == html)
      && (plaintext.Some? && !EmptyString(plaintext.value) && EmptyString(html) ==> r.html == filter(Generated(plaintext.value)))
  {
  }

  /** Setting the same description twice is the same as setting it once. */
  lemma AfterSetIdempotent(d: Description, html: string, plaintext: Option<string>, filter: string -> string)
    ensures var once := AfterSet(d, html, plaintext, filter);
      AfterSet(once, html, plaintext, filter) == once
  {
  }

  /** The entity's attributes after `set`: `description_html` follows the object, `description` the given text. */
  function DescribedAttributes(attrs: Row, html: string, plaintext: Option<string>): Row {
    var a := attrs["description_html" := Str(html)];
    if plaintext.Some? then a["description" := Str(plaintext.value)] else a
  }

  /** Writing `description_html` a second time leaves only the second value. */
  lemma RewriteHtml(attrs: Row, first: string, second: string, plaintext: Option<string>)
    ensures DescribedAttributes(attrs, first, plaintext)["description_html" := Str(second)] == DescribedAttributes(attrs, second, plaintext)
  {
  }

  class HtmlDescription {
    const entity: Entity.EntityModel
    var html: string
    var plain: string

    /** Starts from the entity's stored descriptions, a missing one read as "". */
    constructor(e: Entity.EntityModel)
      requires e.kind != Page
      ensures entity == e
      ensures html == StrCast(Get(e.attributes, "description_html"))
      ensures plain == StrCast(Get(e.attributes, "description"))
    {
      entity := e;
      html := StrCast(Get(e.attributes, "description_html"));
      plain := StrCast(Get(e.attributes, "description"));
    }

    /** `set($html, $plaintext)`: updates the fields and, with them, the entity's two attributes. */
    method Set(newHtml: string, plaintext: Option<string>, filter: string -> string)
      modifies this, entity
      ensures Description(html, plain) == AfterSet(old(Description(html, plain)), newHtml, plaintext, filter)
      ensures entity.attributes == DescribedAttributes(old(entity.attributes), html, plaintext)
      ensures Get(entity.attributes, "description_html") == Str(html)
      ensures entity.original == old(entity.original) && entity.stored == old(entity.stored)
    {
      ghost var attrs := entity.attributes;
      html := newHtml;
      entity.attributes := entity.attributes["description_html" := Str(html)];

      if plaintext.Some? {
        plain := plaintext.value;
        entity.attributes := entity.attributes["description" := Str(plain)];
      }

      if EmptyString(newHtml) && plaintext.Some? && !EmptyString(plaintext.value) {
        html := GetHtml(false, filter);
        entity.attributes := entity.attributes["description_html" := Str(html)];
        RewriteHtml(attrs, newHtml, html, plaintext);
      }
    }

    /** `getHtml($raw)`: the raw HTML of `RawHtml`, passed through the script filter unless `raw`. */
    function GetHtml(raw: bool, filter: string -> string): (r: string)
      reads this
      ensures raw && !EmptyString(html) ==> r == html
      ensures raw && EmptyString(html) ==> ParagraphText(r) == plain
      ensures !raw ==> r == filter(RawHtml(Description(html, plain)))
    {
      var h := RawHtml(Description(html, plain));
      if raw then h else filter(h)
    }

    /** `getPlain()`: the plain text last set, or the stored one. */
    function GetPlain(): string
      reads this
    {
      plain
    }
  }
}
