/** The artwork grid: the parameters it lists artworks with, what each card shows
    (the primary image, the "+n" badge, the link), and the value mapping of the
    filter panel, including the `parseInt` it applies to the year. */
module ArtworkGrid {
  import opened Common
  import opened DatabaseTypes
  import opened Artworks
  import ArtworkForms
  import opened Upload

  // ---------------------------------------------------------------------------
  // Listing
  // ---------------------------------------------------------------------------

  /** `loadArtworks`' parameters: the featured filter only when `featuredOnly`,
      otherwise none. */
  function GridParams(artistId: Option<nat>, limit: Option<nat>, featuredOnly: bool): (p: SearchParams)
    ensures p.artistId == artistId && p.limit == limit && p.year.None?
    ensures featuredOnly <==> p.isFeatured == Some(true)
    ensures !featuredOnly ==> p.isFeatured.None?
  {
    SearchParams(artistId, None, if featuredOnly then Some(true) else None, limit)
  }

  /** With `featuredOnly` the grid shows only featured artworks; without it, and
      without a limit, it shows every artwork of the artist, featured or not. */
  lemma GridListing(service: ArtworkService, artistId: nat, featuredOnly: bool)
    ensures featuredOnly ==>
              forall a :: a in service.GetAll(GridParams(Some(artistId), None, true)) ==> a.isFeatured
    ensures !featuredOnly ==>
              forall a :: a in service.artworks && a.artistId == artistId ==>
                a in service.GetAll(GridParams(Some(artistId), None, false))
  {
    var p := GridParams(Some(artistId), None, featuredOnly);
    var r := service.GetAll(p);
    if featuredOnly {
      forall a | a in r ensures a.isFeatured {
        var i :| 0 <= i < |r| && r[i] == a;
        assert Matches(p)(r[i]);
      }
    } else {
      forall a | a in service.artworks && a.artistId == artistId ensures a in r {
        var i :| 0 <= i < |service.artworks| && service.artworks[i] == a;
        assert Matches(p)(service.artworks[i]);
      }
    }
  }

  // ---------------------------------------------------------------------------
  // Cards
  // ---------------------------------------------------------------------------

  function IsPrimary(image: ArtworkImage): bool {
    image.isPrimary
  }

  /** `images.find(img => img.is_primary) || images[0]`. */
  function PrimaryImage(images: seq<ArtworkImage>): (r: Option<ArtworkImage>)
    ensures r.None? <==> images == []
    ensures (exists i :: 0 <= i < |images| && images[i].isPrimary) ==>
              exists k :: 0 <= k < |images| && r == Some(images[k]) && images[k].isPrimary &&
                          forall j :: 0 <= j < k ==> !images[j].isPrimary
    ensures (forall i :: 0 <= i < |images| ==> !images[i].isPrimary) && images != [] ==> r == Some(images[0])
  {
    var primary := Find(images, IsPrimary);
    if primary.Some? then primary
    else if images != [] then Some(images[0])
    else None
  }

  /** The "+n" badge: shown only for more than one image, counting the others. */
  function ImageCountBadge(images: seq<ArtworkImage>): (badge: Option<nat>)
    ensures badge.Some? <==> |images| > 1
    ensures badge.Some? ==> badge.value + 1 == |images|
  {
    if |images| > 1 then Some(|images| - 1) else None
  }

  /** `/artworks/${artwork.slug || artwork.id}`: an empty or missing slug falls
      back to the id. */
  function CardLink(a: ArtworkRecord): (href: string)
    ensures a.slug.Some? && a.slug.value != "" ==> href == "/artworks/" + a.slug.value
    ensures !(a.slug.Some? && a.slug.value != "") ==> href == "/artworks/" + NatToString(a.id)
  {
    "/artworks/" + if a.slug.Some? && a.slug.value != "" then a.slug.value else NatToString(a.id)
  }

  /** The image's alt text, or the title when it has none or an empty one. */
  function CardAlt(image: ArtworkImage, title: string): (alt: string)
    ensures image.altText.Some? && image.altText.value != "" ==> alt == image.altText.value
    ensures !(image.altText.Some? && image.altText.value != "") ==> alt == title
  {
    if image.altText.Some? && image.altText.value != "" then image.altText.value else title
  }

  /** A card for an artwork saved through the form with at least one upload shows
      the first recorded image, which the form marked primary. */
  lemma FormUploadShowsFirst(successes: seq<UploadResult>, title: string, artworkId: nat, firstId: nat)
    requires successes != []
    requires forall k :: 0 <= k < |successes| ==> successes[k].Uploaded? && successes[k].publicUrl != ""
    ensures var rows := StoredImages(artworkId, ArtworkForms.FormRecords(successes, title), firstId);
            rows != [] && PrimaryImage(rows) == Some(rows[0]) && rows[0].isPrimary
  {
    ArtworkForms.FormRecordsNumbered(successes, title);
    var rows := StoredImages(artworkId, ArtworkForms.FormRecords(successes, title), firstId);
    StoredImagesAt(artworkId, ArtworkForms.FormRecords(successes, title), firstId, 0);
    assert rows[0].isPrimary;
    var found := Find(rows, IsPrimary);
    var k :| 0 <= k < |rows| && rows[k] == found.value && IsPrimary(rows[k]) &&
             forall j :: 0 <= j < k ==> !IsPrimary(rows[j]);
    assert k == 0;
  }

  // ---------------------------------------------------------------------------
  // The filter panel
  // ---------------------------------------------------------------------------

  /** A JavaScript number as `parseInt` can return it. */
  datatype JsNumber = Num(value: int) | NaN

  /** The panel's fields as typed. */
  datatype FilterState = FilterState(query: string, year: string, materials: string, isFeatured: Option<bool>,
                                     sortBy: string)

  /** What `onFiltersChange` receives. */
  datatype FilterValues = FilterValues(query: Option<string>, year: Option<JsNumber>, materials: Option<string>,
                                       isFeatured: Option<bool>, sortBy: string)

  const InitialFilters: FilterState := FilterState("", "", "", None, "created_at")

  function TrimStart(s: string): (r: string)
    ensures |r| <= |s|
    ensures r == [] || !IsJsWhitespace(r[0])
  {
    if s != [] && IsJsWhitespace(s[0]) then TrimStart(s[1..]) else s
  }

  /** The longest run of digits at the start of `s`. */
  function LeadingDigits(s: string): (d: string)
    ensures IsPrefix(d, s)
    ensures forall i :: 0 <= i < |d| ==> IsAsciiDigit(d[i])
    ensures |d| < |s| ==> !IsAsciiDigit(s[|d|])
  {
    if s != [] && IsAsciiDigit(s[0]) then [s[0]] + LeadingDigits(s[1..]) else []
  }

  /** The value of a run of decimal digits. */
  function DigitsValue(d: string): nat
    requires forall i :: 0 <= i < |d| ==> IsAsciiDigit(d[i])
  {
    if d == [] then 0
    else
      assert IsAsciiDigit(d[|d| - 1]);
      DigitsValue(d[..|d| - 1]) * 10 + (d[|d| - 1] as int - '0' as int)
  }

  /** `parseInt(s)` in base 10: leading white space, an optional sign, then as many
      digits as follow; no digit at all gives NaN. */
  function ParseInt(s: string): JsNumber {
    var t := TrimStart(s);
    var negative := t != [] && t[0] == '-';
    var body := if t != [] && (t[0] == '-' || t[0] == '+') then t[1..] else t;
    var digits := LeadingDigits(body);
    if digits == [] then NaN
    else if negative then Num(-(DigitsValue(digits) as int))
    else Num(DigitsValue(digits))
  }

  /** Reading back the decimal text of a number gives the number. */
  lemma {:induction false} DigitsValueOfNat(n: nat)
    ensures DigitsValue(NatToString(n)) == n
    decreases n
  {
    if n >= 10 {
      var s := NatToString(n);
      assert s[..|s| - 1] == NatToString(n / 10);
      DigitsValueOfNat(n / 10);
    }
  }

  lemma LeadingDigitsOfNat(n: nat, rest: string)
    requires rest == [] || !IsAsciiDigit(rest[0])
    ensures LeadingDigits(NatToString(n) + rest) == NatToString(n)
  {
    var d := LeadingDigits(NatToString(n) + rest);
    var s := NatToString(n);
    LeadingDigitsAllDigits(s, rest);
  }

  lemma {:induction false} LeadingDigitsAllDigits(s: string, rest: string)
    requires forall i :: 0 <= i < |s| ==> IsAsciiDigit(s[i])
    requires rest == [] || !IsAsciiDigit(rest[0])
    ensures LeadingDigits(s + rest) == s
  {
    if s == [] {
      assert s + rest == rest;
    } else {
      assert (s + rest)[1..] == s[1..] + rest;
      LeadingDigitsAllDigits(s[1..], rest);
    }
  }

  /** A year typed as digits, with or without a minus sign, and with anything
      after a non-digit (a fraction, say) ignored, is read as that number. */
  lemma ParseIntOfNat(n: nat, rest: string)
    requires rest == [] || !IsAsciiDigit(rest[0])
    ensures ParseInt(NatToString(n) + rest) == Num(n)
    ensures ParseInt("-" + NatToString(n) + rest) == Num(-(n as int))
  {
    var s := NatToString(n);
    assert IsAsciiDigit(s[0]) && IsAsciiDigit((s + rest)[0]);
    LeadingDigitsOfNat(n, rest);
    DigitsValueOfNat(n);
    var neg := "-" + s + rest;
    assert neg[0] == '-' && neg[1..] == s + rest;
  }

  /** Some text is not a number at all. */
  lemma ParseIntNaN()
    ensures ParseInt("") == NaN && ParseInt("abc") == NaN && ParseInt("-") == NaN
  {
    assert LeadingDigits("abc") == [];
    assert "-"[1..] == [];
  }

  /** `handleFilterChange`: empty text fields become `undefined`, a non-empty year
      goes through `parseInt`, the featured choice and the order pass unchanged. */
  function FilterChange(s: FilterState): (v: FilterValues)
    ensures v.query.None? <==> s.query == ""
    ensures v.query.Some? ==> v.query.value == s.query
    ensures v.materials.None? <==> s.materials == ""
    ensures v.materials.Some? ==> v.materials.value == s.materials
    ensures v.year.None? <==> s.year == ""
    ensures v.year.Some? ==> v.year.value == ParseInt(s.year)
    ensures v.isFeatured == s.isFeatured && v.sortBy == s.sortBy
  {
    FilterValues(if s.query == "" then None else Some(s.query),
                 if s.year == "" then None else Some(ParseInt(s.year)),
                 if s.materials == "" then None else Some(s.materials),
                 s.isFeatured, s.sortBy)
  }

  /** The untouched panel asks for no filter at all, newest first. */
  lemma InitialFiltersEmpty()
    ensures FilterChange(InitialFilters) == FilterValues(None, None, None, None, "created_at")
  {
  }

  /** The featured select's value for a choice. */
  function FeaturedValue(isFeatured: Option<bool>): string {
    if isFeatured.None? then "" else if isFeatured.value then "true" else "false"
  }

  /** The featured select's change handler: "" is no choice, "true" is true, and
      any other value is false. */
  function FeaturedChoice(value: string): (r: Option<bool>)
    ensures r.None? <==> value == ""
    ensures r == Some(true) <==> value == "true"
  {
    if value == "" then None else Some(value == "true")
  }

  /** The select and its handler invert each other on the three options. */
  lemma FeaturedRoundTrip(isFeatured: Option<bool>, value: string)
    ensures FeaturedChoice(FeaturedValue(isFeatured)) == isFeatured
    ensures value in ["", "true", "false"] ==> FeaturedValue(FeaturedChoice(value)) == value
  {
  }
}
