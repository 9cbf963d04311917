/** The schemas of `src/lib/validations/artwork.ts` and the options the artwork
    forms offer. `new Date().getFullYear()`, read once when the schema is built,
    is the parameter `currentYear`. */
module ArtworkSchemas {
  import opened Common
  import opened Zod
  import opened Upload

  /** `artworkSchema`'s fields, every optional one as `None` when absent. */
  datatype ArtworkInput = ArtworkInput(
    artistId: string,
    title: string,
    year: Option<real>,
    materials: Option<string>,
    dimensions: Option<string>,
    description: Option<string>,
    isFeatured: Option<bool>)

  /** `artworkUpdateSchema`: the same fields, each of them optional. */
  datatype ArtworkUpdateInput = ArtworkUpdateInput(
    artistId: Option<string>,
    title: Option<string>,
    year: Option<real>,
    materials: Option<string>,
    dimensions: Option<string>,
    description: Option<string>,
    isFeatured: Option<bool>)

  predicate TitleOk(t: string) {
    LengthIn(t, 1, 200)
  }

  /** `.int().min(1800).max(currentYear)` */
  predicate YearOk(currentYear: int, y: real) {
    IsInt(y) && 1800.0 <= y <= currentYear as real
  }

  function AtMost(n: nat): string -> bool {
    (s: string) => MaxLength(s, n)
  }

  /** The checks on the fields other than the artist and the title. */
  predicate DetailsOk(currentYear: int, year: Option<real>, materials: Option<string>, dimensions: Option<string>,
                      description: Option<string>) {
    Opt(year, (y: real) => YearOk(currentYear, y)) && Opt(materials, AtMost(500)) &&
    Opt(dimensions, AtMost(100)) && Opt(description, AtMost(2000))
  }

  /** `artworkSchema` and `artworkCreateSchema`. */
  predicate ArtworkAccepted(currentYear: int, x: ArtworkInput) {
    IsUuid(x.artistId) && TitleOk(x.title) && DetailsOk(currentYear, x.year, x.materials, x.dimensions, x.description)
  }

  /** `artworkUpdateSchema`: `.partial()` of the same checks. */
  predicate ArtworkUpdateAccepted(currentYear: int, x: ArtworkUpdateInput) {
    Opt(x.artistId, IsUuid) && Opt(x.title, TitleOk) &&
    DetailsOk(currentYear, x.year, x.materials, x.dimensions, x.description)
  }

  function AsUpdate(x: ArtworkInput): ArtworkUpdateInput {
    ArtworkUpdateInput(Some(x.artistId), Some(x.title), x.year, x.materials, x.dimensions, x.description, x.isFeatured)
  }

  /** The create schema is the update schema with the artist and the title
      required: a create input passes exactly when, sent as an update, it passes.
      What passes keeps passing in later years. */
  lemma CreateIsUpdateWithRequired(currentYear: int, laterYear: int, x: ArtworkInput)
    requires currentYear <= laterYear
    ensures ArtworkAccepted(currentYear, x) <==> ArtworkUpdateAccepted(currentYear, AsUpdate(x))
    ensures ArtworkAccepted(currentYear, x) ==> ArtworkAccepted(laterYear, x)
  {
  }

  /** A fractional year, a year before 1800 and a future year are refused. */
  lemma YearRejections(currentYear: int, x: ArtworkInput)
    ensures x.year == Some(2000.5) ==> !ArtworkAccepted(currentYear, x)
    ensures x.year == Some(1799.0) ==> !ArtworkAccepted(currentYear, x)
    ensures x.year == Some((currentYear + 1) as real) ==> !ArtworkAccepted(currentYear, x)
  {
    if x.year == Some(2000.5) {
      assert (2000.5).Floor == 2000;
    }
  }

  /** The update schema accepts any subset of the fields: nothing at all, and
      everything a create would accept. */
  lemma UpdateIsPartial(currentYear: int, x: ArtworkInput)
    ensures ArtworkUpdateAccepted(currentYear, ArtworkUpdateInput(None, None, None, None, None, None, None))
    ensures ArtworkAccepted(currentYear, x) ==> ArtworkUpdateAccepted(currentYear, AsUpdate(x))
  {
  }

  /** `artworkSearchSchema`'s `sort_by` values and the order the sort select lists them. */
  const SortValues: seq<string> := ["title", "year", "created_at", "featured"]

  datatype ArtworkSearchInput = ArtworkSearchInput(
    query: Option<string>,
    artistId: Option<string>,
    year: Option<real>,
    isFeatured: Option<bool>,
    materials: Option<string>,
    sortBy: Option<string>,
    limit: Option<real>,
    offset: Option<real>)

  /** `artworkSearchSchema` */
  predicate SearchAccepted(x: ArtworkSearchInput) {
    Opt(x.artistId, IsUuid) && Opt(x.year, IsInt) &&
    Opt(x.sortBy, (s: string) => s in SortValues) &&
    Opt(x.limit, (l: real) => IsInt(l) && 0.0 < l <= 100.0) &&
    Opt(x.offset, NonNegativeInt)
  }

  /** The search takes any integral year, where creating takes only 1800 to the
      current year: a search for 1799 passes, and no artwork of 1799 can be created. */
  lemma SearchYearWiderThanCreate(currentYear: int, x: ArtworkInput)
    ensures SearchAccepted(ArtworkSearchInput(None, None, Some(1799.0), None, None, None, None, None))
    ensures x.year == Some(1799.0) ==> !ArtworkAccepted(currentYear, x)
  {
  }

  /** `artworkImageSchema` without its `File` check: alt text up to 200
      code units, an order that is an integer of at least 0. */
  predicate ImageAccepted(altText: Option<string>, isPrimary: Option<bool>, displayOrder: Option<real>) {
    Opt(altText, AtMost(200)) && Opt(displayOrder, NonNegativeInt)
  }

  /** `artworkImageUpdateSchema` checks the same fields as `artworkImageSchema`. */
  predicate ImageUpdateAccepted(altText: Option<string>, isPrimary: Option<bool>, displayOrder: Option<real>) {
    Opt(altText, AtMost(200)) && Opt(displayOrder, NonNegativeInt)
  }

  /** The image schemas cap the alt text at 200 code units. */
  lemma ImageAltCap(alt: string, isPrimary: Option<bool>, order: Option<real>)
    ensures Utf16Length(alt) > 200 ==> !ImageAccepted(Some(alt), isPrimary, order) && !ImageUpdateAccepted(Some(alt), isPrimary, order)
    ensures ImageAccepted(Some(alt), isPrimary, order) <==> ImageUpdateAccepted(Some(alt), isPrimary, order)
  {
  }

  /** `exhibitionArtworkSchema` */
  predicate ExhibitionArtworkAccepted(artworkId: string, exhibitionId: string, displayOrder: Option<real>,
                                      isFeatured: Option<bool>) {
    IsUuid(artworkId) && IsUuid(exhibitionId) && Opt(displayOrder, NonNegativeInt)
  }

  /** The types `imageFileSchema` takes; unlike the upload helper it refuses GIF. */
  const SchemaImageTypes: seq<string> := ["image/jpeg", "image/jpg", "image/png", "image/webp"]

  const SchemaMaxFileSize: nat := 10 * 1024 * 1024

  /** `imageFileSchema`'s two refinements. */
  predicate ImageFileAccepted(file: FileMeta) {
    file.size <= SchemaMaxFileSize && file.mimeType in SchemaImageTypes
  }

  /** A file the schema takes passes `validateImageFile` as well; a GIF, or a PNG of
      20 MiB, passes `validateImageFile` but not the schema. */
  lemma ImageFileSchemaNarrower(file: FileMeta)
    ensures ImageFileAccepted(file) ==> ValidateImageFile(file).Valid?
    ensures !ImageFileAccepted(FileMeta("a.gif", 1024, "image/gif")) &&
            ValidateImageFile(FileMeta("a.gif", 1024, "image/gif")).Valid?
    ensures !ImageFileAccepted(FileMeta("a.png", 20 * 1024 * 1024, "image/png")) &&
            ValidateImageFile(FileMeta("a.png", 20 * 1024 * 1024, "image/png")).Valid?
  {
    assert "image/gif" !in SchemaImageTypes;
  }

  /** `multipleImageUploadSchema`: 1 to 10 files, each one the file schema takes. */
  predicate MultipleUploadAccepted(files: seq<FileMeta>) {
    1 <= |files| <= 10 && forall i :: 0 <= i < |files| ==> ImageFileAccepted(files[i])
  }

  lemma MultipleUploadBounds(files: seq<FileMeta>)
    ensures MultipleUploadAccepted(files) ==>
              1 <= |files| <= 10 && (forall i :: 0 <= i < |files| ==> ValidateImageFile(files[i]).Valid?)
    ensures !MultipleUploadAccepted([])
  {
    if MultipleUploadAccepted(files) {
      forall i | 0 <= i < |files| ensures ValidateImageFile(files[i]).Valid? {
        ImageFileSchemaNarrower(files[i]);
      }
    }
  }

  /** An entry of `featuredOptions` or `sortOptions`. */
  datatype FeaturedOption = FeaturedOption(value: bool, text: string)
  datatype SortOption = SortOption(value: string, text: string)

  const FeaturedOptions: seq<FeaturedOption> := [FeaturedOption(true, "추천 작품"), FeaturedOption(false, "일반 작품")]

  const SortOptions: seq<SortOption> := [
    SortOption("title", "제목순"),
    SortOption("year", "제작연도순"),
    SortOption("created_at", "등록일순"),
    SortOption("featured", "추천작품순")
  ]

  /** The sort select offers exactly the search schema's keys, in its order, and
      the featured select offers true and then false. */
  lemma OptionsMatchSchema()
    ensures |SortOptions| == |SortValues| && forall i :: 0 <= i < |SortOptions| ==> SortOptions[i].value == SortValues[i]
    ensures |FeaturedOptions| == 2 && FeaturedOptions[0].value && !FeaturedOptions[1].value
  {
  }
}
