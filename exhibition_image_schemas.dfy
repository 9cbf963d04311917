/** The schemas of `src/lib/validations/exhibition-image.ts` and the type options
    the forms offer. */
module ExhibitionImageSchemas {
  import opened Common
  import opened DatabaseTypes
  import opened Zod
  import ExhibitionImages

  /** `exhibitionImageTypeSchema`'s values, in the order the enum lists them. */
  const TypeNames: seq<string> := ["poster", "artwork", "installation", "detail", "opening", "space"]

  predicate ImageTypeAccepted(s: string) {
    s in TypeNames
  }

  /** The enum accepts exactly the six stored names, each naming its type, listed in
      the same order as the types. */
  lemma ImageTypeSchemaExact(s: string)
    ensures ImageTypeAccepted(s) <==> ParseImageType(s).Some?
    ensures ImageTypeAccepted(s) ==> TypeName(ParseImageType(s).value) == s
    ensures |TypeNames| == |AllImageTypes| &&
            forall i :: 0 <= i < |TypeNames| ==> TypeNames[i] == TypeName(AllImageTypes[i])
  {
  }

  /** One entry of `imageTypeOptions`. */
  datatype TypeOption = TypeOption(value: string, title: string, description: string)

  const ImageTypeOptions: seq<TypeOption> := [
    TypeOption("poster", "포스터", "전시 메인 포스터 이미지"),
    TypeOption("artwork", "작품", "전시된 작품 이미지"),
    TypeOption("installation", "설치 뷰", "작품 설치 전경 이미지"),
    TypeOption("detail", "세부", "작품 상세 부분 이미지"),
    TypeOption("opening", "오프닝", "오프닝 행사 이미지"),
    TypeOption("space", "공간", "전시 공간 이미지")
  ]

  /** The options follow the enum's order, and their labels are the service's
      labels for the same types. */
  lemma OptionsMatchTypes()
    ensures |ImageTypeOptions| == |AllImageTypes|
    ensures forall i :: 0 <= i < |ImageTypeOptions| ==>
              ImageTypeOptions[i].value == TypeNames[i] &&
              ImageTypeOptions[i].title == ExhibitionImages.Label(AllImageTypes[i])
  {
  }

  /** `display_order: z.number().int().min(0).optional()` */
  predicate OrderOk(o: Option<real>) {
    Opt(o, NonNegativeInt)
  }

  datatype CreateInput = CreateInput(exhibitionId: string, imageUrl: string, altText: Option<string>,
                                     displayOrder: Option<real>, imageType: string)

  predicate CreateAccepted(f: Formats, x: CreateInput) {
    IsUuid(x.exhibitionId) && f.isUrl(x.imageUrl) && OrderOk(x.displayOrder) && ImageTypeAccepted(x.imageType)
  }

  datatype UpdateInput = UpdateInput(altText: Option<string>, displayOrder: Option<real>, imageType: Option<string>)

  predicate UpdateAccepted(x: UpdateInput) {
    OrderOk(x.displayOrder) && Opt(x.imageType, ImageTypeAccepted)
  }

  datatype UploadEntry = UploadEntry(imageType: string, altText: Option<string>, displayOrder: Option<real>)

  datatype BulkUploadInput = BulkUploadInput(exhibitionId: string, uploads: seq<UploadEntry>)

  predicate BulkUploadAccepted(x: BulkUploadInput) {
    IsUuid(x.exhibitionId) && |x.uploads| >= 1 &&
    forall i :: 0 <= i < |x.uploads| ==> ImageTypeAccepted(x.uploads[i].imageType) && OrderOk(x.uploads[i].displayOrder)
  }

  /** `exhibitionImageReorderSchema`, the length refinement included. */
  predicate ReorderAccepted(imageIds: seq<string>, newOrders: seq<real>) {
    |imageIds| >= 1 && (forall i :: 0 <= i < |imageIds| ==> IsUuid(imageIds[i])) &&
    |newOrders| >= 1 && (forall i :: 0 <= i < |newOrders| ==> NonNegativeInt(newOrders[i])) &&
    |imageIds| == |newOrders|
  }

  datatype SearchInput = SearchInput(exhibitionId: string, imageType: Option<string>, sortBy: Option<string>,
                                     limit: Option<real>, offset: Option<real>)

  predicate SearchAccepted(x: SearchInput) {
    IsUuid(x.exhibitionId) && Opt(x.imageType, ImageTypeAccepted) &&
    Opt(x.sortBy, (s: string) => s in ["display_order", "created_at", "image_type"]) &&
    Opt(x.limit, (l: real) => IsInt(l) && 1.0 <= l <= 100.0) &&
    Opt(x.offset, NonNegativeInt)
  }

  datatype CopyInput = CopyInput(fromExhibitionId: string, toExhibitionId: string, imageTypes: Option<seq<string>>)

  predicate CopyAccepted(x: CopyInput) {
    IsUuid(x.fromExhibitionId) && IsUuid(x.toExhibitionId) &&
    Opt(x.imageTypes, (ts: seq<string>) => forall i :: 0 <= i < |ts| ==> ImageTypeAccepted(ts[i]))
  }

  /** `exhibitionImageFormSchema`, with `display_order` already coerced to a number. */
  datatype FormInput = FormInput(altText: Option<string>, displayOrder: Option<real>, imageType: string)

  predicate FormAccepted(x: FormInput) {
    Opt(x.altText, (a: string) => MaxLength(a, 255)) && OrderOk(x.displayOrder) && ImageTypeAccepted(x.imageType)
  }

  /** A reorder request passes exactly when it pairs at least one image id with an
      order, one for one, and each of its pairs is an update of one image's order
      that the update schema accepts. */
  lemma ReorderIsUpdates(imageIds: seq<string>, newOrders: seq<real>)
    ensures ReorderAccepted(imageIds, newOrders) <==>
              |imageIds| == |newOrders| >= 1 &&
              forall i :: 0 <= i < |imageIds| ==>
                IsUuid(imageIds[i]) && UpdateAccepted(UpdateInput(None, Some(newOrders[i]), None))
  {
  }

  /** An accepted search's limit is never 0, so the service's truthiness test on
      `limit` applies every limit the schema lets through, and its type filter names
      a stored image type. */
  lemma SearchLimitApplied(x: SearchInput)
    ensures SearchAccepted(x) && x.limit.Some? ==> x.limit.value != 0.0 && x.limit.value <= 100.0
    ensures SearchAccepted(x) && x.imageType.Some? ==> ParseImageType(x.imageType.value).Some?
    ensures !SearchAccepted(SearchInput(x.exhibitionId, x.imageType, x.sortBy, Some(0.0), x.offset))
  {
    if SearchAccepted(x) && x.imageType.Some? {
      ImageTypeSchemaExact(x.imageType.value);
    }
  }

  /** Every field of the update schema may be left out, but a given order must be
      an integer of at least 0 and a given type one of the six. */
  lemma UpdateAllOptional(a: Option<string>, order: real, t: string)
    ensures UpdateAccepted(UpdateInput(None, None, None))
    ensures UpdateAccepted(UpdateInput(a, Some(order), None)) <==> IsInt(order) && order >= 0.0
    ensures UpdateAccepted(UpdateInput(a, None, Some(t))) <==> t in TypeNames
  {
  }

  /** The edit form requires a type and caps the alt text at 255 code units; what it
      accepts the update schema accepts too. */
  lemma FormNarrowsUpdate(x: FormInput)
    ensures FormAccepted(x) ==> UpdateAccepted(UpdateInput(x.altText, x.displayOrder, Some(x.imageType)))
    ensures x.altText.Some? && Utf16Length(x.altText.value) > 255 ==> !FormAccepted(x)
    ensures !ImageTypeAccepted(x.imageType) ==> !FormAccepted(x)
  {
  }

  /** Given a URL for each file, the entries of a bulk upload that passes are
      single images the create schema accepts, and a bulk upload whose every entry
      would be accepted that way passes once it has one entry. */
  lemma BulkEntriesAreCreates(f: Formats, x: BulkUploadInput, url: string)
    requires f.isUrl(url)
    ensures BulkUploadAccepted(x) <==>
              |x.uploads| >= 1 &&
              forall i :: 0 <= i < |x.uploads| ==>
                CreateAccepted(f, CreateInput(x.exhibitionId, url, x.uploads[i].altText, x.uploads[i].displayOrder,
                                              x.uploads[i].imageType))
  {
    if |x.uploads| >= 1 {
      var e := x.uploads[0];
      assert CreateAccepted(f, CreateInput(x.exhibitionId, url, e.altText, e.displayOrder, e.imageType)) ==>
             IsUuid(x.exhibitionId);
    }
  }
}
