/** The schemas of `src/lib/validations/exhibition.ts`. `new Date` on a date
    text is the parameter `parse`; comparing two `Date`s compares their
    timestamps, and any comparison with an invalid date is false. */
module ExhibitionSchemas {
  import opened Common
  import opened DatabaseTypes
  import opened Zod
  import opened Utils

  /** `exhibitionSchema`'s fields; `status` is the enum's input text. */
  datatype ExhibitionInput = ExhibitionInput(
    title: string,
    artistName: string,
    description: Option<string>,
    startDate: string,
    endDate: string,
    status: Option<string>,
    posterImageUrl: Option<string>,
    slug: string)

  /** `exhibitionUpdateSchema`: every field optional. */
  datatype ExhibitionUpdateInput = ExhibitionUpdateInput(
    title: Option<string>,
    artistName: Option<string>,
    description: Option<string>,
    startDate: Option<string>,
    endDate: Option<string>,
    status: Option<string>,
    posterImageUrl: Option<string>,
    slug: Option<string>)

  /** The four statuses the forms may send. */
  const StatusValues: seq<string> := ["live", "scheduled", "archived", "draft"]

  /** The search's status values: `'all'` and the four statuses. */
  const SearchStatusValues: seq<string> := ["all", "live", "scheduled", "archived", "draft"]

  /** The refinement's message, reported on `end_date`. */
  const DateOrderMessage: string := "종료 날짜는 시작 날짜보다 늦어야 합니다"
  const DateOrderPath: string := "end_date"

  datatype Issue = Issue(path: string, message: string)

  predicate TitleOk(t: string) {
    LengthIn(t, 1, 200)
  }

  predicate ArtistNameOk(n: string) {
    LengthIn(n, 1, 100)
  }

  predicate DateTextOk(d: string) {
    MinLength(d, 1)
  }

  predicate SlugOk(s: string) {
    LengthIn(s, 1, 100)
  }

  predicate StatusOk(s: string) {
    s in StatusValues
  }

  /** The object checks, before the refinement. */
  predicate FieldsAccepted(f: Formats, x: ExhibitionInput) {
    TitleOk(x.title) && ArtistNameOk(x.artistName) && DateTextOk(x.startDate) && DateTextOk(x.endDate) &&
    Opt(x.status, StatusOk) && UrlOrEmpty(f, x.posterImageUrl) && SlugOk(x.slug)
  }

  /** `new Date(start_date) <= new Date(end_date)` */
  predicate DatesOrdered(start: Instant, end: Instant) {
    start.At? && end.At? && start.ms <= end.ms
  }

  /** The refinement's issue, if it fails. */
  function DateIssue(parse: string -> Instant, x: ExhibitionInput): (issue: Option<Issue>)
    ensures issue.None? <==> DatesOrdered(parse(x.startDate), parse(x.endDate))
    ensures issue.Some? ==> issue.value.path == "end_date" && issue.value.message == DateOrderMessage
  {
    if DatesOrdered(parse(x.startDate), parse(x.endDate)) then None else Some(Issue(DateOrderPath, DateOrderMessage))
  }

  /** `exhibitionSchema`: the object checks and the date order. */
  predicate ExhibitionAccepted(f: Formats, parse: string -> Instant, x: ExhibitionInput) {
    FieldsAccepted(f, x) && DateIssue(parse, x).None?
  }

  /** The dates decide on their own once the other fields pass: an end before the
      start, or a date `new Date` cannot read, is refused with the issue on
      `end_date`; the same day for both is accepted. */
  lemma DateOrderRefinement(f: Formats, parse: string -> Instant, x: ExhibitionInput)
    requires FieldsAccepted(f, x)
    ensures parse(x.startDate).At? && parse(x.endDate).At? ==>
              (ExhibitionAccepted(f, parse, x) <==> parse(x.startDate).ms <= parse(x.endDate).ms)
    ensures parse(x.startDate) == InvalidDate || parse(x.endDate) == InvalidDate ==>
              !ExhibitionAccepted(f, parse, x) && DateIssue(parse, x) == Some(Issue("end_date", DateOrderMessage))
    ensures parse(x.startDate) == parse(x.endDate) && parse(x.startDate).At? ==> ExhibitionAccepted(f, parse, x)
  {
  }

  /** An accepted exhibition's dates are ordered, so its derived status follows the
      calendar: scheduled before the start, live through the end day, archived
      afterwards. */
  lemma AcceptedStatusFollowsCalendar(f: Formats, parse: string -> Instant, x: ExhibitionInput, now: int)
    requires ExhibitionAccepted(f, parse, x)
    ensures var s := ExhibitionStatusAt(parse(x.startDate), parse(x.endDate), now);
            (s == Scheduled <==> now < parse(x.startDate).ms) &&
            (s == Live <==> parse(x.startDate).ms <= now <= parse(x.endDate).ms) &&
            (s == Archived <==> parse(x.endDate).ms < now)
  {
    StatusOfOrderedDates(parse(x.startDate).ms, parse(x.endDate).ms, now);
  }

  /** `exhibitionUpdateSchema`: the same field checks, each optional, and no
      date order. */
  predicate UpdateAccepted(f: Formats, x: ExhibitionUpdateInput) {
    Opt(x.title, TitleOk) && Opt(x.artistName, ArtistNameOk) && Opt(x.startDate, DateTextOk) &&
    Opt(x.endDate, DateTextOk) && Opt(x.status, StatusOk) && UrlOrEmpty(f, x.posterImageUrl) && Opt(x.slug, SlugOk)
  }

  function AsUpdate(x: ExhibitionInput): ExhibitionUpdateInput {
    ExhibitionUpdateInput(Some(x.title), Some(x.artistName), x.description, Some(x.startDate), Some(x.endDate),
                          x.status, x.posterImageUrl, Some(x.slug))
  }

  /** The update schema takes every create the object checks pass, whatever the
      order of its dates: an end before the start that `create` refuses passes as
      an update. */
  lemma UpdateHasNoDateOrder(f: Formats, parse: string -> Instant, x: ExhibitionInput)
    requires FieldsAccepted(f, x)
    ensures UpdateAccepted(f, AsUpdate(x))
    ensures !DatesOrdered(parse(x.startDate), parse(x.endDate)) ==>
              !ExhibitionAccepted(f, parse, x) && UpdateAccepted(f, AsUpdate(x))
  {
  }

  /** Creating needs a title of 1 to 200 code units, an artist of 1 to 100 and a
      slug of 1 to 100; a given status is one of the four, a given poster URL is a
      URL or empty. */
  lemma CreateBounds(f: Formats, parse: string -> Instant, x: ExhibitionInput)
    requires ExhibitionAccepted(f, parse, x)
    ensures 1 <= Utf16Length(x.title) <= 200 && 1 <= Utf16Length(x.artistName) <= 100 &&
            1 <= Utf16Length(x.slug) <= 100
    ensures x.status.Some? ==> ParseStatus(x.status.value).Some?
    ensures x.posterImageUrl.Some? && x.posterImageUrl.value != "" ==> f.isUrl(x.posterImageUrl.value)
  {
    if x.status.Some? {
      StatusNamesParse(x.status.value);
    }
  }

  /** The enum's text to the status it names. */
  function ParseStatus(s: string): (r: Option<ExhibitionStatus>)
    ensures r.Some? ==> StatusName(r.value) == s
  {
    if s == "live" then Some(Live)
    else if s == "scheduled" then Some(Scheduled)
    else if s == "archived" then Some(Archived)
    else if s == "draft" then Some(Draft)
    else None
  }

  /** The enum's four values are exactly the four statuses' names. */
  lemma StatusNamesParse(s: string)
    ensures StatusOk(s) <==> ParseStatus(s).Some?
    ensures forall st: ExhibitionStatus :: StatusOk(StatusName(st)) && ParseStatus(StatusName(st)) == Some(st)
  {
  }

  /** `exhibitionImageSchema` of this file: its order only needs to be at least 0,
      so a fractional order passes here though the exhibition image schemas
      refuse it. */
  predicate ImageAccepted(f: Formats, exhibitionId: string, imageUrl: string, displayOrder: Option<real>) {
    IsUuid(exhibitionId) && f.isUrl(imageUrl) && Opt(displayOrder, (o: real) => o >= 0.0)
  }

  lemma FractionalOrderAccepted(f: Formats, exhibitionId: string, imageUrl: string)
    requires IsUuid(exhibitionId) && f.isUrl(imageUrl)
    ensures ImageAccepted(f, exhibitionId, imageUrl, Some(1.5)) && !NonNegativeInt(1.5)
  {
    assert (1.5).Floor == 1;
  }

  datatype SearchInput = SearchInput(query: Option<string>, status: Option<string>, limit: Option<real>,
                                     offset: Option<real>)

  /** `exhibitionSearchSchema`: `'all'` or a status, a limit from 1 to 100 and an
      offset of at least 0 (neither has to be an integer). */
  predicate SearchAccepted(x: SearchInput) {
    Opt(x.status, (s: string) => s in SearchStatusValues) &&
    Opt(x.limit, (l: real) => 1.0 <= l <= 100.0) && Opt(x.offset, (o: real) => o >= 0.0)
  }

  /** The search takes `'all'` on top of the four statuses the forms may send. */
  lemma SearchStatuses(s: string)
    ensures s in SearchStatusValues <==> s == "all" || StatusOk(s)
    ensures !StatusOk("all")
  {
  }
}
