/** The schemas of `src/lib/validations/artist.ts`: an artist with the lists of
    their education, exhibitions and awards, the partial update, the image and
    the search. A year in these lists is text whose length alone is checked;
    lengths are JavaScript's, in UTF-16 code units. */
module ArtistSchemas {
  import opened Common
  import opened Zod
  import ArtworkSchemas

  datatype Education = Education(school: string, degree: string, year: string)

  /** `exhibitionEntrySchema`; `entryType` is the optional `type` enum's text. */
  datatype ExhibitionEntry = ExhibitionEntry(title: string, year: string, venue: string, entryType: Option<string>)

  datatype Award = Award(title: string, year: string, organization: string)

  /** `.min(4).max(4)` on a year. */
  predicate YearTextOk(year: string) {
    LengthIn(year, 4, 4)
  }

  predicate EducationAccepted(e: Education) {
    MinLength(e.school, 1) && MinLength(e.degree, 1) && YearTextOk(e.year)
  }

  predicate EntryAccepted(e: ExhibitionEntry) {
    MinLength(e.title, 1) && YearTextOk(e.year) && MinLength(e.venue, 1) && Opt(e.entryType, (t: string) => t in ["solo", "group"])
  }

  predicate AwardAccepted(a: Award) {
    MinLength(a.title, 1) && YearTextOk(a.year) && MinLength(a.organization, 1)
  }

  /** A year is exactly four code units of any kind: "2024" passes, "24" and
      "20240" do not, and neither does a list entry with an empty name. Two
      characters outside the Basic Multilingual Plane make four code units, so
      "𝟚𝟘" passes too. */
  lemma YearIsLengthOnly(school: string, degree: string)
    requires school != [] && degree != []
    ensures EducationAccepted(Education(school, degree, "2024"))
    ensures EducationAccepted(Education(school, degree, "abcd"))
    ensures EducationAccepted(Education(school, degree, "\U{1D7DA}\U{1D7D8}"))
    ensures !EducationAccepted(Education(school, degree, "24"))
    ensures !EducationAccepted(Education(school, degree, "20240"))
    ensures !EducationAccepted(Education("", degree, "2024")) && !AwardAccepted(Award("", "2024", school))
  {
    YearTextExamples();
    assert MinLength(school, 1) && MinLength(degree, 1);
    assert !MinLength("", 1);
  }

  /** The year texts of `YearIsLengthOnly`, measured in UTF-16 code units. */
  lemma YearTextExamples()
    ensures YearTextOk("2024") && YearTextOk("abcd") && YearTextOk("\U{1D7DA}\U{1D7D8}")
    ensures !YearTextOk("24") && !YearTextOk("20240")
  {
    Utf16LengthBmp("2024");
    Utf16LengthBmp("abcd");
    Utf16LengthBmp("24");
    Utf16LengthBmp("20240");
    AstralYearLength();
  }

  /** Two mathematical digits outside the Basic Multilingual Plane take two code
      units each. */
  lemma AstralYearLength()
    ensures Utf16Length("\U{1D7DA}\U{1D7D8}") == 4
  {
    assert "\U{1D7DA}\U{1D7D8}"[1..] == "\U{1D7D8}";
    assert "\U{1D7D8}"[1..] == "";
  }

  /** An exhibition entry has the shape of an award, with the venue in the
      organization's place, plus an optional type of solo or group: it passes
      exactly when that award passes and its type does. */
  lemma EntryIsAwardWithType(e: ExhibitionEntry)
    ensures EntryAccepted(e) <==>
              AwardAccepted(Award(e.title, e.year, e.venue)) &&
              (e.entryType.Some? ==> e.entryType.value == "solo" || e.entryType.value == "group")
  {
  }

  predicate AllEducation(es: seq<Education>) {
    forall i :: 0 <= i < |es| ==> EducationAccepted(es[i])
  }

  predicate AllEntries(es: seq<ExhibitionEntry>) {
    forall i :: 0 <= i < |es| ==> EntryAccepted(es[i])
  }

  predicate AllAwards(as_: seq<Award>) {
    forall i :: 0 <= i < |as_| ==> AwardAccepted(as_[i])
  }

  datatype ArtistInput = ArtistInput(
    name: string,
    profileImageUrl: Option<string>,
    biography: Option<string>,
    education: Option<seq<Education>>,
    exhibitions: Option<seq<ExhibitionEntry>>,
    awards: Option<seq<Award>>,
    slug: string)

  /** `artistSchema`. */
  predicate ArtistAccepted(f: Formats, x: ArtistInput) {
    LengthIn(x.name, 1, 100) && UrlOrEmpty(f, x.profileImageUrl) &&
    Opt(x.biography, (b: string) => MaxLength(b, 2000)) &&
    Opt(x.education, AllEducation) && Opt(x.exhibitions, AllEntries) && Opt(x.awards, AllAwards) &&
    LengthIn(x.slug, 1, 100)
  }

  /** `artistUpdateSchema`: `.partial()`; the list entries keep their checks. */
  datatype ArtistUpdateInput = ArtistUpdateInput(
    name: Option<string>,
    profileImageUrl: Option<string>,
    biography: Option<string>,
    education: Option<seq<Education>>,
    exhibitions: Option<seq<ExhibitionEntry>>,
    awards: Option<seq<Award>>,
    slug: Option<string>)

  predicate ArtistUpdateAccepted(f: Formats, x: ArtistUpdateInput) {
    Opt(x.name, (n: string) => LengthIn(n, 1, 100)) && UrlOrEmpty(f, x.profileImageUrl) &&
    Opt(x.biography, (b: string) => MaxLength(b, 2000)) &&
    Opt(x.education, AllEducation) && Opt(x.exhibitions, AllEntries) && Opt(x.awards, AllAwards) &&
    Opt(x.slug, (s: string) => LengthIn(s, 1, 100))
  }

  function AsUpdate(x: ArtistInput): ArtistUpdateInput {
    ArtistUpdateInput(Some(x.name), x.profileImageUrl, x.biography, x.education, x.exhibitions, x.awards, Some(x.slug))
  }

  /** An artist has a name and a slug of 1 to 100 code units and a biography of
      at most 2000; the update takes nothing at all and everything a create takes. */
  lemma ArtistBounds(f: Formats, x: ArtistInput)
    ensures ArtistAccepted(f, x) ==>
              1 <= Utf16Length(x.name) <= 100 && 1 <= Utf16Length(x.slug) <= 100 &&
              (x.biography.Some? ==> Utf16Length(x.biography.value) <= 2000)
    ensures ArtistAccepted(f, x) ==> ArtistUpdateAccepted(f, AsUpdate(x))
    ensures ArtistUpdateAccepted(f, ArtistUpdateInput(None, None, None, None, None, None, None))
  {
  }

  /** One bad entry spoils the whole list, in a create and in an update alike. */
  lemma BadEntrySpoilsList(f: Formats, x: ArtistInput, es: seq<Education>, k: nat)
    requires k < |es| && !EducationAccepted(es[k])
    ensures !ArtistAccepted(f, x.(education := Some(es)))
    ensures !ArtistUpdateAccepted(f, AsUpdate(x).(education := Some(es)))
  {
  }

  /** `artistImageSchema`: an order of at least 0, not necessarily an integer. */
  predicate ImageAccepted(f: Formats, artistId: string, imageUrl: string, displayOrder: Option<real>) {
    IsUuid(artistId) && f.isUrl(imageUrl) && Opt(displayOrder, (o: real) => o >= 0.0)
  }

  datatype SearchInput = SearchInput(query: Option<string>, limit: Option<real>, offset: Option<real>,
                                     sortBy: Option<string>)

  /** `artistSearchSchema` */
  predicate SearchAccepted(x: SearchInput) {
    Opt(x.limit, (l: real) => 1.0 <= l <= 100.0) && Opt(x.offset, (o: real) => o >= 0.0) &&
    Opt(x.sortBy, (s: string) => s in ["name", "created_at"])
  }

  /** Unlike the artwork search, the artist search does not ask for integers: a
      page of 2.5 rows from offset 0.5 passes here and is refused there. */
  lemma SearchAllowsFractions()
    ensures SearchAccepted(SearchInput(None, Some(2.5), Some(0.5), None))
    ensures !ArtworkSchemas.SearchAccepted(ArtworkSchemas.ArtworkSearchInput(None, None, None, None, None, None,
                                                                            Some(2.5), Some(0.5)))
  {
    assert (2.5).Floor == 2;
  }
}
