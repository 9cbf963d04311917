/** The language preference: the two languages, the saved preference read back on
    start-up, `setLanguage` with its write to local storage, the fallback when no
    provider is mounted, and the two translation tables. Local storage is a class
    holding a string map; React's state and transitions are left to the caller. */
module Language {
  import opened Common

  datatype Lang = En | Kr

  const PreferenceKey: string := "preferred-language"

  function Code(l: Lang): string {
    match l
    case En => "en"
    case Kr => "kr"
  }

  /** The saved text is adopted only when it is exactly "en" or "kr". */
  function ParseLang(saved: Option<string>): (r: Option<Lang>)
    ensures r.Some? <==> saved == Some("en") || saved == Some("kr")
    ensures r.Some? ==> saved == Some(Code(r.value))
  {
    if saved == Some("en") then Some(En)
    else if saved == Some("kr") then Some(Kr)
    else None
  }

  /** What `setLanguage` writes reads back as the same language. */
  lemma CodeRoundTrip(l: Lang)
    ensures ParseLang(Some(Code(l))) == Some(l)
  {
  }

  /** `localStorage`. */
  class LocalStorage {
    var items: map<string, string>

    constructor(initial: map<string, string>)
      ensures items == initial
    {
      items := initial;
    }

    function GetItem(key: string): (r: Option<string>)
      reads this
      ensures r.Some? <==> key in items
      ensures r.Some? ==> r.value == items[key]
    {
      if key in items then Some(items[key]) else None
    }
  }

  /** `LanguageProvider`: the language state, starting at English. */
  class LanguageProvider {
    var language: Lang
    const storage: LocalStorage

    constructor(storage: LocalStorage)
      ensures language == En && this.storage == storage
    {
      language := En;
      this.storage := storage;
    }

    /** The mount effect: a valid saved preference replaces the current language;
        anything else leaves it. Storage is only read. */
    method LoadPreference()
      modifies this
      ensures var saved := ParseLang(storage.GetItem(PreferenceKey));
              language == if saved.Some? then saved.value else old(language)
    {
      var saved := ParseLang(storage.GetItem(PreferenceKey));
      if saved.Some? {
        language := saved.value;
      }
    }

    /** `setLanguage`: the state and the saved preference both become `l`; no
        other storage entry changes. */
    method SetLanguage(l: Lang)
      modifies this, storage
      ensures language == l
      ensures storage.items == old(storage.items)[PreferenceKey := Code(l)]
      ensures ParseLang(storage.GetItem(PreferenceKey)) == Some(l)
    {
      language := l;
      storage.items := storage.items[PreferenceKey := Code(l)];
    }
  }

  /** `useLanguage().language`: the provider's language, or English without one. */
  function CurrentLanguage(provider: LanguageProvider?): (l: Lang)
    reads provider
    ensures provider == null ==> l == En
    ensures provider != null ==> l == provider.language
  {
    if provider == null then En else provider.language
  }

  /** `useLanguage().setLanguage`: the provider's setter, or without one a setter
      that changes nothing (its console warning aside). */
  method SetThroughHook(provider: LanguageProvider?, l: Lang)
    modifies if provider != null then {provider, provider.storage} else {}
    ensures provider != null ==> provider.language == l &&
                                 provider.storage.items == old(provider.storage.items)[PreferenceKey := Code(l)]
  {
    if provider != null {
      provider.SetLanguage(l);
    }
  }

  /** A preference set in one visit is the language of the next: a new provider
      over the same storage loads it. */
  method NextVisit(storage: LocalStorage, l: Lang) returns (next: LanguageProvider)
    modifies storage
    ensures next.language == l
    ensures storage.items == old(storage.items)[PreferenceKey := Code(l)]
  {
    var first := new LanguageProvider(storage);
    first.SetLanguage(l);
    next := new LanguageProvider(storage);
    next.LoadPreference();
  }

  // ---------------------------------------------------------------------------
  // Translations
  // ---------------------------------------------------------------------------

  /** A translation table: its entries, in their written order. */
  type Table = seq<(string, string)>

  const English: Table := [
    ("home", "Home"),
    ("exhibitions", "Exhibitions"),
    ("artists", "Artists"),
    ("videos", "Videos"),
    ("news", "News"),
    ("about", "About"),
    ("currentExhibition", "Current Exhibition"),
    ("galleryVisit", "Gallery Visit"),
    ("hours", "Hours"),
    ("contact", "Contact"),
    ("subscribeNewsletter", "Subscribe to Newsletter"),
    ("enterEmail", "Enter your email"),
    ("subscribe", "Subscribe"),
    ("visitHours", "Tuesday - Sunday: 10:00 AM - 6:00 PM"),
    ("closed", "Monday: Closed"),
    ("phone", "Phone"),
    ("email", "Email"),
    ("address", "Address"),
    ("interviewVideo", "Artist Interview"),
    ("companyInfo", "Contemporary art gallery dedicated to showcasing emerging and established artists.")
  ]

  const Korean: Table := [
    ("home", "홈"),
    ("exhibitions", "전시"),
    ("artists", "작가"),
    ("videos", "영상"),
    ("news", "소식"),
    ("about", "소개"),
    ("currentExhibition", "현재 전시"),
    ("galleryVisit", "갤러리 관람"),
    ("hours", "운영시간"),
    ("contact", "연락처"),
    ("subscribeNewsletter", "뉴스레터 구독"),
    ("enterEmail", "이메일을 입력하세요"),
    ("subscribe", "구독"),
    ("visitHours", "화요일 - 일요일: 오전 10:00 - 오후 6:00"),
    ("closed", "월요일: 휴관"),
    ("phone", "전화"),
    ("email", "이메일"),
    ("address", "주소"),
    ("interviewVideo", "작가 인터뷰"),
    ("companyInfo", "신진 및 기성 작가들을 소개하는데 전념하는 현대미술갤러리입니다.")
  ]

  function KeyList(t: Table): (ks: seq<string>)
    ensures |ks| == |t| && forall i :: 0 <= i < |t| ==> ks[i] == t[i].0
  {
    seq(|t|, i requires 0 <= i < |t| => t[i].0)
  }

  /** `table[key]`: the text of the first entry with the key, if any. */
  function Lookup(t: Table, key: string): (r: Option<string>)
    ensures r.None? <==> key !in KeyList(t)
    ensures r.Some? ==> exists i :: 0 <= i < |t| && t[i] == (key, r.value)
  {
    if t == [] then None
    else if t[0].0 == key then Some(t[0].1)
    else
      var r := Lookup(t[1..], key);
      assert KeyList(t) == [t[0].0] + KeyList(t[1..]);
      assert r.Some? ==> exists i :: 0 <= i < |t| - 1 && t[1..][i] == (key, r.value);
      r
  }

  /** Tables with the same key list find the same keys. */
  lemma LookupSameKeys(a: Table, b: Table, key: string)
    requires KeyList(a) == KeyList(b)
    ensures Lookup(a, key).Some? <==> Lookup(b, key).Some?
  {
  }

  /** The English and Korean tables list the same keys in the same order. */
  lemma TablesHaveSameKeys()
    ensures KeyList(English) == KeyList(Korean)
  {
  }

  /** `translations[language]`. */
  function TableOf(l: Lang): (t: Table)
    ensures KeyList(t) == KeyList(English)
    ensures forall i :: 0 <= i < |t| ==> t[i].1 != ""
  {
    TablesHaveSameKeys();
    if l == En then English else Korean
  }

  /** A key that has a text in one language has one in the other. */
  lemma EveryKeyTranslated(key: string)
    ensures Lookup(TableOf(En), key).Some? <==> Lookup(TableOf(Kr), key).Some?
  {
    LookupSameKeys(TableOf(En), TableOf(Kr), key);
  }

  /** `useTranslation`: the table of the current language, English without a
      provider. */
  function UseTranslation(provider: LanguageProvider?): (t: Table)
    reads provider
    ensures KeyList(t) == KeyList(English)
    ensures provider == null ==> t == English
    ensures provider != null ==> t == if provider.language == En then English else Korean
  {
    TableOf(CurrentLanguage(provider))
  }
}
