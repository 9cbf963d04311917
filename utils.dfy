/** The string and date helpers of the gallery: slugs, the status an exhibition has
    at a given moment, status labels, YouTube ids and thumbnails, truncation and
    the e-mail shape test. */
module Utils {
  import opened Common
  import opened DatabaseTypes

  // ---------------------------------------------------------------------------
  // Slugs
  // ---------------------------------------------------------------------------

  /** `\w`: ASCII letters, digits and the underscore. */
  predicate IsWordChar(c: char) {
    IsAsciiAlnum(c) || c == '_'
  }

  /** The precomposed Hangul syllables, `가-힣`. */
  predicate IsHangul(c: char) {
    '\U{AC00}' <= c <= '\U{D7A3}'
  }

  /** The characters `[\w가-힣\s-]` the second step keeps. */
  predicate Kept(c: char) {
    IsWordChar(c) || IsHangul(c) || IsJsWhitespace(c) || c == '-'
  }

  /** The characters `[\s_-]` whose runs become one dash. */
  predicate IsSeparator(c: char) {
    IsJsWhitespace(c) || c == '_' || c == '-'
  }

  /** The characters a slug is made of. */
  predicate IsSlugChar(c: char) {
    ('a' <= c <= 'z') || IsAsciiDigit(c) || IsHangul(c) || c == '-'
  }

  predicate SlugChars(s: string) {
    forall i :: 0 <= i < |s| ==> IsSlugChar(s[i])
  }

  /** A dash at `i` followed by another. */
  predicate DoubleDashAt(s: string, i: int)
    requires 0 <= i < |s| - 1
  {
    s[i] == '-' && s[i + 1] == '-'
  }

  predicate NoDoubleDash(s: string) {
    forall i :: 0 <= i < |s| - 1 ==> !DoubleDashAt(s, i)
  }

  /** The shape every slug has: slug characters only, no dash at either end and no
      two dashes in a row. */
  predicate IsSlug(s: string) {
    SlugChars(s) && NoDoubleDash(s) && (s != [] ==> s[0] != '-' && s[|s| - 1] != '-')
  }

  /** A run of separators at the start, dropped. */
  function DropSeparators(s: string): (r: string)
    ensures |r| <= |s| && r == s[|s| - |r|..]
    ensures r == [] || !IsSeparator(r[0])
  {
    if s != [] && IsSeparator(s[0]) then DropSeparators(s[1..]) else s
  }

  /** `.replace(/[\s_-]+/g, '-')`. */
  function Collapse(s: string): (r: string)
    ensures r == [] <==> s == []
    ensures r != [] ==> (r[0] == '-' <==> IsSeparator(s[0]))
    decreases |s|
  {
    if s == [] then []
    else if IsSeparator(s[0]) then "-" + Collapse(DropSeparators(s[1..]))
    else [s[0]] + Collapse(s[1..])
  }

  /** The leading dashes, dropped. */
  function DropLeadingDashes(s: string): (r: string)
    ensures |r| <= |s| && r == s[|s| - |r|..]
    ensures r == [] || r[0] != '-'
  {
    if s != [] && s[0] == '-' then DropLeadingDashes(s[1..]) else s
  }

  /** The trailing dashes, dropped. */
  function DropTrailingDashes(s: string): (r: string)
    ensures |r| <= |s| && r == s[..|r|]
    ensures r == [] || r[|r| - 1] != '-'
  {
    if s != [] && s[|s| - 1] == '-' then DropTrailingDashes(s[..|s| - 1]) else s
  }

  /** `.replace(/^-+|-+$/g, '')`. */
  function TrimDashes(s: string): string {
    DropTrailingDashes(DropLeadingDashes(s))
  }

  /** `slugify`: lower-case, drop every character but word characters, Hangul, white
      space and dashes, turn each run of white space, underscores and dashes into
      one dash, and trim the dashes at both ends. */
  function Slugify(text: string): string {
    TrimDashes(Collapse(Filter(Lower(text), Kept)))
  }

  /** The collapsed text has slug characters only, given that every character of the
      input is a slug character or a separator. */
  lemma {:induction false} CollapseChars(s: string)
    requires forall i :: 0 <= i < |s| ==> IsSlugChar(s[i]) || IsSeparator(s[i])
    ensures SlugChars(Collapse(s))
    decreases |s|
  {
    if s != [] {
      if IsSeparator(s[0]) {
        var t := DropSeparators(s[1..]);
        forall i | 0 <= i < |t| ensures IsSlugChar(t[i]) || IsSeparator(t[i]) {
          var j := |s| - |t| + i;
          assert t[i] == s[1..][j - 1] == s[j];
        }
        CollapseChars(t);
      } else {
        CollapseChars(s[1..]);
      }
    }
  }

  /** No two dashes follow each other after collapsing. */
  lemma {:induction false} CollapseNoDoubleDash(s: string)
    ensures NoDoubleDash(Collapse(s))
    decreases |s|
  {
    if s != [] {
      if IsSeparator(s[0]) {
        var t := DropSeparators(s[1..]);
        CollapseNoDoubleDash(t);
        var c := Collapse(t);
        assert Collapse(s) == ['-'] + c;
        DashFreeCons('-', c);
      } else {
        CollapseNoDoubleDash(s[1..]);
        assert Collapse(s) == [s[0]] + Collapse(s[1..]);
        DashFreeCons(s[0], Collapse(s[1..]));
      }
    }
  }

  /** A character in front of text without a double dash adds none unless both
      it and the text's first character are dashes. */
  lemma DashFreeCons(x: char, c: string)
    requires NoDoubleDash(c) && (x != '-' || c == [] || c[0] != '-')
    ensures NoDoubleDash([x] + c)
  {
    var s := [x] + c;
    forall i | 0 <= i < |s| - 1 ensures !DoubleDashAt(s, i) {
      if i > 0 {
        assert s[i] == c[i - 1] && s[i + 1] == c[i];
        assert !DoubleDashAt(c, i - 1);
      }
    }
  }

  /** The tail of slug-shaped text keeps the character and dash rules. */
  lemma SlugTail(s: string)
    requires s != [] && SlugChars(s) && NoDoubleDash(s)
    ensures SlugChars(s[1..]) && NoDoubleDash(s[1..])
  {
    var tail := s[1..];
    forall i | 0 <= i < |tail| ensures IsSlugChar(tail[i]) {
      assert tail[i] == s[i + 1];
    }
    forall i | 0 <= i < |tail| - 1 ensures !DoubleDashAt(tail, i) {
      assert tail[i] == s[i + 1] && tail[i + 1] == s[i + 2];
      assert !DoubleDashAt(s, i + 1);
    }
  }

  /** A single dash stays a single dash. */
  lemma CollapseDash(s: string)
    requires s != [] && s[0] == '-' && (|s| == 1 || !IsSeparator(s[1]))
    ensures Collapse(s) == "-" + Collapse(s[1..])
  {
    assert DropSeparators(s[1..]) == s[1..];
  }

  /** Collapsing changes nothing in text with no separator but single dashes. */
  lemma {:induction false} CollapseFixes(s: string)
    requires SlugChars(s) && NoDoubleDash(s)
    ensures Collapse(s) == s
    decreases |s|
  {
    if s != [] {
      var tail := s[1..];
      SlugTail(s);
      CollapseFixes(tail);
      if s[0] == '-' {
        assert |s| == 1 || !DoubleDashAt(s, 0);
        assert |s| == 1 || (IsSlugChar(s[1]) && s[1] != '-');
        CollapseDash(s);
      } else {
        assert !IsSeparator(s[0]);
      }
      assert [s[0]] + tail == s;
    }
  }

  /** A contiguous part of text with slug characters and no double dash keeps both. */
  lemma SliceShape(s: string, k: nat, t: string)
    requires SlugChars(s) && NoDoubleDash(s) && k + |t| <= |s|
    requires forall i :: 0 <= i < |t| ==> t[i] == s[k + i]
    ensures SlugChars(t) && NoDoubleDash(t)
  {
    forall i | 0 <= i < |t| ensures IsSlugChar(t[i]) {
      assert t[i] == s[k + i];
    }
    forall i | 0 <= i < |t| - 1 ensures !DoubleDashAt(t, i) {
      assert t[i] == s[k + i] && t[i + 1] == s[k + i + 1];
      assert !DoubleDashAt(s, k + i);
    }
  }

  /** Dropping leading dashes keeps the character and dash rules. */
  lemma {:induction false} DropLeadingKeepsShape(s: string)
    requires SlugChars(s) && NoDoubleDash(s)
    ensures SlugChars(DropLeadingDashes(s)) && NoDoubleDash(DropLeadingDashes(s))
    decreases |s|
  {
    if s != [] && s[0] == '-' {
      SlugTail(s);
      DropLeadingKeepsShape(s[1..]);
    }
  }

  /** Dropping trailing dashes keeps the character and dash rules. */
  lemma {:induction false} DropTrailingKeepsShape(s: string)
    requires SlugChars(s) && NoDoubleDash(s)
    ensures SlugChars(DropTrailingDashes(s)) && NoDoubleDash(DropTrailingDashes(s))
    decreases |s|
  {
    if s != [] && s[|s| - 1] == '-' {
      var init := s[..|s| - 1];
      SliceShape(s, 0, init);
      DropTrailingKeepsShape(init);
    }
  }

  /** What is left after trimming keeps the rules and has no end dashes. */
  lemma TrimDashesShape(s: string)
    requires SlugChars(s) && NoDoubleDash(s)
    ensures IsSlug(TrimDashes(s))
  {
    var a := DropLeadingDashes(s);
    DropLeadingKeepsShape(s);
    var b := DropTrailingDashes(a);
    DropTrailingKeepsShape(a);
    if b != [] {
      assert b[0] == a[0];
    }
  }

  /** Every output of `slugify` has the slug shape. */
  lemma SlugifyIsSlug(text: string)
    ensures IsSlug(Slugify(text))
  {
    var lowered := Lower(text);
    var kept := Filter(lowered, Kept);
    forall i | 0 <= i < |kept| ensures IsSlugChar(kept[i]) || IsSeparator(kept[i]) {
      var j :| 0 <= j < |lowered| && lowered[j] == kept[i];
      assert lowered[j] == LowerChar(text[j]);
    }
    CollapseChars(kept);
    CollapseNoDoubleDash(kept);
    TrimDashesShape(Collapse(kept));
  }

  /** `slugify` leaves a slug as it is. */
  lemma SlugifyFixes(s: string)
    requires IsSlug(s)
    ensures Slugify(s) == s
  {
    assert Lower(s) == s;
    FilterAll(s, Kept);
    CollapseFixes(s);
    if s != [] {
      assert DropLeadingDashes(s) == s;
      assert DropTrailingDashes(s) == s;
    }
  }

  /** `slugify(slugify(s)) == slugify(s)`. */
  lemma SlugifyIdempotent(text: string)
    ensures Slugify(Slugify(text)) == Slugify(text)
  {
    SlugifyIsSlug(text);
    SlugifyFixes(Slugify(text));
  }

  /** `id.slice(-8)`: the last eight characters, or all of a shorter id. */
  function LastChars(s: string, n: nat): (r: string)
    ensures |r| == if |s| < n then |s| else n
    ensures IsSuffix(r, s)
  {
    if |s| < n then s else s[|s| - n..]
  }

  /** `generateSlug`: the slug of the title, followed by a dash and the id's last
      eight characters when a non-empty id is given. */
  function GenerateSlug(title: string, id: Option<string>): (r: string)
    ensures id.None? || id.value == "" ==> r == Slugify(title)
    ensures id.Some? && id.value != "" ==>
              IsPrefix(Slugify(title) + "-", r) && r[|Slugify(title)| + 1..] == LastChars(id.value, 8)
  {
    if id.Some? && id.value != "" then Slugify(title) + "-" + LastChars(id.value, 8) else Slugify(title)
  }

  /** The suffix of a generated slug is at most eight characters and comes from the
      end of the id. */
  lemma GenerateSlugSuffix(title: string, id: string)
    requires id != ""
    ensures var r := GenerateSlug(title, Some(id));
            |r| == |Slugify(title)| + 1 + (if |id| < 8 then |id| else 8) &&
            IsSuffix(r[|Slugify(title)| + 1..], id)
  {
  }

  // ---------------------------------------------------------------------------
  // Exhibition status
  // ---------------------------------------------------------------------------

  /** A JavaScript `Date`: a time in milliseconds, or an invalid date from text that
      does not parse. */
  datatype Instant = At(ms: int) | InvalidDate

  /** `a < b` on dates: false whenever either date is invalid. */
  predicate Before(a: Instant, b: Instant) {
    a.At? && b.At? && a.ms < b.ms
  }

  /** `getExhibitionStatus` at the moment `now`. */
  function ExhibitionStatusAt(start: Instant, end: Instant, now: int): (s: ExhibitionStatus)
    ensures s != Draft
    ensures s == Scheduled <==> Before(At(now), start)
    ensures s == Archived <==> !Before(At(now), start) && Before(end, At(now))
    ensures s == Live <==> !Before(At(now), start) && !Before(end, At(now))
  {
    if Before(At(now), start) then Scheduled
    else if Before(end, At(now)) then Archived
    else Live
  }

  /** With valid dates in order: scheduled before the start, archived after the end,
      and live from the start to the end, both included. */
  lemma StatusOfOrderedDates(start: int, end: int, now: int)
    requires start <= end
    ensures ExhibitionStatusAt(At(start), At(end), now) == Scheduled <==> now < start
    ensures ExhibitionStatusAt(At(start), At(end), now) == Live <==> start <= now <= end
    ensures ExhibitionStatusAt(At(start), At(end), now) == Archived <==> end < now
  {
  }

  /** Dates that do not parse never compare, so they give live. */
  lemma StatusOfInvalidDates(now: int)
    ensures ExhibitionStatusAt(InvalidDate, InvalidDate, now) == Live
  {
  }

  /** `getStatusText`. */
  function StatusText(s: ExhibitionStatus): string {
    match s
    case Live => "진행중"
    case Scheduled => "예정"
    case Archived => "종료"
    case Draft => "임시저장"
  }

  /** Each of the four statuses has its own label. */
  lemma StatusTextDistinct(a: ExhibitionStatus, b: ExhibitionStatus)
    ensures StatusText(a) == StatusText(b) <==> a == b
  {
  }

  // ---------------------------------------------------------------------------
  // YouTube
  // ---------------------------------------------------------------------------

  /** The characters `.` does not match. */
  predicate IsLineTerminator(c: char) {
    c == '\n' || c == '\r' || c == '\U{2028}' || c == '\U{2029}'
  }

  /** The index of the first line terminator, or the length. */
  function LineEnd(s: string): (n: nat)
    ensures n <= |s|
    ensures forall i :: 0 <= i < n ==> !IsLineTerminator(s[i])
    ensures n < |s| ==> IsLineTerminator(s[n])
  {
    if s == [] || IsLineTerminator(s[0]) then 0 else 1 + LineEnd(s[1..])
  }

  /** The length of the first alternative of
      `(youtu.be\/|v\/|u\/\w\/|embed\/|watch\?v=|&v=)` that matches at `p`. */
  function MarkerAt(s: string, p: nat): (r: Option<nat>)
    requires p <= |s|
    ensures r.Some? ==> p + r.value <= |s|
    ensures r.Some? ==> exists j :: p <= j < p + r.value && s[j] in "/?&"
  {
    var t := s[p..];
    if |t| >= 9 && t[..5] == "youtu" && !IsLineTerminator(t[5]) && t[6..9] == "be/" then
      assert s[p + 8] == t[8];
      Some(9)
    else if IsPrefix("v/", t) then
      assert s[p + 1] == t[1];
      Some(2)
    else if |t| >= 4 && t[..2] == "u/" && IsWordChar(t[2]) && t[3] == '/' then
      assert s[p + 1] == t[1];
      Some(4)
    else if IsPrefix("embed/", t) then
      assert s[p + 5] == t[5];
      Some(6)
    else if IsPrefix("watch?v=", t) then
      assert s[p + 5] == t[5];
      Some(8)
    else if IsPrefix("&v=", t) then
      assert s[p] == t[0];
      Some(3)
    else None
  }

  /** The greedy `^.*` before the marker: the last position, not past the first
      line terminator, where a marker matches, and the marker's length. */
  function LastMarker(s: string, p: nat): (r: Option<(nat, nat)>)
    requires p <= |s|
    ensures r.Some? ==> r.value.0 <= p && MarkerAt(s, r.value.0) == Some(r.value.1)
  {
    if MarkerAt(s, p).Some? then Some((p, MarkerAt(s, p).value))
    else if p == 0 then None
    else LastMarker(s, p - 1)
  }

  /** No marker matches after the position `LastMarker` finds, up to the bound, and
      none matches anywhere up to it when it finds none. */
  lemma {:induction false} LastMarkerIsLast(s: string, p: nat, q: nat)
    requires q <= p <= |s|
    ensures LastMarker(s, p).Some? && LastMarker(s, p).value.0 < q ==> MarkerAt(s, q).None?
    ensures LastMarker(s, p).None? ==> MarkerAt(s, q).None?
    decreases p
  {
    if MarkerAt(s, p).None? && p > 0 && q < p {
      LastMarkerIsLast(s, p - 1, q);
    }
  }

  predicate IsIdChar(c: char) {
    c != '#' && c != '&' && c != '?'
  }

  /** `([^#&?]*)`: the longest run of characters other than `#`, `&` and `?`. */
  function IdRun(s: string): (r: string)
    ensures IsPrefix(r, s)
    ensures forall i :: 0 <= i < |r| ==> IsIdChar(r[i])
    ensures |r| < |s| ==> !IsIdChar(s[|r|])
  {
    if s != [] && IsIdChar(s[0]) then [s[0]] + IdRun(s[1..]) else []
  }

  /** `extractYouTubeId`: the run after the last marker on the first line, when its
      `length` is exactly eleven UTF-16 code units. */
  function ExtractYouTubeId(url: string): (r: Option<string>)
    ensures r.Some? ==> Utf16Length(r.value) == 11 && '#' !in r.value && '&' !in r.value && '?' !in r.value
  {
    var m := LastMarker(url, LineEnd(url));
    if m.None? then None
    else
      var id := IdRun(url[m.value.0 + m.value.1..]);
      if Utf16Length(id) == 11 then Some(id) else None
  }

  /** No marker starts inside text without `/`, `?` and `&`. */
  lemma NoMarkerIn(prefix: string, id: string, q: nat)
    requires forall i :: 0 <= i < |id| ==> id[i] !in "/?&"
    requires |prefix| <= q <= |prefix + id|
    ensures MarkerAt(prefix + id, q).None?
  {
    var s := prefix + id;
    forall j | q <= j < |s| ensures s[j] !in "/?&" {
      assert s[j] == id[j - |prefix|];
    }
  }

  /** Inside `youtu.be/` of a short link, after its start, no marker matches. */
  lemma ShortLinkPrefixNoMarker(id: string, q: nat)
    requires 8 < q < 17
    ensures MarkerAt("https://youtu.be/" + id, q).None?
  {
    var prefix := "https://youtu.be/";
    var s := prefix + id;
    assert s[q] == prefix[q];
    if q < 16 {
      assert s[q + 1] == prefix[q + 1];
    }
    NoMarkerStarting(s, q);
  }

  /** No marker matches where the text does not start like one: every marker
      begins with `y`, `v`, `u/`, `em`, `w` or `&`. */
  lemma NoMarkerStarting(s: string, p: nat)
    requires p < |s|
    requires s[p] !in "yvuew&" || (s[p] == 'u' && (p + 1 == |s| || s[p + 1] != '/')) ||
             (s[p] == 'e' && (p + 1 == |s| || s[p + 1] != 'm'))
    ensures MarkerAt(s, p).None?
  {
    var t := s[p..];
    assert t[0] == s[p];
    assert |t| > 1 ==> t[1] == s[p + 1];
  }

  /** A short link gives its id back. */
  lemma ShortLinkId(id: string)
    requires Utf16Length(id) == 11
    requires forall i :: 0 <= i < |id| ==> id[i] !in "/?&#" && !IsLineTerminator(id[i])
    ensures ExtractYouTubeId("https://youtu.be/" + id) == Some(id)
  {
    var s := "https://youtu.be/" + id;
    ShortLinkLastMarker(id);
    assert s[17..] == id;
    forall i | 0 <= i < |id| ensures IsIdChar(id[i]) {
      assert id[i] !in "/?&#";
    }
    IdRunAll(id);
  }

  /** The last marker on the single line of a short link is `youtu.be/` at 8. */
  lemma ShortLinkLastMarker(id: string)
    requires forall i :: 0 <= i < |id| ==> id[i] !in "/?&#" && !IsLineTerminator(id[i])
    ensures LastMarker("https://youtu.be/" + id, LineEnd("https://youtu.be/" + id)) == Some((8, 9))
  {
    var s := "https://youtu.be/" + id;
    ShortLinkOneLine(id);
    ShortLinkMarkers(id);
    var m := LastMarker(s, |s|);
    LastMarkerIsLast(s, |s|, 8);
    assert m.Some? && m.value.0 >= 8;
    assert m.value.0 == 8;
  }

  /** A short link has no line terminator. */
  lemma ShortLinkOneLine(id: string)
    requires forall i :: 0 <= i < |id| ==> !IsLineTerminator(id[i])
    ensures LineEnd("https://youtu.be/" + id) == |"https://youtu.be/" + id|
  {
    var prefix := "https://youtu.be/";
    var s := prefix + id;
    forall i | 0 <= i < |s| ensures !IsLineTerminator(s[i]) {
      if i >= |prefix| {
        assert s[i] == id[i - |prefix|];
      }
    }
  }

  /** In a short link the marker `youtu.be/` matches at 8 and no marker matches
      later. */
  lemma ShortLinkMarkers(id: string)
    requires forall i :: 0 <= i < |id| ==> id[i] !in "/?&"
    ensures MarkerAt("https://youtu.be/" + id, 8) == Some(9)
    ensures forall q | 8 < q <= |"https://youtu.be/" + id| :: MarkerAt("https://youtu.be/" + id, q).None?
  {
    var prefix := "https://youtu.be/";
    var s := prefix + id;
    forall q | 8 < q <= |s| ensures MarkerAt(s, q).None? {
      if q >= |prefix| {
        NoMarkerIn(prefix, id, q);
      } else {
        ShortLinkPrefixNoMarker(id, q);
      }
    }
    ShortLinkMarkerAtHost(id);
  }

  lemma ShortLinkMarkerAtHost(id: string)
    ensures MarkerAt("https://youtu.be/" + id, 8) == Some(9)
  {
    var t := ("https://youtu.be/" + id)[8..];
    assert t == "youtu.be/" + id;
    assert t[..5] == "youtu" && t[5] == '.';
    assert t[6..9] == "be/";
  }

  lemma {:induction false} IdRunAll(s: string)
    requires forall i :: 0 <= i < |s| ==> IsIdChar(s[i])
    ensures IdRun(s) == s
  {
    if s != [] {
      IdRunAll(s[1..]);
    }
  }

  /** The `quality` argument of `getYouTubeThumbnail`, `medium` by default. */
  datatype Quality = DefaultQuality | Medium | High | Standard | Maxres

  function QualityName(q: Quality): string {
    match q
    case DefaultQuality => "default"
    case Medium => "medium"
    case High => "high"
    case Standard => "standard"
    case Maxres => "maxres"
  }

  /** `getYouTubeThumbnail`: the image `<quality>default.jpg` in the video's folder
      on img.youtube.com. */
  function YouTubeThumbnail(videoId: string, q: Quality): (url: string)
    ensures IsPrefix("https://img.youtube.com/vi/" + videoId + "/", url)
    ensures IsSuffix(QualityName(q) + "default.jpg", url)
  {
    "https://img.youtube.com/vi/" + videoId + "/" + QualityName(q) + "default.jpg"
  }

  /** The fifth piece of five separator-free pieces and a tail, joined by `/`. */
  lemma FifthPiece(a: string, b: string, c: string, d: string, v: string, tail: string)
    requires '/' !in a && '/' !in b && '/' !in c && '/' !in d && '/' !in v
    ensures var parts := Split(a + "/" + b + "/" + c + "/" + d + "/" + v + "/" + tail, '/');
            |parts| > 4 && parts[4] == v
  {
    var r4 := v + ['/'] + tail;
    var r3 := d + ['/'] + r4;
    var r2 := c + ['/'] + r3;
    var r1 := b + ['/'] + r2;
    var url := a + ['/'] + r1;
    assert a + "/" + b + "/" + c + "/" + d + "/" + v + "/" + tail == url;
    SplitCons(v, '/', tail);
    SplitCons(d, '/', r4);
    SplitCons(c, '/', r3);
    SplitCons(b, '/', r2);
    SplitCons(a, '/', r1);
  }

  /** The video id is the fifth path piece of the thumbnail URL. */
  lemma ThumbnailNamesVideo(videoId: string, q: Quality)
    requires '/' !in videoId
    ensures var parts := Split(YouTubeThumbnail(videoId, q), '/');
            |parts| > 4 && parts[4] == videoId
  {
    ThumbnailPieces(videoId, q);
    FifthPiece("https:", "", "img.youtube.com", "vi", videoId, QualityName(q) + "default.jpg");
  }

  /** The thumbnail URL written as its `/`-separated pieces. */
  lemma ThumbnailPieces(videoId: string, q: Quality)
    ensures YouTubeThumbnail(videoId, q) ==
            "https:" + "/" + "" + "/" + "img.youtube.com" + "/" + "vi" + "/" + videoId + "/" + (QualityName(q) + "default.jpg")
  {
    ThumbnailHostPieces();
    assert YouTubeThumbnail(videoId, q) == "https://img.youtube.com/vi/" + videoId + "/" + (QualityName(q) + "default.jpg");
  }

  lemma ThumbnailHostPieces()
    ensures "https://img.youtube.com/vi/" == "https:" + "/" + "" + "/" + "img.youtube.com" + "/" + "vi" + "/"
  {
  }

  // ---------------------------------------------------------------------------
  // Text
  // ---------------------------------------------------------------------------

  /** `truncateText`: the text when it fits, else its first `maxLength` characters
      and an ellipsis. */
  function TruncateText(text: string, maxLength: int): (r: string)
    ensures |text| <= maxLength ==> r == text
    ensures |text| > maxLength ==>
              |r| == (if maxLength < 0 then 0 else maxLength) + 3 &&
              r[..|r| - 3] <= text && r[|r| - 3..] == "..."
  {
    if |text| <= maxLength then text else Take(text, maxLength) + "..."
  }

  /** Truncating twice is truncating once. */
  lemma TruncateIdempotent(text: string, maxLength: int)
    ensures TruncateText(TruncateText(text, maxLength), maxLength) == TruncateText(text, maxLength)
  {
    var r := TruncateText(text, maxLength);
    if |text| > maxLength {
      assert Take(r, maxLength) == Take(text, maxLength);
    }
  }

  /** `[^\s@]`. */
  predicate IsEmailChar(c: char) {
    !IsJsWhitespace(c) && c != '@'
  }

  predicate EmailChars(s: string) {
    forall i :: 0 <= i < |s| ==> IsEmailChar(s[i])
  }

  /** `/^[^\s@]+@[^\s@]+\.[^\s@]+$/.test(email)`, with `a` the position of the `@`
      and `d` that of the dot the pattern matches. */
  predicate IsValidEmail(email: string) {
    exists a, d | 0 < a && a + 1 < d && d + 1 < |email| ::
      email[a] == '@' && email[d] == '.' &&
      EmailChars(email[..a]) && EmailChars(email[a + 1..d]) && EmailChars(email[d + 1..])
  }

  /** The domain has a dot that is neither its first nor its last character. */
  predicate HasInnerDot(domain: string) {
    exists k | 0 < k < |domain| - 1 :: domain[k] == '.'
  }

  /** The e-mail shape in words: no white space; exactly one `@`, not first; and a
      dot after the `@` that is neither the first nor the last character there. */
  predicate EmailInWords(email: string) {
    (forall i :: 0 <= i < |email| ==> !IsJsWhitespace(email[i])) &&
    exists a | 0 < a < |email| ::
      email[a] == '@' && '@' !in email[..a] && '@' !in email[a + 1..] && HasInnerDot(email[a + 1..])
  }

  lemma EmailShapeOnlyIf(email: string)
    requires IsValidEmail(email)
    ensures EmailInWords(email)
  {
    var a, d :| 0 < a && a + 1 < d && d + 1 < |email| &&
      email[a] == '@' && email[d] == '.' &&
      EmailChars(email[..a]) && EmailChars(email[a + 1..d]) && EmailChars(email[d + 1..]);
    forall i | 0 <= i < |email| ensures !IsJsWhitespace(email[i]) && (i != a ==> email[i] != '@') {
      if i < a {
        assert email[i] == email[..a][i];
      } else if a < i < d {
        assert email[i] == email[a + 1..d][i - a - 1];
      } else if i > d {
        assert email[i] == email[d + 1..][i - d - 1];
      }
    }
    assert '@' !in email[..a] by {
      forall i | 0 <= i < a ensures email[..a][i] != '@' {
        assert email[..a][i] == email[i];
      }
    }
    var domain := email[a + 1..];
    assert '@' !in domain by {
      forall i | 0 <= i < |domain| ensures domain[i] != '@' {
        assert domain[i] == email[a + 1 + i];
      }
    }
    assert domain[d - a - 1] == '.';
  }

  /** A slice of text without white space and without `@` is made of e-mail
      characters. */
  lemma EmailCharsOfSlice(s: string, lo: nat, hi: nat)
    requires lo <= hi <= |s|
    requires forall i :: 0 <= i < |s| ==> !IsJsWhitespace(s[i])
    requires forall i :: lo <= i < hi ==> s[i] != '@'
    ensures EmailChars(s[lo..hi])
    ensures lo == 0 ==> EmailChars(s[..hi])
    ensures hi == |s| ==> EmailChars(s[lo..])
  {
    forall i | 0 <= i < hi - lo ensures IsEmailChar(s[lo..hi][i]) {
      assert s[lo..hi][i] == s[lo + i];
    }
    if lo == 0 {
      assert s[..hi] == s[lo..hi];
    }
    if hi == |s| {
      assert s[lo..] == s[lo..hi];
    }
  }

  lemma EmailShapeIf(email: string)
    requires EmailInWords(email)
    ensures IsValidEmail(email)
  {
    var a :| 0 < a < |email| &&
      email[a] == '@' && '@' !in email[..a] && '@' !in email[a + 1..] && HasInnerDot(email[a + 1..]);
    var domain := email[a + 1..];
    var k :| 0 < k < |domain| - 1 && domain[k] == '.';
    var d := a + 1 + k;
    OnlyAtSign(email, a);
    EmailCharsOfSlice(email, 0, a);
    EmailCharsOfSlice(email, a + 1, d);
    EmailCharsOfSlice(email, d + 1, |email|);
    assert email[d] == domain[k];
    EmailWitness(email, a, d);
  }

  /** The one `@` is the only one. */
  lemma OnlyAtSign(email: string, a: nat)
    requires a < |email| && '@' !in email[..a] && '@' !in email[a + 1..]
    ensures forall i :: 0 <= i < |email| && i != a ==> email[i] != '@'
  {
    forall i | 0 <= i < |email| && i != a ensures email[i] != '@' {
      if i < a {
        assert email[i] == email[..a][i];
      } else {
        assert email[i] == email[a + 1..][i - a - 1];
      }
    }
  }

  /** The pattern matches with the `@` at `a` and the dot at `d`. */
  lemma EmailWitness(email: string, a: nat, d: nat)
    requires 0 < a && a + 1 < d && d + 1 < |email| && email[a] == '@' && email[d] == '.'
    requires EmailChars(email[..a]) && EmailChars(email[a + 1..d]) && EmailChars(email[d + 1..])
    ensures IsValidEmail(email)
  {
  }

  /** The pattern holds exactly for text of that shape. */
  lemma EmailShape(email: string)
    ensures IsValidEmail(email) <==> EmailInWords(email)
  {
    if IsValidEmail(email) {
      EmailShapeOnlyIf(email);
    }
    if EmailInWords(email) {
      EmailShapeIf(email);
    }
  }
}
