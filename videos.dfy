/** The video service over the `videos` table: creating visible by default, the
    single-field updates, the visible-only listings, and the list of categories,
    which drops missing ones, keeps each once and sorts them. */
module Videos {
  import opened Common
  import opened DatabaseTypes
  import opened Sorting
  import opened Queries

  /** `VideoFormData`. */
  datatype VideoForm = VideoForm(
    title: string,
    description: Option<string>,
    youtubeUrl: string,
    youtubeId: string,
    thumbnailUrl: Option<string>,
    category: Option<string>,
    relatedExhibitionId: Option<nat>,
    relatedArtistId: Option<nat>,
    isVisible: Option<bool>)

  /** `VideoUpdateData`: a field left out keeps its stored value. */
  datatype VideoUpdate = VideoUpdate(
    title: Option<string>,
    description: Option<string>,
    youtubeUrl: Option<string>,
    youtubeId: Option<string>,
    thumbnailUrl: Option<string>,
    category: Option<string>,
    relatedExhibitionId: Option<nat>,
    relatedArtistId: Option<nat>,
    isVisible: Option<bool>)

  /** `VideoSearchData` without the text query; an empty category, like a limit
      or offset of 0, is falsy and is the same as none. */
  datatype VideoSearch = VideoSearch(
    category: Option<string>,
    relatedExhibitionId: Option<nat>,
    relatedArtistId: Option<nat>,
    isVisible: Option<bool>,
    limit: nat,
    offset: nat)

  /** `getStats`. */
  datatype VideoStats = VideoStats(total: nat)

  function VideoId(v: Video): nat {
    v.id
  }

  function IsVideo(id: nat): Video -> bool {
    (v: Video) => v.id == id
  }

  function NotVideo(id: nat): Video -> bool {
    (v: Video) => v.id != id
  }

  function HasYoutubeId(youtubeId: string): Video -> bool {
    (v: Video) => v.youtubeId == youtubeId
  }

  /** `create`'s insert: the form's fields, visible unless the form says otherwise. */
  function NewVideo(data: VideoForm, id: nat, now: int): (v: Video)
    ensures v.id == id && v.createdAt == now
    ensures v.title == data.title && v.description == data.description && v.youtubeUrl == data.youtubeUrl
    ensures v.youtubeId == data.youtubeId && v.thumbnailUrl == data.thumbnailUrl && v.category == data.category
    ensures v.relatedExhibitionId == data.relatedExhibitionId && v.relatedArtistId == data.relatedArtistId
    ensures v.isVisible <==> data.isVisible != Some(false)
  {
    Video(id, data.title, data.description, data.youtubeUrl, data.youtubeId, data.thumbnailUrl, data.category,
          data.relatedExhibitionId, data.relatedArtistId,
          if data.isVisible.Some? then data.isVisible.value else true, now)
  }

  /** A stored video with the given fields replaced. */
  function PatchVideo(u: VideoUpdate): Video -> Video {
    (v: Video) =>
      Video(v.id, Pick(u.title, v.title), PickSome(u.description, v.description), Pick(u.youtubeUrl, v.youtubeUrl),
            Pick(u.youtubeId, v.youtubeId), PickSome(u.thumbnailUrl, v.thumbnailUrl),
            PickSome(u.category, v.category), PickSome(u.relatedExhibitionId, v.relatedExhibitionId),
            PickSome(u.relatedArtistId, v.relatedArtistId), Pick(u.isVisible, v.isVisible), v.createdAt)
  }

  /** `updateCategory`'s update. */
  function CategoryUpdate(category: string): VideoUpdate {
    VideoUpdate(None, None, None, None, None, Some(category), None, None, None)
  }

  /** `setVisibility`'s update. */
  function VisibilityUpdate(isVisible: bool): VideoUpdate {
    VideoUpdate(None, None, None, None, None, None, None, None, Some(isVisible))
  }

  /** Each single-field update changes its own field and nothing else. */
  lemma SingleFieldUpdates(v: Video, category: string, isVisible: bool)
    ensures PatchVideo(CategoryUpdate(category))(v) == v.(category := Some(category))
    ensures PatchVideo(VisibilityUpdate(isVisible))(v) == v.(isVisible := isVisible)
  {
  }

  /** Newest first. */
  function CreatedDescending(a: Video, b: Video): bool {
    a.createdAt >= b.createdAt
  }

  lemma CreatedDescendingIsTotalPreorder()
    ensures TotalPreorder(CreatedDescending)
  {
  }

  /** The filters of `getAll`. */
  function SearchMatches(p: VideoSearch): Video -> bool {
    (v: Video) =>
      (p.category.None? || p.category.value == "" || v.category == p.category) &&
      (p.relatedExhibitionId.None? || v.relatedExhibitionId == p.relatedExhibitionId) &&
      (p.relatedArtistId.None? || v.relatedArtistId == p.relatedArtistId) &&
      (p.isVisible.None? || v.isVisible == p.isVisible.value)
  }

  function VisibleAnd(keep: Video -> bool): Video -> bool {
    (v: Video) => v.isVisible && keep(v)
  }

  /** The visible videos `keep` accepts, newest first. */
  function VisibleSorted(rows: seq<Video>, keep: Video -> bool): (r: seq<Video>)
    ensures forall v :: v in r <==> v in rows && v.isVisible && keep(v)
    ensures |r| == Count(rows, VisibleAnd(keep))
    ensures Sorted(r, CreatedDescending)
  {
    var matching := Filter(rows, VisibleAnd(keep));
    CreatedDescendingIsTotalPreorder();
    SortBySorted(matching, CreatedDescending);
    forall v ensures v in SortBy(matching, CreatedDescending) <==> v in matching {
      SortBySameElements(matching, CreatedDescending, v);
    }
    SortBy(matching, CreatedDescending)
  }

  // ---------------------------------------------------------------------------
  // Categories
  // ---------------------------------------------------------------------------

  /** `filter(category => category !== null)`. */
  function Present(cs: seq<Option<string>>): (r: seq<string>)
    ensures forall c :: c in r <==> Some(c) in cs
  {
    if cs == [] then []
    else
      assert forall c :: Some(c) in cs <==> cs[0] == Some(c) || Some(c) in cs[1..];
      (if cs[0].Some? then [cs[0].value] else []) + Present(cs[1..])
  }

  /** `filter((c, index, array) => array.indexOf(c) === index)` over the first `n`
      positions: each element at its first position only. */
  function FirstOccurrences(s: seq<string>, n: nat): seq<string>
    requires n <= |s|
  {
    if n == 0 then []
    else FirstOccurrences(s, n - 1) + (if IndexOf(s, s[n - 1]) == n - 1 then [s[n - 1]] else [])
  }

  /** Keeping first occurrences keeps every element once. */
  lemma {:induction false} FirstOccurrencesKeepEach(s: seq<string>, n: nat)
    requires n <= |s|
    ensures forall x :: x in FirstOccurrences(s, n) <==> x in s[..n]
    ensures Distinct(FirstOccurrences(s, n))
  {
    if n > 0 {
      FirstOccurrencesKeepEach(s, n - 1);
      var prev := FirstOccurrences(s, n - 1);
      var y := s[n - 1];
      assert s[..n] == s[..n - 1] + [y];
      if IndexOf(s, y) == n - 1 {
        assert y !in s[..n - 1];
        assert y !in prev;
        var r := prev + [y];
        forall x | x in r ensures multiset(r)[x] <= 1 {
          assert multiset(r) == multiset(prev) + multiset{y};
          if x != y {
            assert x in prev;
          }
        }
      } else {
        assert s[..IndexOf(s, y) + 1] <= s[..n - 1];
        assert y in s[..n - 1];
      }
    }
  }

  /** The `category` column of the visible videos. */
  function VisibleCategoryColumn(rows: seq<Video>): (cs: seq<Option<string>>)
    ensures forall c :: c in cs <==> exists i :: 0 <= i < |rows| && rows[i].isVisible && rows[i].category == c
  {
    if rows == [] then []
    else
      var rest := VisibleCategoryColumn(rows[1..]);
      assert forall i :: 1 <= i < |rows| ==> rows[i] == rows[1..][i - 1];
      (if rows[0].isVisible then [rows[0].category] else []) + rest
  }

  class VideoService {
    var rows: seq<Video>
    var nextId: nat

    ghost predicate Valid()
      reads this
    {
      UniqueIds(rows, VideoId) && IdsBelow(rows, VideoId, nextId)
    }

    constructor()
      ensures Valid() && rows == [] && nextId == 0
    {
      rows := [];
      nextId := 0;
    }

    predicate HasVideo(id: nat)
      reads this
    {
      exists i :: 0 <= i < |rows| && rows[i].id == id
    }

    /** `getAll` without its text search: the videos passing the filters, newest
        first, cut by `limit` and `offset`. */
    function GetAll(p: VideoSearch): (r: seq<Video>)
      reads this
      ensures forall i :: 0 <= i < |r| ==> r[i] in rows && SearchMatches(p)(r[i])
      ensures Sorted(r, CreatedDescending)
      ensures p.limit == 0 && p.offset == 0 ==> multiset(r) == multiset(Filter(rows, SearchMatches(p)))
      ensures p.offset == 0 && p.limit > 0 ==> |r| <= p.limit
    {
      CreatedDescendingIsTotalPreorder();
      ListingSorted(rows, SearchMatches(p), CreatedDescending, p.limit, p.offset);
      Listing(rows, SearchMatches(p), CreatedDescending, p.limit, p.offset)
    }

    /** `getById`; `.single()` fails when no video has the id. */
    function GetById(id: nat): (r: Result<Video>)
      reads this
      ensures r.Err? <==> !HasVideo(id)
      ensures r.Err? ==> r.error == NoRow
      ensures r.Ok? ==> r.value in rows && r.value.id == id
    {
      var found := Find(rows, IsVideo(id));
      if found.Some? then Ok(found.value) else Err(NoRow)
    }

    /** `getByYoutubeId`: fails unless exactly one video has the YouTube id. */
    function GetByYoutubeId(youtubeId: string): (r: Result<Video>)
      reads this
      ensures r.Ok? <==> |Filter(rows, HasYoutubeId(youtubeId))| == 1
      ensures r.Ok? ==> r.value in rows && r.value.youtubeId == youtubeId
    {
      var found := Single(rows, HasYoutubeId(youtubeId));
      if found.Some? then Ok(found.value) else Err(NoRow)
    }

    /** `getByArtist`: the artist's visible videos, newest first. */
    function GetByArtist(artistId: nat): (r: seq<Video>)
      reads this
      ensures forall v :: v in r <==> v in rows && v.isVisible && v.relatedArtistId == Some(artistId)
      ensures Sorted(r, CreatedDescending)
    {
      VisibleSorted(rows, (v: Video) => v.relatedArtistId == Some(artistId))
    }

    /** `getByCategory`: the category's visible videos, newest first. */
    function GetByCategory(category: string): (r: seq<Video>)
      reads this
      ensures forall v :: v in r <==> v in rows && v.isVisible && v.category == Some(category)
      ensures Sorted(r, CreatedDescending)
    {
      VisibleSorted(rows, (v: Video) => v.category == Some(category))
    }

    /** `getByExhibition`: the exhibition's visible videos, newest first. */
    function GetByExhibition(exhibitionId: nat): (r: seq<Video>)
      reads this
      ensures forall v :: v in r <==> v in rows && v.isVisible && v.relatedExhibitionId == Some(exhibitionId)
      ensures Sorted(r, CreatedDescending)
    {
      VisibleSorted(rows, (v: Video) => v.relatedExhibitionId == Some(exhibitionId))
    }

    /** `getFeatured(limit)`: the `limit` newest visible videos, or all of them
        when there are fewer. */
    function GetFeatured(limit: nat): (r: seq<Video>)
      reads this
      ensures |r| == if limit < Count(rows, IsVisibleVideo) then limit else Count(rows, IsVisibleVideo)
      ensures multiset(r) <= multiset(Filter(rows, IsVisibleVideo))
      ensures forall i :: 0 <= i < |r| ==> r[i] in rows && r[i].isVisible
      ensures Sorted(r, CreatedDescending)
      ensures forall x, i | x in multiset(Filter(rows, IsVisibleVideo)) - multiset(r) && 0 <= i < |r| ::
                CreatedDescending(r[i], x)
    {
      FeaturedPrefix(rows, limit);
      Top(rows, IsVisibleVideo, CreatedDescending, limit)
    }

    /** `getStats`: the number of videos. */
    function GetStats(): (s: VideoStats)
      reads this
      ensures s.total == |rows|
    {
      VideoStats(|rows|)
    }

    /** `getAllCategories`: the categories of the visible videos, each once, with
        missing categories dropped, in ascending string order. */
    function GetAllCategories(): (r: seq<string>)
      reads this
      ensures forall c :: c in r <==> exists i :: 0 <= i < |rows| && rows[i].isVisible && rows[i].category == Some(c)
      ensures Distinct(r)
      ensures forall i, j :: 0 <= i < j < |r| ==> StringLe(r[i], r[j]) && r[i] != r[j]
    {
      var present := Present(VisibleCategoryColumn(rows));
      var unique := FirstOccurrences(present, |present|);
      FirstOccurrencesKeepEach(present, |present|);
      assert present[..|present|] == present;
      var r := SortBy(unique, StringLe);
      StringLeIsTotalPreorder();
      SortBySorted(unique, StringLe);
      forall c ensures c in r <==> c in unique {
        SortBySameElements(unique, StringLe, c);
      }
      assert Distinct(r) by {
        forall x | x in r ensures multiset(r)[x] <= 1 {
          assert multiset(r)[x] == multiset(unique)[x];
        }
      }
      DistinctIndices(r);
      r
    }

    /** `create`. */
    method Create(data: VideoForm, now: int) returns (video: Video)
      requires Valid()
      modifies this
      ensures Valid()
      ensures video == NewVideo(data, old(nextId), now)
      ensures rows == old(rows) + [video] && nextId == old(nextId) + 1
    {
      video := NewVideo(data, nextId, now);
      rows := rows + [video];
      nextId := nextId + 1;
    }

    /** `update`: `.single()` on the updated rows fails when no video has the id,
        which changes nothing. */
    method Update(id: nat, u: VideoUpdate) returns (r: Result<Video>)
      requires Valid()
      modifies this
      ensures Valid()
      ensures nextId == old(nextId)
      ensures !old(HasVideo(id)) ==> r == Err(NoRow) && rows == old(rows)
      ensures old(HasVideo(id)) ==>
                rows == MapWhere(old(rows), IsVideo(id), PatchVideo(u)) &&
                r == Ok(PatchVideo(u)(Find(old(rows), IsVideo(id)).value)) && r.value in rows
    {
      var found := Find(rows, IsVideo(id));
      if found.None? {
        assert forall i :: 0 <= i < |rows| ==> !IsVideo(id)(rows[i]);
        return Err(NoRow);
      }
      ghost var k :| 0 <= k < |rows| && rows[k] == found.value && IsVideo(id)(rows[k]);
      var row := PatchRows(id, found.value, u, k);
      r := Ok(row);
    }

    /** The rows with the id get the sent fields; the row at `k` is one of them. */
    method PatchRows(id: nat, existing: Video, u: VideoUpdate, ghost k: nat) returns (row: Video)
      requires Valid() && k < |rows| && rows[k] == existing && existing.id == id
      modifies this
      ensures Valid() && nextId == old(nextId)
      ensures rows == MapWhere(old(rows), IsVideo(id), PatchVideo(u))
      ensures row == PatchVideo(u)(existing) && row in rows
    {
      row := PatchVideo(u)(existing);
      MapWhereUpdatesAt(rows, VideoId, nextId, IsVideo(id), PatchVideo(u), k);
      rows := MapWhere(rows, IsVideo(id), PatchVideo(u));
    }

    /** `updateCategory`: the video's category and nothing else. */
    method UpdateCategory(id: nat, category: string) returns (r: Result<Video>)
      requires Valid()
      modifies this
      ensures Valid()
      ensures nextId == old(nextId) && |rows| == |old(rows)|
      ensures forall i :: 0 <= i < |rows| ==>
                rows[i] == if old(rows)[i].id == id then old(rows)[i].(category := Some(category)) else old(rows)[i]
      ensures r.Err? <==> !old(HasVideo(id))
      ensures r.Ok? ==> r.value.id == id && r.value.category == Some(category) && r.value in rows
    {
      ghost var before := rows;
      r := Update(id, CategoryUpdate(category));
      forall i | 0 <= i < |rows|
        ensures rows[i] == if before[i].id == id then before[i].(category := Some(category)) else before[i]
      {
        SingleFieldUpdates(before[i], category, false);
      }
    }

    /** `setVisibility`: the video's flag and nothing else. */
    method SetVisibility(id: nat, isVisible: bool) returns (r: Result<Video>)
      requires Valid()
      modifies this
      ensures Valid()
      ensures nextId == old(nextId) && |rows| == |old(rows)|
      ensures forall i :: 0 <= i < |rows| ==>
                rows[i] == if old(rows)[i].id == id then old(rows)[i].(isVisible := isVisible) else old(rows)[i]
      ensures r.Err? <==> !old(HasVideo(id))
      ensures r.Ok? ==> r.value.id == id && r.value.isVisible == isVisible && r.value in rows
    {
      ghost var before := rows;
      r := Update(id, VisibilityUpdate(isVisible));
      forall i | 0 <= i < |rows|
        ensures rows[i] == if before[i].id == id then before[i].(isVisible := isVisible) else before[i]
      {
        SingleFieldUpdates(before[i], "", isVisible);
      }
    }

    /** `delete`. */
    method Delete(id: nat)
      requires Valid()
      modifies this
      ensures Valid()
      ensures rows == Filter(old(rows), NotVideo(id)) && nextId == old(nextId)
      ensures !HasVideo(id)
    {
      FilterKeepsUniqueIds(rows, VideoId, NotVideo(id));
      rows := Filter(rows, NotVideo(id));
    }
  }

  function IsVisibleVideo(v: Video): bool {
    v.isVisible
  }

  /** The first `limit` of the visible videos, newest first: sorted, and no visible
      video left out is newer than one returned. */
  lemma FeaturedPrefix(rows: seq<Video>, limit: nat)
    ensures var r := Top(rows, IsVisibleVideo, CreatedDescending, limit);
            Sorted(r, CreatedDescending) &&
            forall x, i | x in multiset(Filter(rows, IsVisibleVideo)) - multiset(r) && 0 <= i < |r| ::
              CreatedDescending(r[i], x)
  {
    CreatedDescendingIsTotalPreorder();
    TopSorted(rows, IsVisibleVideo, CreatedDescending, limit);
    var r := Top(rows, IsVisibleVideo, CreatedDescending, limit);
    forall x, i | x in multiset(Filter(rows, IsVisibleVideo)) - multiset(r) && 0 <= i < |r|
      ensures CreatedDescending(r[i], x)
    {
      TopComesFirst(rows, IsVisibleVideo, CreatedDescending, limit, x, i);
    }
  }

  /** A listed category is exactly one with a visible video to show. */
  lemma ListedCategoriesHaveVideos(service: VideoService, c: string)
    ensures c in service.GetAllCategories() <==> service.GetByCategory(c) != []
  {
    var r := service.GetByCategory(c);
    if c in service.GetAllCategories() {
      var i :| 0 <= i < |service.rows| && service.rows[i].isVisible && service.rows[i].category == Some(c);
      assert service.rows[i] in r;
    }
  }
}
