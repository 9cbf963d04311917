/** The news service over the `news_posts` table: creating with defaults, the
    visibility operations, the listings, the counts, and the import of an
    Instagram post, which updates the post already imported or creates a visible
    one. The database's order on `post_date` is the parameter `dateKey`; the
    clock is the parameter `now`. */
module News {
  import opened Common
  import opened DatabaseTypes
  import opened Sorting
  import opened Queries

  /** `NewsPostFormData`; `isVisible` is `None` when a caller leaves it out. */
  datatype NewsForm = NewsForm(
    instagramPostId: Option<string>,
    caption: Option<string>,
    imageUrls: Option<seq<string>>,
    instagramUrl: Option<string>,
    postDate: Option<string>,
    isVisible: Option<bool>)

  /** `NewsPostUpdateData`: a field left out keeps its stored value. */
  datatype NewsUpdate = NewsUpdate(
    instagramPostId: Option<string>,
    caption: Option<string>,
    imageUrls: Option<seq<string>>,
    instagramUrl: Option<string>,
    postDate: Option<string>,
    isVisible: Option<bool>)

  /** The two orders of `getAll`. */
  datatype NewsOrder = ByCreatedAt | ByPostDate

  /** `NewsPostSearchData` without the text query; a limit or offset of 0 is falsy
      and is the same as none. */
  datatype NewsSearch = NewsSearch(isVisible: Option<bool>, sortBy: NewsOrder, limit: nat, offset: nat)

  /** What `syncFromInstagram` is given. */
  datatype InstagramPost = InstagramPost(
    instagramPostId: string,
    caption: Option<string>,
    imageUrls: seq<string>,
    instagramUrl: string,
    postDate: string)

  /** The failure of a `.single()` or `maybeSingle` lookup that finds several rows. */
  const MultipleRows: string := "more than one row matched"

  /** `getStats`. */
  datatype NewsStats = NewsStats(total: nat, visible: nat, hidden: nat)

  function PostId(p: NewsPost): nat {
    p.id
  }

  function IsPost(id: nat): NewsPost -> bool {
    (p: NewsPost) => p.id == id
  }

  function NotPost(id: nat): NewsPost -> bool {
    (p: NewsPost) => p.id != id
  }

  function IsVisible(p: NewsPost): bool {
    p.isVisible
  }

  function IsHidden(p: NewsPost): bool {
    !p.isVisible
  }

  /** The posts `getByInstagramId` selects: those with the Instagram id, and only
      the visible ones when asked. */
  function InstagramMatch(instagramPostId: string, visibleOnly: bool): NewsPost -> bool {
    (p: NewsPost) => p.instagramPostId == Some(instagramPostId) && (visibleOnly ==> p.isVisible)
  }

  /** `create`'s insert: the form's fields, no images when none are given, and
      visible unless the form says otherwise. */
  function NewPost(data: NewsForm, id: nat, now: int): (p: NewsPost)
    ensures p.id == id && p.createdAt == now
    ensures p.instagramPostId == data.instagramPostId && p.caption == data.caption
    ensures p.instagramUrl == data.instagramUrl && p.postDate == data.postDate
    ensures data.imageUrls.None? ==> p.imageUrls == []
    ensures data.imageUrls.Some? ==> p.imageUrls == data.imageUrls.value
    ensures p.isVisible <==> data.isVisible != Some(false)
  {
    NewsPost(id, data.instagramPostId, data.caption,
             if data.imageUrls.Some? then data.imageUrls.value else [],
             data.instagramUrl, data.postDate,
             if data.isVisible.Some? then data.isVisible.value else true,
             now)
  }

  /** A stored post with the given fields replaced. */
  function PatchPost(u: NewsUpdate): NewsPost -> NewsPost {
    (p: NewsPost) =>
      NewsPost(p.id,
               if u.instagramPostId.Some? then u.instagramPostId else p.instagramPostId,
               if u.caption.Some? then u.caption else p.caption,
               if u.imageUrls.Some? then u.imageUrls.value else p.imageUrls,
               if u.instagramUrl.Some? then u.instagramUrl else p.instagramUrl,
               if u.postDate.Some? then u.postDate else p.postDate,
               if u.isVisible.Some? then u.isVisible.value else p.isVisible,
               p.createdAt)
  }

  /** `setVisibility`'s update. */
  function VisibilityUpdate(isVisible: bool): NewsUpdate {
    NewsUpdate(None, None, None, None, None, Some(isVisible))
  }

  /** `updateImages`' update. */
  function ImagesUpdate(imageUrls: seq<string>): NewsUpdate {
    NewsUpdate(None, None, Some(imageUrls), None, None, None)
  }

  /** Setting the visibility changes that flag and nothing else; setting the images
      changes the image list and nothing else. */
  lemma SingleFieldUpdates(p: NewsPost, isVisible: bool, imageUrls: seq<string>)
    ensures PatchPost(VisibilityUpdate(isVisible))(p) == p.(isVisible := isVisible)
    ensures PatchPost(ImagesUpdate(imageUrls))(p) == p.(imageUrls := imageUrls)
  {
  }

  /** The update `syncFromInstagram` sends for a post it already has. A caption
      that is left out is not sent, so the stored one stays. */
  function SyncUpdate(post: InstagramPost): NewsUpdate {
    NewsUpdate(None, post.caption, Some(post.imageUrls), Some(post.instagramUrl), Some(post.postDate), None)
  }

  /** The form `syncFromInstagram` creates a post from. */
  function SyncForm(post: InstagramPost): NewsForm {
    NewsForm(Some(post.instagramPostId), post.caption, Some(post.imageUrls), Some(post.instagramUrl),
             Some(post.postDate), Some(true))
  }

  /** An imported post that was already stored keeps its id, its Instagram id, its
      visibility and its creation time, and takes the images, link and date of
      the import; its caption too when the import has one. A new import is a
      visible post carrying every field of the import. */
  lemma SyncedPost(p: NewsPost, post: InstagramPost, id: nat, now: int)
    ensures var q := PatchPost(SyncUpdate(post))(p);
            q.id == p.id && q.instagramPostId == p.instagramPostId && q.isVisible == p.isVisible &&
            q.createdAt == p.createdAt &&
            q.imageUrls == post.imageUrls && q.instagramUrl == Some(post.instagramUrl) &&
            q.postDate == Some(post.postDate) &&
            q.caption == (if post.caption.Some? then post.caption else p.caption)
    ensures var q := NewPost(SyncForm(post), id, now);
            q.isVisible && q.instagramPostId == Some(post.instagramPostId) && q.caption == post.caption &&
            q.imageUrls == post.imageUrls && q.instagramUrl == Some(post.instagramUrl) &&
            q.postDate == Some(post.postDate)
  {
  }

  /** `is_visible` equal to the requested value, or any post when none is requested. */
  function VisibilityMatches(isVisible: Option<bool>): NewsPost -> bool {
    (p: NewsPost) => isVisible.None? || p.isVisible == isVisible.value
  }

  /** Newest creation first. */
  function CreatedDescending(a: NewsPost, b: NewsPost): bool {
    a.createdAt >= b.createdAt
  }

  /** Latest post date first; a post without a date sorts before every dated one,
      as `null`s come first in a descending database order. */
  function PostDateDescending(dateKey: string -> int): (NewsPost, NewsPost) -> bool {
    (a: NewsPost, b: NewsPost) => a.postDate.None? || (b.postDate.Some? && dateKey(a.postDate.value) >= dateKey(b.postDate.value))
  }

  function OrderOf(sortBy: NewsOrder, dateKey: string -> int): (NewsPost, NewsPost) -> bool {
    if sortBy == ByPostDate then PostDateDescending(dateKey) else CreatedDescending
  }

  lemma {:induction false} NewsOrdersArePreorders(dateKey: string -> int)
    ensures TotalPreorder(CreatedDescending)
    ensures TotalPreorder(PostDateDescending(dateKey))
  {
    var le := PostDateDescending(dateKey);
    forall a, b ensures le(a, b) || le(b, a) {
      if a.postDate.Some? && b.postDate.Some? {
        assert dateKey(a.postDate.value) >= dateKey(b.postDate.value) || dateKey(b.postDate.value) >= dateKey(a.postDate.value);
      }
    }
    forall a, b, c | le(a, b) && le(b, c) ensures le(a, c) {
      if a.postDate.Some? {
        assert dateKey(a.postDate.value) >= dateKey(b.postDate.value) >= dateKey(c.postDate.value);
      }
    }
  }

  /** The posts `getRecent` considers: the visible ones when asked, else all. */
  function RecentKeep(visibleOnly: bool): NewsPost -> bool {
    VisibilityMatches(if visibleOnly then Some(true) else None)
  }

  /** The first `limit` posts latest first are sorted, and no considered post left
      out is later than one returned. */
  lemma LatestPosts(rows: seq<NewsPost>, limit: nat, visibleOnly: bool, dateKey: string -> int)
    ensures var r := Top(rows, RecentKeep(visibleOnly), PostDateDescending(dateKey), limit);
            Sorted(r, PostDateDescending(dateKey)) &&
            forall x, i | x in multiset(Filter(rows, RecentKeep(visibleOnly))) - multiset(r) && 0 <= i < |r| ::
              PostDateDescending(dateKey)(r[i], x)
  {
    var keep := RecentKeep(visibleOnly);
    var le := PostDateDescending(dateKey);
    NewsOrdersArePreorders(dateKey);
    TopSorted(rows, keep, le, limit);
    var r := Top(rows, keep, le, limit);
    forall x, i | x in multiset(Filter(rows, keep)) - multiset(r) && 0 <= i < |r| ensures le(r[i], x) {
      TopComesFirst(rows, keep, le, limit, x, i);
    }
  }

  /** A post whose date lies between two dates, both included; a post without a
      date never matches. */
  function DatedBetween(startDate: string, endDate: string, dateKey: string -> int): NewsPost -> bool {
    (p: NewsPost) => p.postDate.Some? && dateKey(startDate) <= dateKey(p.postDate.value) <= dateKey(endDate)
  }

  class NewsPostService {
    var rows: seq<NewsPost>
    var nextId: nat

    ghost predicate Valid()
      reads this
    {
      UniqueIds(rows, PostId) && IdsBelow(rows, PostId, nextId)
    }

    constructor()
      ensures Valid() && rows == [] && nextId == 0
    {
      rows := [];
      nextId := 0;
    }

    predicate HasPost(id: nat)
      reads this
    {
      exists i :: 0 <= i < |rows| && rows[i].id == id
    }

    /** `getAll` without its text search: the posts of the requested visibility,
        newest first by the chosen date, cut by `limit` and `offset`. */
    function GetAll(p: NewsSearch, dateKey: string -> int): (r: seq<NewsPost>)
      reads this
      ensures forall i :: 0 <= i < |r| ==> r[i] in rows && VisibilityMatches(p.isVisible)(r[i])
      ensures Sorted(r, OrderOf(p.sortBy, dateKey))
      ensures p.limit == 0 && p.offset == 0 ==> multiset(r) == multiset(Filter(rows, VisibilityMatches(p.isVisible)))
      ensures p.offset == 0 && p.limit > 0 ==> |r| <= p.limit
    {
      NewsOrdersArePreorders(dateKey);
      ListingSorted(rows, VisibilityMatches(p.isVisible), OrderOf(p.sortBy, dateKey), p.limit, p.offset);
      Listing(rows, VisibilityMatches(p.isVisible), OrderOf(p.sortBy, dateKey), p.limit, p.offset)
    }

    /** `getVisible`: whatever visibility the caller's parameters carry, only
        visible posts. */
    function GetVisible(p: NewsSearch, dateKey: string -> int): (r: seq<NewsPost>)
      reads this
      ensures forall i :: 0 <= i < |r| ==> r[i] in rows && r[i].isVisible
      ensures p.limit == 0 && p.offset == 0 ==> multiset(r) == multiset(Filter(rows, IsVisible))
    {
      var r := GetAll(p.(isVisible := Some(true)), dateKey);
      assert Filter(rows, VisibilityMatches(Some(true))) == Filter(rows, IsVisible) by {
        SameFilter(rows, VisibilityMatches(Some(true)), IsVisible);
      }
      r
    }

    /** `getHidden`: whatever visibility the caller's parameters carry, only hidden
        posts. */
    function GetHidden(p: NewsSearch, dateKey: string -> int): (r: seq<NewsPost>)
      reads this
      ensures forall i :: 0 <= i < |r| ==> r[i] in rows && !r[i].isVisible
      ensures p.limit == 0 && p.offset == 0 ==> multiset(r) == multiset(Filter(rows, IsHidden))
    {
      var r := GetAll(p.(isVisible := Some(false)), dateKey);
      assert Filter(rows, VisibilityMatches(Some(false))) == Filter(rows, IsHidden) by {
        SameFilter(rows, VisibilityMatches(Some(false)), IsHidden);
      }
      r
    }

    /** `getById`; `.single()` fails when no post has the id. */
    function GetById(id: nat): (r: Result<NewsPost>)
      reads this
      ensures r.Err? <==> !HasPost(id)
      ensures r.Err? ==> r.error == NoRow
      ensures r.Ok? ==> r.value in rows && r.value.id == id
    {
      var found := Find(rows, IsPost(id));
      if found.Some? then Ok(found.value) else Err(NoRow)
    }

    /** `getByInstagramId`: `.single()` over the posts with the Instagram id (the
        visible ones only when asked); it fails unless exactly one post matches. */
    function GetByInstagramId(instagramPostId: string, visibleOnly: bool): (r: Result<NewsPost>)
      reads this
      ensures r.Ok? <==> |Filter(rows, InstagramMatch(instagramPostId, visibleOnly))| == 1
      ensures r.Ok? ==> r.value == Filter(rows, InstagramMatch(instagramPostId, visibleOnly))[0]
      ensures r.Ok? ==> r.value in rows && r.value.instagramPostId == Some(instagramPostId) &&
                        (visibleOnly ==> r.value.isVisible)
      ensures |Filter(rows, InstagramMatch(instagramPostId, visibleOnly))| > 1 ==> r == Err(MultipleRows)
      ensures (forall i :: 0 <= i < |rows| ==> rows[i].instagramPostId != Some(instagramPostId)) ==> r == Err(NoRow)
    {
      var matching := Filter(rows, InstagramMatch(instagramPostId, visibleOnly));
      FilterNoneWhenAbsent(rows, instagramPostId, InstagramMatch(instagramPostId, visibleOnly));
      if |matching| == 1 then Ok(matching[0])
      else if |matching| == 0 then Err(NoRow)
      else Err(MultipleRows)
    }

    /** `getRecent(limit, visibleOnly)`: the `limit` latest posts, visible ones only
        when asked; all of them when there are fewer. */
    function GetRecent(limit: nat, visibleOnly: bool, dateKey: string -> int): (r: seq<NewsPost>)
      reads this
      ensures |r| == if limit < Count(rows, RecentKeep(visibleOnly)) then limit else Count(rows, RecentKeep(visibleOnly))
      ensures multiset(r) <= multiset(Filter(rows, RecentKeep(visibleOnly)))
      ensures forall i :: 0 <= i < |r| ==> r[i] in rows && (visibleOnly ==> r[i].isVisible)
      ensures Sorted(r, PostDateDescending(dateKey))
      ensures forall x, i | x in multiset(Filter(rows, RecentKeep(visibleOnly))) - multiset(r) && 0 <= i < |r| ::
                PostDateDescending(dateKey)(r[i], x)
    {
      LatestPosts(rows, limit, visibleOnly, dateKey);
      Top(rows, RecentKeep(visibleOnly), PostDateDescending(dateKey), limit)
    }

    /** `getFeatured(limit, visibleOnly)`: the recent posts under another name, so
        the `limit` latest posts too. */
    function GetFeatured(limit: nat, visibleOnly: bool, dateKey: string -> int): (r: seq<NewsPost>)
      reads this
      ensures |r| == if limit < Count(rows, RecentKeep(visibleOnly)) then limit else Count(rows, RecentKeep(visibleOnly))
      ensures multiset(r) <= multiset(Filter(rows, RecentKeep(visibleOnly)))
      ensures forall i :: 0 <= i < |r| ==> r[i] in rows && (visibleOnly ==> r[i].isVisible)
      ensures Sorted(r, PostDateDescending(dateKey))
      ensures forall x, i | x in multiset(Filter(rows, RecentKeep(visibleOnly))) - multiset(r) && 0 <= i < |r| ::
                PostDateDescending(dateKey)(r[i], x)
    {
      GetRecent(limit, visibleOnly, dateKey)
    }

    /** `getByDateRange`: the posts dated between the two dates, latest first,
        visible ones only when asked. */
    function GetByDateRange(startDate: string, endDate: string, visibleOnly: bool, dateKey: string -> int)
      : (r: seq<NewsPost>)
      reads this
      ensures forall p :: p in r <==>
                p in rows && DatedBetween(startDate, endDate, dateKey)(p) && (visibleOnly ==> p.isVisible)
      ensures Sorted(r, PostDateDescending(dateKey))
    {
      var keep := (p: NewsPost) => DatedBetween(startDate, endDate, dateKey)(p) && (visibleOnly ==> p.isVisible);
      var matching := Filter(rows, keep);
      NewsOrdersArePreorders(dateKey);
      SortBySorted(matching, PostDateDescending(dateKey));
      forall p ensures p in SortBy(matching, PostDateDescending(dateKey)) <==> p in matching {
        SortBySameElements(matching, PostDateDescending(dateKey), p);
      }
      SortBy(matching, PostDateDescending(dateKey))
    }

    /** `getStats`: every post is counted as visible or as hidden. */
    function GetStats(): (s: NewsStats)
      reads this
      ensures s.total == |rows| && s.visible == Count(rows, IsVisible) && s.hidden == Count(rows, IsHidden)
      ensures s.visible + s.hidden == s.total
    {
      CountSplit(rows, IsVisible, IsHidden);
      NewsStats(|rows|, Count(rows, IsVisible), Count(rows, IsHidden))
    }

    /** `create`. */
    method Create(data: NewsForm, now: int) returns (post: NewsPost)
      requires Valid()
      modifies this
      ensures Valid()
      ensures post == NewPost(data, old(nextId), now)
      ensures rows == old(rows) + [post] && nextId == old(nextId) + 1
    {
      post := NewPost(data, nextId, now);
      rows := rows + [post];
      nextId := nextId + 1;
    }

    /** `update`: `.single()` on the updated rows fails when no post has the id,
        which changes nothing. */
    method Update(id: nat, u: NewsUpdate) returns (r: Result<NewsPost>)
      requires Valid()
      modifies this
      ensures Valid()
      ensures nextId == old(nextId)
      ensures !old(HasPost(id)) ==> r == Err(NoRow) && rows == old(rows)
      ensures old(HasPost(id)) ==>
                rows == MapWhere(old(rows), IsPost(id), PatchPost(u)) &&
                r == Ok(PatchPost(u)(Find(old(rows), IsPost(id)).value)) && r.value in rows
    {
      var found := Find(rows, IsPost(id));
      if found.None? {
        assert forall i :: 0 <= i < |rows| ==> !IsPost(id)(rows[i]);
        return Err(NoRow);
      }
      ghost var k :| 0 <= k < |rows| && rows[k] == found.value && IsPost(id)(rows[k]);
      var row := PatchRows(id, found.value, u, k);
      r := Ok(row);
    }

    /** The rows with the id get the sent fields; the row at `k` is one of them. */
    method PatchRows(id: nat, existing: NewsPost, u: NewsUpdate, ghost k: nat) returns (row: NewsPost)
      requires Valid() && k < |rows| && rows[k] == existing && existing.id == id
      modifies this
      ensures Valid() && nextId == old(nextId)
      ensures rows == MapWhere(old(rows), IsPost(id), PatchPost(u))
      ensures row == PatchPost(u)(existing) && row in rows
    {
      row := PatchPost(u)(existing);
      MapWhereUpdatesAt(rows, PostId, nextId, IsPost(id), PatchPost(u), k);
      rows := MapWhere(rows, IsPost(id), PatchPost(u));
    }

    /** `setVisibility`: the post's flag and nothing else. */
    method SetVisibility(id: nat, isVisible: bool) returns (r: Result<NewsPost>)
      requires Valid()
      modifies this
      ensures Valid()
      ensures nextId == old(nextId) && |rows| == |old(rows)|
      ensures forall i :: 0 <= i < |rows| ==>
                rows[i] == if old(rows)[i].id == id then old(rows)[i].(isVisible := isVisible) else old(rows)[i]
      ensures r.Err? <==> !old(HasPost(id))
      ensures r.Ok? ==> r.value.id == id && r.value.isVisible == isVisible && r.value in rows
    {
      ghost var before := rows;
      r := Update(id, VisibilityUpdate(isVisible));
      forall i | 0 <= i < |rows|
        ensures rows[i] == if before[i].id == id then before[i].(isVisible := isVisible) else before[i]
      {
        SingleFieldUpdates(before[i], isVisible, []);
      }
    }

    /** `hide`. */
    method Hide(id: nat) returns (r: Result<NewsPost>)
      requires Valid()
      modifies this
      ensures Valid()
      ensures nextId == old(nextId) && |rows| == |old(rows)|
      ensures forall i :: 0 <= i < |rows| ==>
                rows[i] == if old(rows)[i].id == id then old(rows)[i].(isVisible := false) else old(rows)[i]
      ensures r.Ok? ==> r.value.id == id && !r.value.isVisible
    {
      r := SetVisibility(id, false);
    }

    /** `show`. */
    method Show(id: nat) returns (r: Result<NewsPost>)
      requires Valid()
      modifies this
      ensures Valid()
      ensures nextId == old(nextId) && |rows| == |old(rows)|
      ensures forall i :: 0 <= i < |rows| ==>
                rows[i] == if old(rows)[i].id == id then old(rows)[i].(isVisible := true) else old(rows)[i]
      ensures r.Ok? ==> r.value.id == id && r.value.isVisible
    {
      r := SetVisibility(id, true);
    }

    /** `updateImages`: the post's image list and nothing else. */
    method UpdateImages(id: nat, imageUrls: seq<string>) returns (r: Result<NewsPost>)
      requires Valid()
      modifies this
      ensures Valid()
      ensures nextId == old(nextId) && |rows| == |old(rows)|
      ensures forall i :: 0 <= i < |rows| ==>
                rows[i] == if old(rows)[i].id == id then old(rows)[i].(imageUrls := imageUrls) else old(rows)[i]
      ensures r.Ok? ==> r.value.id == id && r.value.imageUrls == imageUrls
    {
      ghost var before := rows;
      r := Update(id, ImagesUpdate(imageUrls));
      forall i | 0 <= i < |rows|
        ensures rows[i] == if before[i].id == id then before[i].(imageUrls := imageUrls) else before[i]
      {
        SingleFieldUpdates(before[i], false, imageUrls);
      }
    }

    /** `syncFromInstagram` as written: the lookup is `getByInstagramId`, whose
        `.single()` fails when no post has the Instagram id, and the failure is
        passed on, so a post that was never imported is never created. The one
        post with the id takes the import's fields; with several, the lookup fails. */
    method SyncFromInstagramAsWritten(post: InstagramPost, now: int) returns (r: Result<NewsPost>)
      requires Valid()
      modifies this
      ensures Valid()
      ensures (forall i :: 0 <= i < |old(rows)| ==> old(rows)[i].instagramPostId != Some(post.instagramPostId)) ==>
                r == Err(NoRow) && rows == old(rows) && nextId == old(nextId)
      ensures var matching := Filter(old(rows), InstagramMatch(post.instagramPostId, false));
              |matching| == 1 ==>
                rows == MapWhere(old(rows), IsPost(matching[0].id), PatchPost(SyncUpdate(post))) &&
                nextId == old(nextId) && r == Ok(PatchPost(SyncUpdate(post))(matching[0]))
      ensures |Filter(old(rows), InstagramMatch(post.instagramPostId, false))| > 1 ==>
                r == Err(MultipleRows) && rows == old(rows) && nextId == old(nextId)
      ensures r.Ok? ==> r.value in rows && r.value.instagramPostId == Some(post.instagramPostId)
    {
      var existing := GetByInstagramId(post.instagramPostId, false);
      if existing.Err? {
        return Err(existing.error);
      }
      ghost var matching := Filter(rows, InstagramMatch(post.instagramPostId, false));
      ghost var k :| 0 <= k < |rows| && rows[k] == existing.value;
      assert HasPost(existing.value.id);
      ghost var stored := Find(rows, IsPost(existing.value.id)).value;
      assert stored == existing.value by {
        ghost var j :| 0 <= j < |rows| && rows[j] == stored && IsPost(existing.value.id)(rows[j]);
        assert j == k;
      }
      r := Update(existing.value.id, SyncUpdate(post));
      SyncedPost(existing.value, post, 0, now);
    }

    /** `syncFromInstagram` with a lookup that reports "no post" instead of failing
        (`maybeSingle`): the one post with the Instagram id takes the import's
        fields; with none, a visible post is created from the import; with several,
        the lookup fails and nothing changes. */
    method SyncFromInstagram(post: InstagramPost, now: int) returns (r: Result<NewsPost>)
      requires Valid()
      modifies this
      ensures Valid()
      ensures var matching := Filter(old(rows), InstagramMatch(post.instagramPostId, false));
              |matching| == 1 ==>
                rows == MapWhere(old(rows), IsPost(matching[0].id), PatchPost(SyncUpdate(post))) &&
                nextId == old(nextId) && r == Ok(PatchPost(SyncUpdate(post))(matching[0]))
      ensures (forall i :: 0 <= i < |old(rows)| ==> old(rows)[i].instagramPostId != Some(post.instagramPostId)) ==>
                r == Ok(NewPost(SyncForm(post), old(nextId), now)) && rows == old(rows) + [r.value] &&
                nextId == old(nextId) + 1
      ensures |Filter(old(rows), InstagramMatch(post.instagramPostId, false))| > 1 ==>
                r == Err(MultipleRows) && rows == old(rows) && nextId == old(nextId)
      ensures r.Ok? ==> r.value in rows && r.value.instagramPostId == Some(post.instagramPostId) &&
                        r.value.imageUrls == post.imageUrls && r.value.instagramUrl == Some(post.instagramUrl) &&
                        r.value.postDate == Some(post.postDate)
    {
      var matching := Filter(rows, InstagramMatch(post.instagramPostId, false));
      FilterNoneWhenAbsent(rows, post.instagramPostId, InstagramMatch(post.instagramPostId, false));
      if |matching| > 1 {
        return Err(MultipleRows);
      }
      if |matching| == 1 {
        var existing := matching[0];
        assert existing in rows;
        ghost var k :| 0 <= k < |rows| && rows[k] == existing;
        assert HasPost(existing.id);
        ghost var stored := Find(rows, IsPost(existing.id)).value;
        assert stored == existing by {
          ghost var j :| 0 <= j < |rows| && rows[j] == stored && IsPost(existing.id)(rows[j]);
          assert j == k;
        }
        r := Update(existing.id, SyncUpdate(post));
        SyncedPost(existing, post, 0, now);
        return;
      }
      var created := Create(SyncForm(post), now);
      SyncedPost(created, post, nextId, now);
      r := Ok(created);
    }

    /** `delete`. */
    method Delete(id: nat)
      requires Valid()
      modifies this
      ensures Valid()
      ensures rows == Filter(old(rows), NotPost(id)) && nextId == old(nextId)
      ensures !HasPost(id)
    {
      FilterKeepsUniqueIds(rows, PostId, NotPost(id));
      rows := Filter(rows, NotPost(id));
    }
  }

  /** No post carries the Instagram id, so no post passes a filter that requires it. */
  lemma FilterNoneWhenAbsent(rows: seq<NewsPost>, instagramPostId: string, p: NewsPost -> bool)
    requires forall q :: p(q) ==> q.instagramPostId == Some(instagramPostId)
    ensures (forall i :: 0 <= i < |rows| ==> rows[i].instagramPostId != Some(instagramPostId)) ==> Filter(rows, p) == []
  {
    if forall i :: 0 <= i < |rows| ==> rows[i].instagramPostId != Some(instagramPostId) {
      FilterNone(rows, p);
    }
  }
}
