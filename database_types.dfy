/** The rows of the gallery's tables, restricted to the columns the modelled code
    reads or writes. Ids are abstract natural numbers (the database generates
    UUIDs); columns that may be `null` are `Option`s; timestamps the code compares
    as numbers are milliseconds (`int`). */
module DatabaseTypes {
  import opened Common
  import Sorting

  /** `exhibition_images.image_type`: a closed set of six values. */
  datatype ImageType = Poster | Artwork | Installation | Detail | Opening | Space

  /** The six types in the order the source lists them. */
  const AllImageTypes: seq<ImageType> := [Poster, Artwork, Installation, Detail, Opening, Space]

  /** The stored text of an image type. */
  function TypeName(t: ImageType): string {
    match t
    case Poster => "poster"
    case Artwork => "artwork"
    case Installation => "installation"
    case Detail => "detail"
    case Opening => "opening"
    case Space => "space"
  }

  /** Reading a stored type back; any other text is not an image type. */
  function ParseImageType(s: string): (r: Option<ImageType>)
    ensures r.Some? ==> TypeName(r.value) == s
  {
    if s == "poster" then Some(Poster)
    else if s == "artwork" then Some(Artwork)
    else if s == "installation" then Some(Installation)
    else if s == "detail" then Some(Detail)
    else if s == "opening" then Some(Opening)
    else if s == "space" then Some(Space)
    else None
  }

  /** Every type is listed once, and its name reads back as itself. */
  lemma ImageTypesClosed(t: ImageType)
    ensures t in AllImageTypes
    ensures ParseImageType(TypeName(t)) == Some(t)
  {
  }

  /** The error the database reports when `.single()` finds no row. */
  const NoRow: string := "no row matched"

  /** `exhibitions.status`. */
  datatype ExhibitionStatus = Draft | Scheduled | Live | Archived

  function StatusName(s: ExhibitionStatus): string {
    match s
    case Draft => "draft"
    case Scheduled => "scheduled"
    case Live => "live"
    case Archived => "archived"
  }

  datatype ExhibitionImage = ExhibitionImage(
    id: nat,
    exhibitionId: nat,
    imageUrl: string,
    altText: Option<string>,
    displayOrder: int,
    imageType: ImageType,
    createdAt: int)

  /** Dates are kept as the text the database returns; the code parses them with
      `new Date(...)` where it compares them. */
  datatype Exhibition = Exhibition(
    id: nat,
    title: string,
    artistName: string,
    description: Option<string>,
    startDate: string,
    endDate: string,
    status: ExhibitionStatus,
    posterImageUrl: Option<string>,
    slug: string)

  datatype Artist = Artist(
    id: nat,
    name: string,
    biography: Option<string>,
    slug: string,
    createdAt: int)

  datatype ArtworkRecord = ArtworkRecord(
    id: nat,
    artistId: nat,
    title: string,
    year: Option<int>,
    materials: Option<string>,
    dimensions: Option<string>,
    description: Option<string>,
    isFeatured: bool,
    slug: Option<string>)

  datatype ArtworkImage = ArtworkImage(
    id: nat,
    artworkId: nat,
    imageUrl: string,
    altText: Option<string>,
    isPrimary: bool,
    displayOrder: int)

  datatype Video = Video(
    id: nat,
    title: string,
    description: Option<string>,
    youtubeUrl: string,
    youtubeId: string,
    thumbnailUrl: Option<string>,
    category: Option<string>,
    relatedExhibitionId: Option<nat>,
    relatedArtistId: Option<nat>,
    isVisible: bool,
    createdAt: int)

  datatype NewsPost = NewsPost(
    id: nat,
    instagramPostId: Option<string>,
    caption: Option<string>,
    imageUrls: seq<string>,
    instagramUrl: Option<string>,
    postDate: Option<string>,
    isVisible: bool,
    createdAt: int)

  datatype Subscriber = Subscriber(
    id: nat,
    email: string,
    subscribedAt: int,
    isActive: bool)

  /** No two rows of a table share an id. */
  predicate UniqueIds<T>(rows: seq<T>, id: T -> nat) {
    forall i, j :: 0 <= i < |rows| && 0 <= j < |rows| && id(rows[i]) == id(rows[j]) ==> i == j
  }

  /** Every id is below the next id the table hands out. */
  predicate IdsBelow<T>(rows: seq<T>, id: T -> nat, next: nat) {
    forall i :: 0 <= i < |rows| ==> id(rows[i]) < next
  }

  /** Deleting rows keeps the remaining ids distinct. */
  lemma {:induction false} FilterKeepsUniqueIds<T>(rows: seq<T>, id: T -> nat, p: T -> bool)
    requires UniqueIds(rows, id)
    ensures UniqueIds(Filter(rows, p), id)
  {
    if rows != [] {
      var tail := rows[1..];
      UniqueTail(rows, id);
      FilterKeepsUniqueIds(tail, id, p);
      var ft := Filter(tail, p);
      if p(rows[0]) {
        forall k | 0 <= k < |ft| ensures id(ft[k]) != id(rows[0]) {
          var m :| 0 <= m < |tail| && tail[m] == ft[k];
          assert rows[m + 1] == ft[k];
        }
        UniqueCons(rows[0], ft, id);
        assert Filter(rows, p) == [rows[0]] + ft;
      }
    }
  }

  /** Dropping the first row keeps the ids distinct. */
  lemma UniqueTail<T>(rows: seq<T>, id: T -> nat)
    requires rows != [] && UniqueIds(rows, id)
    ensures UniqueIds(rows[1..], id)
  {
    var tail := rows[1..];
    forall a, b | 0 <= a < |tail| && 0 <= b < |tail| && id(tail[a]) == id(tail[b]) ensures a == b {
      assert tail[a] == rows[a + 1] && tail[b] == rows[b + 1];
    }
  }

  /** A row whose id none of the others has can go in front. */
  lemma UniqueCons<T>(x: T, rows: seq<T>, id: T -> nat)
    requires UniqueIds(rows, id)
    requires forall k :: 0 <= k < |rows| ==> id(rows[k]) != id(x)
    ensures UniqueIds([x] + rows, id)
  {
    var f := [x] + rows;
    forall a, b | 0 <= a < |f| && 0 <= b < |f| && id(f[a]) == id(f[b]) ensures a == b {
      if a > 0 {
        assert f[a] == rows[a - 1];
      }
      if b > 0 {
        assert f[b] == rows[b - 1];
      }
    }
  }

  /** An update that leaves ids alone keeps them distinct and below the next id. */
  lemma MapWhereKeepsIds<T>(rows: seq<T>, id: T -> nat, next: nat, sel: T -> bool, f: T -> T)
    requires UniqueIds(rows, id) && IdsBelow(rows, id, next)
    requires forall x :: id(f(x)) == id(x)
    ensures UniqueIds(MapWhere(rows, sel, f), id) && IdsBelow(MapWhere(rows, sel, f), id, next)
  {
    var after := MapWhere(rows, sel, f);
    assert forall i :: 0 <= i < |after| ==> id(after[i]) == id(rows[i]);
  }

  /** The same, for an update that picks the row at `k`: that row's patched
      version is in the table afterwards. */
  lemma MapWhereUpdatesAt<T>(rows: seq<T>, id: T -> nat, next: nat, sel: T -> bool, f: T -> T, k: nat)
    requires UniqueIds(rows, id) && IdsBelow(rows, id, next)
    requires forall x :: id(f(x)) == id(x)
    requires k < |rows| && sel(rows[k])
    ensures UniqueIds(MapWhere(rows, sel, f), id) && IdsBelow(MapWhere(rows, sel, f), id, next)
    ensures f(rows[k]) in MapWhere(rows, sel, f)
  {
    MapWhereKeepsIds(rows, id, next, sel, f);
    assert MapWhere(rows, sel, f)[k] == f(rows[k]);
  }

  /** Inserting a row whose id none of the others has keeps the ids distinct. */
  lemma {:induction false} InsertKeepsUniqueIds<T>(x: T, rows: seq<T>, id: T -> nat, le: (T, T) -> bool)
    requires UniqueIds(rows, id)
    requires forall k :: 0 <= k < |rows| ==> id(rows[k]) != id(x)
    ensures UniqueIds(Sorting.Insert(x, rows, le), id)
  {
    if rows == [] || le(x, rows[0]) {
      UniqueCons(x, rows, id);
    } else {
      var tail := rows[1..];
      UniqueTail(rows, id);
      InsertKeepsUniqueIds(x, tail, id, le);
      var t := Sorting.Insert(x, tail, le);
      forall k | 0 <= k < |t| ensures id(t[k]) != id(rows[0]) {
        assert t[k] in multiset(tail) + multiset{x};
        if t[k] in multiset(tail) {
          var m :| 0 <= m < |tail| && tail[m] == t[k];
          assert rows[m + 1] == t[k];
        }
      }
      UniqueCons(rows[0], t, id);
    }
  }

  /** Sorting keeps the ids distinct. */
  lemma {:induction false} SortByKeepsUniqueIds<T>(rows: seq<T>, id: T -> nat, le: (T, T) -> bool)
    requires UniqueIds(rows, id)
    ensures UniqueIds(Sorting.SortBy(rows, le), id)
  {
    if rows != [] {
      var tail := rows[1..];
      UniqueTail(rows, id);
      SortByKeepsUniqueIds(tail, id, le);
      var st := Sorting.SortBy(tail, le);
      forall k | 0 <= k < |st| ensures id(st[k]) != id(rows[0]) {
        Sorting.SortBySameElements(tail, le, st[k]);
        var m :| 0 <= m < |tail| && tail[m] == st[k];
        assert rows[m + 1] == st[k];
      }
      InsertKeepsUniqueIds(rows[0], st, id, le);
    }
  }
}
