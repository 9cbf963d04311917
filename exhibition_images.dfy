/** The exhibition image service: grouping by the six image types, poster
    promotion, reordering, copying between exhibitions, deletion that survives a
    storage failure, statistics, and the names and defaults of batch uploads.
    The `exhibition_images` table is the class's `rows`; the storage is a separate
    `Storage` object. */
module ExhibitionImages {
  import opened Common
  import opened DatabaseTypes
  import opened StorageSdk
  import opened Sorting
  import opened Queries
  import Upload

  /** The bucket the service itself writes to and deletes from. */
  const ImagesBucket: string := "exhibitions"

  /** `EXHIBITION_IMAGE_TYPE_LABELS`. */
  function Label(t: ImageType): string {
    match t
    case Poster => "포스터"
    case Artwork => "작품"
    case Installation => "설치 뷰"
    case Detail => "세부"
    case Opening => "오프닝"
    case Space => "공간"
  }

  // ---------------------------------------------------------------------------
  // Selections over the table
  // ---------------------------------------------------------------------------

  function HasType(t: ImageType): ExhibitionImage -> bool {
    (r: ExhibitionImage) => r.imageType == t
  }

  function InExhibition(exhibitionId: nat): ExhibitionImage -> bool {
    (r: ExhibitionImage) => r.exhibitionId == exhibitionId
  }

  /** The rows of one exhibition, optionally of one type. */
  function Selects(exhibitionId: nat, imageType: Option<ImageType>): ExhibitionImage -> bool {
    (r: ExhibitionImage) => r.exhibitionId == exhibitionId && (imageType.None? || r.imageType == imageType.value)
  }

  function NotId(id: nat): ExhibitionImage -> bool {
    (r: ExhibitionImage) => r.id != id
  }

  function NotAmong(ids: seq<nat>): ExhibitionImage -> bool {
    (r: ExhibitionImage) => r.id !in ids
  }

  /** The images of one type, in their order. */
  function OfType(images: seq<ExhibitionImage>, t: ImageType): (r: seq<ExhibitionImage>)
    ensures forall i :: 0 <= i < |r| ==> r[i] in images && r[i].imageType == t
    ensures forall i :: 0 <= i < |images| && images[i].imageType == t ==> images[i] in r
  {
    Filter(images, HasType(t))
  }

  // ---------------------------------------------------------------------------
  // The `image_type` ordering
  // ---------------------------------------------------------------------------

  /** The place of a type's stored name in text order. */
  function TypeRank(t: ImageType): nat {
    match t
    case Artwork => 0
    case Detail => 1
    case Installation => 2
    case Opening => 3
    case Poster => 4
    case Space => 5
  }

  /** The ranks follow the text order of the stored names, and tell types apart. */
  lemma TypeRankIsNameOrder(a: ImageType, b: ImageType)
    ensures TypeRank(a) <= TypeRank(b) <==> StringLe(TypeName(a), TypeName(b))
    ensures TypeRank(a) == TypeRank(b) <==> a == b
  {
    if a == b {
      StringLeTotal(TypeName(a), TypeName(b));
    } else {
      assert TypeName(a)[0] != TypeName(b)[0];
    }
  }

  /** `order('display_order')`. */
  predicate OrderLe(a: ExhibitionImage, b: ExhibitionImage) {
    a.displayOrder <= b.displayOrder
  }

  /** `order('image_type').order('display_order')`: by the type's name, then by
      display order. */
  predicate TypeThenOrder(a: ExhibitionImage, b: ExhibitionImage) {
    TypeRank(a.imageType) < TypeRank(b.imageType) ||
    (TypeRank(a.imageType) == TypeRank(b.imageType) && a.displayOrder <= b.displayOrder)
  }

  lemma TypeThenOrderIsTotalPreorder()
    ensures TotalPreorder(TypeThenOrder)
  {
  }

  /** In a listing sorted by type and display order, each type's images come in
      display order. */
  lemma OfTypeInDisplayOrder(images: seq<ExhibitionImage>, t: ImageType)
    requires Sorted(images, TypeThenOrder)
    ensures Sorted(OfType(images, t), OrderLe)
  {
    var r := OfType(images, t);
    FilterSorted(images, HasType(t), TypeThenOrder);
    forall i, j | 0 <= i < j < |r| ensures OrderLe(r[i], r[j]) {
      assert TypeThenOrder(r[i], r[j]);
      assert r[i].imageType == t && r[j].imageType == t;
    }
  }

  /** Because the type is closed, the six type lists together hold every image once. */
  lemma {:induction false} TypeCountsSum(images: seq<ExhibitionImage>)
    ensures |OfType(images, Poster)| + |OfType(images, Artwork)| + |OfType(images, Installation)| +
            |OfType(images, Detail)| + |OfType(images, Opening)| + |OfType(images, Space)| == |images|
  {
    if images != [] {
      TypeCountsSum(images[1..]);
    }
  }

  /** The row with `id`, if any. */
  function FindImage(rows: seq<ExhibitionImage>, id: nat): (r: Option<ExhibitionImage>)
    ensures r.Some? ==> r.value in rows && r.value.id == id
    ensures r.None? <==> forall i :: 0 <= i < |rows| ==> rows[i].id != id
  {
    Find(rows, (r: ExhibitionImage) => r.id == id)
  }

  predicate HasImage(rows: seq<ExhibitionImage>, id: nat) {
    exists i :: 0 <= i < |rows| && rows[i].id == id
  }

  predicate UniqueImageIds(rows: seq<ExhibitionImage>) {
    forall i, j :: 0 <= i < |rows| && 0 <= j < |rows| && rows[i].id == rows[j].id ==> i == j
  }

  /** With distinct ids, the row found by id is the one at that id's position. */
  lemma FindUnique(rows: seq<ExhibitionImage>, j: nat)
    requires UniqueImageIds(rows) && j < |rows|
    ensures FindImage(rows, rows[j].id) == Some(rows[j])
  {
    var r := FindImage(rows, rows[j].id);
    var k :| 0 <= k < |rows| && rows[k] == r.value;
  }

  // ---------------------------------------------------------------------------
  // Grouping
  // ---------------------------------------------------------------------------

  datatype Counts = Counts(poster: nat, artwork: nat, installation: nat, detail: nat, opening: nat,
                           space: nat, total: nat)

  /** `GroupedExhibitionImages`: one list and one counter per type, the whole
      list as `all` and its length as `count.total`. */
  datatype Grouped = Grouped(poster: seq<ExhibitionImage>, artwork: seq<ExhibitionImage>,
                             installation: seq<ExhibitionImage>, detail: seq<ExhibitionImage>,
                             opening: seq<ExhibitionImage>, space: seq<ExhibitionImage>,
                             all: seq<ExhibitionImage>, count: Counts)
  {
    /** Each type list is in display order. */
    predicate InDisplayOrder() {
      forall t :: Sorted(Of(t), OrderLe)
    }

    function Of(t: ImageType): seq<ExhibitionImage> {
      match t
      case Poster => poster
      case Artwork => artwork
      case Installation => installation
      case Detail => detail
      case Opening => opening
      case Space => space
    }

    function CountOf(t: ImageType): nat {
      match t
      case Poster => count.poster
      case Artwork => count.artwork
      case Installation => count.installation
      case Detail => count.detail
      case Opening => count.opening
      case Space => count.space
    }

    /** `grouped[type].push(image); grouped.count[type]++`. */
    function Push(image: ExhibitionImage): (g: Grouped)
      ensures g.all == all && g.count.total == count.total
      ensures g.Of(image.imageType) == Of(image.imageType) + [image]
      ensures g.CountOf(image.imageType) == CountOf(image.imageType) + 1
      ensures forall t :: t != image.imageType ==> g.Of(t) == Of(t) && g.CountOf(t) == CountOf(t)
    {
      match image.imageType
      case Poster => this.(poster := poster + [image], count := count.(poster := count.poster + 1))
      case Artwork => this.(artwork := artwork + [image], count := count.(artwork := count.artwork + 1))
      case Installation =>
        this.(installation := installation + [image], count := count.(installation := count.installation + 1))
      case Detail => this.(detail := detail + [image], count := count.(detail := count.detail + 1))
      case Opening => this.(opening := opening + [image], count := count.(opening := count.opening + 1))
      case Space => this.(space := space + [image], count := count.(space := count.space + 1))
    }
  }

  /** The grouping loop of `getGroupedByType`: each type list is the input filtered
      to that type in input order, and each counter is its list's length. */
  method GroupImages(images: seq<ExhibitionImage>) returns (g: Grouped)
    ensures g.all == images && g.count.total == |images|
    ensures forall t :: g.Of(t) == OfType(images, t) && g.CountOf(t) == |g.Of(t)|
  {
    g := Grouped([], [], [], [], [], [], images, Counts(0, 0, 0, 0, 0, 0, |images|));
    for i := 0 to |images|
      invariant GroupedUpTo(g, images, i)
    {
      GroupStep(g, images, i);
      g := g.Push(images[i]);
    }
    assert images[..|images|] == images;
  }

  /** The grouping after the first `i` images. */
  ghost predicate GroupedUpTo(g: Grouped, images: seq<ExhibitionImage>, i: nat)
    requires i <= |images|
  {
    g.all == images && g.count.total == |images| &&
    forall t :: g.Of(t) == OfType(images[..i], t) && g.CountOf(t) == |g.Of(t)|
  }

  /** One turn of the grouping loop. */
  lemma GroupStep(g: Grouped, images: seq<ExhibitionImage>, i: nat)
    requires i < |images| && GroupedUpTo(g, images, i)
    ensures GroupedUpTo(g.Push(images[i]), images, i + 1)
  {
    var g' := g.Push(images[i]);
    TakeOneMore(images, i);
    forall t ensures g'.Of(t) == OfType(images[..i + 1], t) && g'.CountOf(t) == |g'.Of(t)| {
      OfTypeSnoc(images[..i], images[i], t);
    }
  }

  /** One more image adds itself to its own type's list only. */
  lemma OfTypeSnoc(images: seq<ExhibitionImage>, x: ExhibitionImage, t: ImageType)
    ensures OfType(images + [x], t) == OfType(images, t) + (if x.imageType == t then [x] else [])
  {
    FilterAppend(images, [x], HasType(t));
    assert Filter([x], HasType(t)) == if x.imageType == t then [x] else [];
  }

  /** The six counters of a grouping add up to its total. */
  lemma GroupCountsSum(images: seq<ExhibitionImage>, g: Grouped)
    requires g.all == images && g.count.total == |images|
    requires forall t :: g.Of(t) == OfType(images, t) && g.CountOf(t) == |g.Of(t)|
    ensures g.count.poster + g.count.artwork + g.count.installation + g.count.detail +
            g.count.opening + g.count.space == g.count.total
  {
    assert g.CountOf(Poster) == g.count.poster && g.CountOf(Artwork) == g.count.artwork;
    assert g.CountOf(Installation) == g.count.installation && g.CountOf(Detail) == g.count.detail;
    assert g.CountOf(Opening) == g.count.opening && g.CountOf(Space) == g.count.space;
    TypeCountsSum(images);
  }

  // ---------------------------------------------------------------------------
  // Rows written by the service
  // ---------------------------------------------------------------------------

  /** An insert: every column the code supplies. */
  datatype NewImage = NewImage(exhibitionId: nat, imageUrl: string, altText: Option<string>,
                               displayOrder: int, imageType: ImageType)

  function Materialize(n: NewImage, id: nat, now: int): (r: ExhibitionImage)
    ensures r.id == id && r.exhibitionId == n.exhibitionId && r.imageUrl == n.imageUrl &&
            r.altText == n.altText && r.displayOrder == n.displayOrder && r.imageType == n.imageType
  {
    ExhibitionImage(id, n.exhibitionId, n.imageUrl, n.altText, n.displayOrder, n.imageType, now)
  }

  /** Inserting several rows at once: consecutive fresh ids, in input order. */
  function MaterializeAll(ns: seq<NewImage>, firstId: nat, now: int): (r: seq<ExhibitionImage>)
    ensures |r| == |ns|
  {
    seq(|ns|, i requires 0 <= i < |ns| => Materialize(ns[i], firstId + i, now))
  }

  /** Row `i` of a batch insert is record `i` under the `i`-th id after the first. */
  lemma MaterializeAllAt(ns: seq<NewImage>, firstId: nat, now: int, i: nat)
    requires i < |ns|
    ensures MaterializeAll(ns, firstId, now)[i] == Materialize(ns[i], firstId + i, now)
    ensures MaterializeAll(ns, firstId, now)[i].id == firstId + i
  {
  }

  /** Rows inserted from the next id on keep the ids distinct and below the new
      next id. */
  lemma AppendMaterialized(rows: seq<ExhibitionImage>, nextId: nat, ns: seq<NewImage>, now: int)
    requires UniqueImageIds(rows) && forall i :: 0 <= i < |rows| ==> rows[i].id < nextId
    ensures var after := rows + MaterializeAll(ns, nextId, now);
            UniqueImageIds(after) && forall i :: 0 <= i < |after| ==> after[i].id < nextId + |ns|
  {
    var added := MaterializeAll(ns, nextId, now);
    var after := rows + added;
    forall i | 0 <= i < |after| ensures after[i].id < nextId + |ns| && (i >= |rows| ==> after[i].id == nextId + i - |rows|) {
      if i >= |rows| {
        MaterializeAllAt(ns, nextId, now, i - |rows|);
        assert after[i] == added[i - |rows|];
      } else {
        assert after[i] == rows[i];
      }
    }
  }

  /** An `update` payload; `None` leaves a column alone. */
  datatype ImageUpdate = ImageUpdate(altText: Option<Option<string>>, displayOrder: Option<int>,
                                     imageType: Option<ImageType>)

  function Patch(r: ExhibitionImage, u: ImageUpdate): (p: ExhibitionImage)
    ensures p.id == r.id && p.exhibitionId == r.exhibitionId && p.imageUrl == r.imageUrl
    ensures p.altText == (if u.altText.Some? then u.altText.value else r.altText)
    ensures p.displayOrder == (if u.displayOrder.Some? then u.displayOrder.value else r.displayOrder)
    ensures p.imageType == (if u.imageType.Some? then u.imageType.value else r.imageType)
  {
    r.(altText := if u.altText.Some? then u.altText.value else r.altText,
       displayOrder := if u.displayOrder.Some? then u.displayOrder.value else r.displayOrder,
       imageType := if u.imageType.Some? then u.imageType.value else r.imageType)
  }

  /** `update(updates).eq('id', id)` on the table. */
  function PatchWhere(rows: seq<ExhibitionImage>, id: nat, u: ImageUpdate): (r: seq<ExhibitionImage>)
    ensures |r| == |rows|
    ensures forall j :: 0 <= j < |rows| ==> r[j] == if rows[j].id == id then Patch(rows[j], u) else rows[j]
  {
    seq(|rows|, j requires 0 <= j < |rows| => if rows[j].id == id then Patch(rows[j], u) else rows[j])
  }

  const NoChange: ImageUpdate := ImageUpdate(None, None, None)

  function OrderUpdate(order: int): ImageUpdate {
    ImageUpdate(None, Some(order), None)
  }

  /** Deleting rows by id keeps the other rows in their order. */
  lemma FilterOutMore(rows: seq<ExhibitionImage>, ids: seq<nat>, id: nat)
    ensures Filter(Filter(rows, NotAmong(ids)), NotId(id)) == Filter(rows, NotAmong(ids + [id]))
  {
    forall r: ExhibitionImage ensures NotAmong(ids + [id])(r) == (NotAmong(ids)(r) && NotId(id)(r)) {
      assert r.id in ids + [id] <==> r.id in ids || r.id == id;
    }
    FilterFilter(rows, NotAmong(ids), NotId(id), NotAmong(ids + [id]));
  }

  // ---------------------------------------------------------------------------
  // Poster promotion
  // ---------------------------------------------------------------------------

  /** The first update of `setPosterImage`: every poster of the exhibition becomes
      an artwork image. */
  function Demoted(rows: seq<ExhibitionImage>, exhibitionId: nat): (r: seq<ExhibitionImage>)
    ensures |r| == |rows| && forall j :: 0 <= j < |rows| ==> r[j].id == rows[j].id
  {
    seq(|rows|, j requires 0 <= j < |rows| =>
      if rows[j].exhibitionId == exhibitionId && rows[j].imageType == Poster
      then rows[j].(imageType := Artwork) else rows[j])
  }

  /** The second update: the row with the id, wherever it belongs, becomes the
      poster with order 0. */
  function Promoted(rows: seq<ExhibitionImage>, imageId: nat): (r: seq<ExhibitionImage>)
    ensures |r| == |rows|
  {
    PatchWhere(rows, imageId, ImageUpdate(None, Some(0), Some(Poster)))
  }

  /** After both updates, the exhibition's posters are exactly the target, and only
      when the target belongs to the exhibition; the target is a poster with order 0;
      every other former poster of the exhibition is an artwork image; every other
      row is untouched, and no row changes id, exhibition, URL or alt text. */
  lemma PosterSwap(rows: seq<ExhibitionImage>, exhibitionId: nat, imageId: nat)
    ensures var after := Promoted(Demoted(rows, exhibitionId), imageId);
            |after| == |rows| &&
            forall j :: 0 <= j < |rows| ==>
              after[j].id == rows[j].id && after[j].exhibitionId == rows[j].exhibitionId &&
              after[j].imageUrl == rows[j].imageUrl && after[j].altText == rows[j].altText &&
              ((after[j].exhibitionId == exhibitionId && after[j].imageType == Poster) <==>
                 (rows[j].id == imageId && rows[j].exhibitionId == exhibitionId)) &&
              (rows[j].id == imageId ==> after[j].imageType == Poster && after[j].displayOrder == 0) &&
              (rows[j].id != imageId && rows[j].exhibitionId == exhibitionId && rows[j].imageType == Poster ==>
                 after[j] == rows[j].(imageType := Artwork)) &&
              (rows[j].id != imageId && !(rows[j].exhibitionId == exhibitionId && rows[j].imageType == Poster) ==>
                 after[j] == rows[j])
  {
  }

  /** Hence, with distinct ids and the target in the exhibition, exactly one of the
      exhibition's images is a poster. */
  lemma {:induction false} SinglePoster(rows: seq<ExhibitionImage>, exhibitionId: nat, j: nat)
    requires UniqueImageIds(rows) && j < |rows| && rows[j].exhibitionId == exhibitionId
    ensures var after := Promoted(Demoted(rows, exhibitionId), rows[j].id);
            Count(after, (r: ExhibitionImage) => r.exhibitionId == exhibitionId && r.imageType == Poster) == 1
  {
    var after := Promoted(Demoted(rows, exhibitionId), rows[j].id);
    var isPoster := (r: ExhibitionImage) => r.exhibitionId == exhibitionId && r.imageType == Poster;
    PosterSwap(rows, exhibitionId, rows[j].id);
    assert after == after[..j] + [after[j]] + after[j + 1..];
    forall k | 0 <= k < |after[..j]| ensures !isPoster(after[..j][k]) {
      assert after[..j][k] == after[k];
    }
    var tail := after[j + 1..];
    forall k | 0 <= k < |tail| ensures !isPoster(tail[k]) {
      assert tail[k] == after[j + 1 + k];
    }
    FilterNone(after[..j], isPoster);
    FilterNone(after[j + 1..], isPoster);
    FilterAppend(after[..j] + [after[j]], after[j + 1..], isPoster);
    FilterAppend(after[..j], [after[j]], isPoster);
  }

  /** A target outside the exhibition leaves the exhibition without any poster. */
  lemma NoPosterWhenElsewhere(rows: seq<ExhibitionImage>, exhibitionId: nat, imageId: nat)
    requires forall j :: 0 <= j < |rows| && rows[j].id == imageId ==> rows[j].exhibitionId != exhibitionId
    ensures var after := Promoted(Demoted(rows, exhibitionId), imageId);
            forall j :: 0 <= j < |after| && after[j].exhibitionId == exhibitionId ==> after[j].imageType != Poster
  {
    PosterSwap(rows, exhibitionId, imageId);
  }

  /** The poster `getPosterImage` answers with: the exhibition's poster with the
      smallest display order, or nothing when it has none. */
  function PosterImage(rows: seq<ExhibitionImage>, exhibitionId: nat): (r: Option<ExhibitionImage>)
    ensures r.None? <==> forall j :: 0 <= j < |rows| ==> !(rows[j].exhibitionId == exhibitionId && rows[j].imageType == Poster)
    ensures r.Some? ==> r.value in rows && r.value.exhibitionId == exhibitionId && r.value.imageType == Poster &&
                        forall j :: 0 <= j < |rows| && rows[j].exhibitionId == exhibitionId && rows[j].imageType == Poster ==>
                                      r.value.displayOrder <= rows[j].displayOrder
  {
    var posters := Filter(rows, (r: ExhibitionImage) => r.exhibitionId == exhibitionId && r.imageType == Poster);
    var least := ArgMax(posters, (r: ExhibitionImage) => -r.displayOrder);
    assert forall j :: 0 <= j < |rows| && rows[j].exhibitionId == exhibitionId && rows[j].imageType == Poster ==>
             exists k :: 0 <= k < |posters| && posters[k] == rows[j];
    least
  }

  // ---------------------------------------------------------------------------
  // Reordering
  // ---------------------------------------------------------------------------

  /** `reorderImages`: the i-th id gets the i-th order, one update after another;
      an id without an order gets an update with no column. */
  function Reordered(rows: seq<ExhibitionImage>, ids: seq<nat>, orders: seq<int>): (r: seq<ExhibitionImage>)
    ensures |r| == |rows|
    decreases |ids|
  {
    if ids == [] then rows
    else
      var k := |ids| - 1;
      var prev := Reordered(rows, ids[..k], orders);
      if k < |orders| then PatchWhere(prev, ids[k], OrderUpdate(orders[k])) else prev
  }

  predicate DistinctIds(ids: seq<nat>) {
    forall i, j :: 0 <= i < j < |ids| ==> ids[i] != ids[j]
  }

  /** With distinct ids and an order for each, the row with `ids[k]` gets
      `orders[k]` and nothing else changes. */
  lemma {:induction false} ReorderedSpec(rows: seq<ExhibitionImage>, ids: seq<nat>, orders: seq<int>)
    requires DistinctIds(ids) && |ids| <= |orders|
    ensures var r := Reordered(rows, ids, orders);
            forall j :: 0 <= j < |rows| ==>
              (rows[j].id !in ids ==> r[j] == rows[j]) &&
              (forall k :: 0 <= k < |ids| && ids[k] == rows[j].id ==> r[j] == rows[j].(displayOrder := orders[k]))
    decreases |ids|
  {
    if ids != [] {
      var k := |ids| - 1;
      var init := ids[..k];
      assert DistinctIds(init);
      ReorderedSpec(rows, init, orders);
      forall j | 0 <= j < |rows| && rows[j].id != ids[k] && rows[j].id in init
        ensures rows[j].id in ids
      {
        var m :| 0 <= m < |init| && init[m] == rows[j].id;
        assert ids[m] == rows[j].id;
      }
    }
  }

  /** Reordering changes display orders only. */
  lemma {:induction false} ReorderedKeepsRest(rows: seq<ExhibitionImage>, ids: seq<nat>, orders: seq<int>)
    ensures var r := Reordered(rows, ids, orders);
            forall j :: 0 <= j < |rows| ==> r[j] == rows[j].(displayOrder := r[j].displayOrder)
    decreases |ids|
  {
    if ids != [] {
      ReorderedKeepsRest(rows, ids[..|ids| - 1], orders);
    }
  }

  /** Some id among the first `n` of `ids` has no row. */
  predicate SomeMissing(rows: seq<ExhibitionImage>, ids: seq<nat>, n: nat)
    requires n <= |ids|
  {
    exists k :: 0 <= k < n && !HasImage(rows, ids[k])
  }

  /** One more update of a reordering: it finds its row exactly when the original
      rows have that id, and it extends the fold by one id. */
  lemma ReorderStep(rows: seq<ExhibitionImage>, ids: seq<nat>, orders: seq<int>, i: nat)
    requires i < |ids|
    ensures HasImage(Reordered(rows, ids[..i], orders), ids[i]) <==> HasImage(rows, ids[i])
    ensures Reordered(rows, ids[..i + 1], orders) ==
            if i < |orders| then PatchWhere(Reordered(rows, ids[..i], orders), ids[i], OrderUpdate(orders[i]))
            else Reordered(rows, ids[..i], orders)
    ensures SomeMissing(rows, ids, i + 1) <==> SomeMissing(rows, ids, i) || !HasImage(rows, ids[i])
  {
    var prefix := ids[..i + 1];
    assert prefix[..i] == ids[..i] && prefix[i] == ids[i];
    ReorderedHasImage(rows, ids[..i], orders, ids[i]);
    if !HasImage(rows, ids[i]) {
      assert 0 <= i < i + 1 && !HasImage(rows, ids[i]);
    }
  }

  /** Reordering keeps the ids, so it keeps which ids have a row. */
  lemma ReorderedHasImage(rows: seq<ExhibitionImage>, ids: seq<nat>, orders: seq<int>, id: nat)
    ensures HasImage(Reordered(rows, ids, orders), id) <==> HasImage(rows, id)
  {
    ReorderedKeepsRest(rows, ids, orders);
    var r := Reordered(rows, ids, orders);
    if HasImage(rows, id) {
      var m :| 0 <= m < |rows| && rows[m].id == id;
      assert r[m].id == id;
    }
    if HasImage(r, id) {
      var m :| 0 <= m < |r| && r[m].id == id;
      assert rows[m].id == id;
    }
  }

  /** An update with no column leaves every row as it was. */
  lemma PatchNoChange(rows: seq<ExhibitionImage>, id: nat)
    ensures PatchWhere(rows, id, NoChange) == rows
  {
    var r := PatchWhere(rows, id, NoChange);
    forall j | 0 <= j < |rows| ensures r[j] == rows[j] {
      assert Patch(rows[j], NoChange) == rows[j];
    }
  }

  // ---------------------------------------------------------------------------
  // Copying
  // ---------------------------------------------------------------------------

  /** The source selection of `copyImages`: the images of the source exhibition, and
      only those of the listed types when the list is non-empty. */
  function CopySource(rows: seq<ExhibitionImage>, fromId: nat, imageTypes: seq<string>): (r: seq<ExhibitionImage>)
    ensures forall i :: 0 <= i < |r| ==> r[i] in rows && r[i].exhibitionId == fromId &&
                                         (|imageTypes| > 0 ==> TypeName(r[i].imageType) in imageTypes)
    ensures forall i | 0 <= i < |rows| && rows[i].exhibitionId == fromId &&
                       (|imageTypes| == 0 || TypeName(rows[i].imageType) in imageTypes) :: rows[i] in r
  {
    Filter(rows, (r: ExhibitionImage) => r.exhibitionId == fromId &&
                                         (|imageTypes| == 0 || TypeName(r.imageType) in imageTypes))
  }

  /** The mapping of `copyImages`: new rows for the target with the same URL, alt
      text, order and type. */
  function CopyRecords(source: seq<ExhibitionImage>, toId: nat): (r: seq<NewImage>)
    ensures |r| == |source|
    ensures forall i :: 0 <= i < |source| ==>
              r[i] == NewImage(toId, source[i].imageUrl, source[i].altText, source[i].displayOrder, source[i].imageType)
  {
    seq(|source|, i requires 0 <= i < |source| =>
      NewImage(toId, source[i].imageUrl, source[i].altText, source[i].displayOrder, source[i].imageType))
  }

  // ---------------------------------------------------------------------------
  // Batch uploads
  // ---------------------------------------------------------------------------

  /** One entry of `uploadImages`. */
  datatype ImageUpload = ImageUpload(fileName: string, imageType: ImageType, altText: Option<string>,
                                     displayOrder: Option<int>)

  /** `${exhibitionId}_${imageType}_${Date.now()}_${index}.${fileExt}`, with the
      extension as written in the file name. */
  function UploadKey(exhibitionId: nat, t: ImageType, now: nat, index: nat, fileName: string): string {
    NatToString(exhibitionId) + "_" + TypeName(t) + "_" + NatToString(now) + "_" + NatToString(index) +
    "." + LastPiece(fileName, '.')
  }

  /** `upload.altText || `${label} ${index + 1}``: an empty alt text also falls back. */
  function UploadAlt(u: ImageUpload, index: nat): (alt: string)
    ensures u.altText.Some? && u.altText.value != "" ==> alt == u.altText.value
    ensures !(u.altText.Some? && u.altText.value != "") ==> alt == Label(u.imageType) + " " + NatToString(index + 1)
  {
    if u.altText.Some? && u.altText.value != "" then u.altText.value
    else Label(u.imageType) + " " + NatToString(index + 1)
  }

  /** `upload.displayOrder ?? index`: only a missing order falls back, 0 is kept. */
  function UploadOrder(u: ImageUpload, index: nat): (order: int)
    ensures u.displayOrder.Some? ==> order == u.displayOrder.value
    ensures u.displayOrder.None? ==> order == index
  {
    if u.displayOrder.Some? then u.displayOrder.value else index
  }

  /** The fourth `_`-piece of `a_b_c_d`, for pieces `a`, `b`, `c` without `_`. */
  lemma FourthPiece(a: string, b: string, c: string, d: string)
    requires '_' !in a && '_' !in b && '_' !in c
    ensures |Split(a + "_" + b + "_" + c + "_" + d, '_')| > 3
    ensures Split(a + "_" + b + "_" + c + "_" + d, '_')[3] == Split(d, '_')[0]
  {
    var cd := c + ['_'] + d;
    var bcd := b + ['_'] + cd;
    assert a + "_" + b + "_" + c + "_" + d == a + ['_'] + bcd;
    SplitCons(c, '_', d);
    SplitCons(b, '_', cd);
    SplitCons(a, '_', bcd);
  }

  /** The index is readable from an upload key: it is the text before the first dot
      of its fourth `_`-separated piece. */
  lemma UploadKeyIndex(exhibitionId: nat, t: ImageType, now: nat, index: nat, fileName: string)
    ensures var key := UploadKey(exhibitionId, t, now, index, fileName);
            |Split(key, '_')| > 3 && Split(Split(key, '_')[3], '.')[0] == NatToString(index)
  {
    NoUnderscoreInDigits(exhibitionId);
    NoUnderscoreInDigits(now);
    assert '_' !in TypeName(t);
    var d := NatToString(index) + "." + LastPiece(fileName, '.');
    assert UploadKey(exhibitionId, t, now, index, fileName) ==
           NatToString(exhibitionId) + "_" + TypeName(t) + "_" + NatToString(now) + "_" + d;
    FourthPiece(NatToString(exhibitionId), TypeName(t), NatToString(now), d);
    IndexPiece(index, LastPiece(fileName, '.'));
  }

  /** Within one batch, different positions never share a key, whatever the
      clock reads and whatever the types and file names are. */
  lemma UploadKeysDistinct(exhibitionId: nat, t1: ImageType, t2: ImageType, now1: nat, now2: nat,
                           i: nat, j: nat, name1: string, name2: string)
    requires i != j
    ensures UploadKey(exhibitionId, t1, now1, i, name1) != UploadKey(exhibitionId, t2, now2, j, name2)
  {
    UploadKeyIndex(exhibitionId, t1, now1, i, name1);
    UploadKeyIndex(exhibitionId, t2, now2, j, name2);
    if UploadKey(exhibitionId, t1, now1, i, name1) == UploadKey(exhibitionId, t2, now2, j, name2) {
      NatToStringInjective(i, j);
    }
  }

  /** The paths held in one bucket. */
  function KeysIn(objects: set<StorageKey>, bucket: string): set<string> {
    set k | k in objects && k.bucket == bucket :: k.path
  }

  // ---------------------------------------------------------------------------
  // The service
  // ---------------------------------------------------------------------------

  /** The counters of `getImageStats` after the first `i` types: one per type name
      seen so far, each counting that type's images. */
  ghost predicate CountedUpTo(m: map<string, nat>, images: seq<ExhibitionImage>, i: nat)
    requires i <= |AllImageTypes|
  {
    m.Keys == (set t | t in AllImageTypes[..i] :: TypeName(t)) &&
    forall t :: t in AllImageTypes[..i] ==> m[TypeName(t)] == |OfType(images, t)|
  }

  /** One turn of the counting loop. */
  lemma CountStep(m: map<string, nat>, images: seq<ExhibitionImage>, i: nat)
    requires i < |AllImageTypes| && CountedUpTo(m, images, i)
    ensures CountedUpTo(m[TypeName(AllImageTypes[i]) := |OfType(images, AllImageTypes[i])|], images, i + 1)
  {
    var t := AllImageTypes[i];
    var m' := m[TypeName(t) := |OfType(images, t)|];
    assert AllImageTypes[..i + 1] == AllImageTypes[..i] + [t];
    forall u | u in AllImageTypes[..i + 1] ensures m'[TypeName(u)] == |OfType(images, u)| {
      ImageTypesClosed(u);
      ImageTypesClosed(t);
    }
  }

  /** Storage has only lost objects, and only objects of the images bucket. */
  ghost predicate OnlyImagesLost(before: set<StorageKey>, after: set<StorageKey>) {
    after <= before && forall k :: k in before && k.bucket != ImagesBucket ==> k in after
  }

  lemma OnlyImagesLostTrans(a: set<StorageKey>, b: set<StorageKey>, c: set<StorageKey>)
    requires OnlyImagesLost(a, b) && OnlyImagesLost(b, c)
    ensures OnlyImagesLost(a, c)
  {
  }

  /** The keys a removal of one path names. */
  lemma OneKeySet(path: string)
    ensures (set p | p in [path] :: StorageKey(ImagesBucket, p)) == {StorageKey(ImagesBucket, path)}
  {
  }

  /** A public URL of the images bucket names one stored path, the one it was
      made from. */
  lemma ImagesPathRecovered(projectUrl: string, url: string)
    ensures forall path | url == projectUrl + PublicPath(ImagesBucket, path) ::
              Upload.StoredPath(projectUrl, url, ImagesBucket) == Some(path)
  {
    forall path | url == projectUrl + PublicPath(ImagesBucket, path)
      ensures Upload.StoredPath(projectUrl, url, ImagesBucket) == Some(path)
    {
      Upload.StoredPathRecovers(projectUrl, ImagesBucket, path);
    }
  }

  class ExhibitionImageService {
    var rows: seq<ExhibitionImage>
    var nextId: nat

    ghost predicate Valid()
      reads this
    {
      UniqueImageIds(rows) && forall i :: 0 <= i < |rows| ==> rows[i].id < nextId
    }

    constructor()
      ensures Valid() && rows == []
    {
      rows := [];
      nextId := 0;
    }

    /** `getByExhibitionId` without its ordering and paging: the exhibition's
        images, optionally of one type. */
    function ImagesOf(exhibitionId: nat, imageType: Option<ImageType>): (r: seq<ExhibitionImage>)
      reads this
      ensures forall i :: 0 <= i < |r| ==> r[i] in rows && r[i].exhibitionId == exhibitionId &&
                                           (imageType.Some? ==> r[i].imageType == imageType.value)
      ensures forall i | 0 <= i < |rows| && rows[i].exhibitionId == exhibitionId &&
                         (imageType.None? || rows[i].imageType == imageType.value) :: rows[i] in r
    {
      Filter(rows, Selects(exhibitionId, imageType))
    }

    /** `getByExhibitionId` with `sort_by: 'image_type'`: the exhibition's images,
        each of them once, ordered by type and then by display order. */
    function ImagesByType(exhibitionId: nat): (r: seq<ExhibitionImage>)
      reads this
      ensures multiset(r) == multiset(ImagesOf(exhibitionId, None))
      ensures Sorted(r, TypeThenOrder)
    {
      TypeThenOrderIsTotalPreorder();
      SortBySorted(ImagesOf(exhibitionId, None), TypeThenOrder);
      SortBy(ImagesOf(exhibitionId, None), TypeThenOrder)
    }

    /** `getGroupedByType`: the images of `sort_by: 'image_type'`, split by type;
        each type's list holds exactly the exhibition's images of that type, in
        display order. */
    method GetGroupedByType(exhibitionId: nat) returns (g: Grouped)
      ensures g.all == ImagesByType(exhibitionId) && g.count.total == |g.all|
      ensures forall t :: g.Of(t) == OfType(g.all, t) && g.CountOf(t) == |g.Of(t)|
      ensures forall t :: multiset(g.Of(t)) == multiset(OfType(ImagesOf(exhibitionId, None), t))
      ensures forall t :: Sorted(g.Of(t), OrderLe)
    {
      var images := ImagesByType(exhibitionId);
      g := GroupImages(images);
      forall t ensures multiset(g.Of(t)) == multiset(OfType(ImagesOf(exhibitionId, None), t)) &&
                       Sorted(g.Of(t), OrderLe) {
        FilterPermutation(images, ImagesOf(exhibitionId, None), HasType(t));
        OfTypeInDisplayOrder(images, t);
      }
    }

    /** `create`: one row with a fresh id. */
    method Create(data: NewImage, now: int) returns (row: ExhibitionImage)
      requires Valid()
      modifies this
      ensures Valid()
      ensures row == Materialize(data, old(nextId), now)
      ensures rows == old(rows) + [row] && nextId == old(nextId) + 1
    {
      row := Materialize(data, nextId, now);
      rows := rows + [row];
      nextId := nextId + 1;
    }

    /** `update(id, updates)` with `.single()`: fails, changing nothing, when no row
        has the id. */
    method Update(id: nat, u: ImageUpdate) returns (r: Result<ExhibitionImage>)
      requires Valid()
      modifies this
      ensures Valid() && nextId == old(nextId)
      ensures rows == PatchWhere(old(rows), id, u)
      ensures r.Err? <==> !HasImage(old(rows), id)
      ensures r.Err? ==> r.error == NoRow
      ensures r.Ok? ==> r.value.id == id && r.value in rows && r.value == Patch(FindImage(old(rows), id).value, u)
    {
      var found := FindImage(rows, id);
      rows := PatchWhere(rows, id, u);
      if found.None? {
        r := Err(NoRow);
      } else {
        r := Ok(Patch(found.value, u));
        ghost var k :| 0 <= k < |old(rows)| && old(rows)[k] == found.value;
        assert rows[k] == r.value;
      }
    }

    /** `delete(id)`. */
    method Delete(id: nat)
      requires Valid()
      modifies this
      ensures Valid() && nextId == old(nextId)
      ensures rows == Filter(old(rows), NotId(id))
    {
      FilterKeepsUnique(rows, NotId(id));
      rows := Filter(rows, NotId(id));
    }

    /** `setPosterImage`: demote the exhibition's posters, then promote the target
        by id. The demotion is not undone when the target is missing. */
    method SetPosterImage(exhibitionId: nat, imageId: nat) returns (r: Result<ExhibitionImage>)
      requires Valid()
      modifies this
      ensures Valid() && nextId == old(nextId)
      ensures rows == Promoted(Demoted(old(rows), exhibitionId), imageId)
      ensures r.Err? <==> !HasImage(old(rows), imageId)
      ensures r.Ok? ==> r.value in rows && r.value.id == imageId && r.value.imageType == Poster &&
                        r.value.displayOrder == 0
    {
      rows := Demoted(rows, exhibitionId);
      assert HasImage(rows, imageId) <==> HasImage(old(rows), imageId);
      r := Update(imageId, ImageUpdate(None, Some(0), Some(Poster)));
    }

    /** `getPosterImage`. */
    function GetPosterImage(exhibitionId: nat): Option<ExhibitionImage>
      reads this
    {
      PosterImage(rows, exhibitionId)
    }

    /** `reorderImages`: every update runs; the batch fails when any id is missing. */
    method ReorderImages(ids: seq<nat>, orders: seq<int>) returns (r: Result<()>)
      requires Valid()
      modifies this
      ensures Valid() && nextId == old(nextId)
      ensures rows == Reordered(old(rows), ids, orders)
      ensures r.Err? <==> SomeMissing(old(rows), ids, |ids|)
    {
      var failed := false;
      ghost var rows0 := rows;
      assert ids[..0] == [];
      for i := 0 to |ids|
        invariant Valid() && nextId == old(nextId)
        invariant rows == Reordered(rows0, ids[..i], orders)
        invariant failed <==> SomeMissing(rows0, ids, i)
      {
        ghost var before := rows;
        ReorderStep(rows0, ids, orders, i);
        var u := if i < |orders| then OrderUpdate(orders[i]) else NoChange;
        var one := Update(ids[i], u);
        if i >= |orders| {
          PatchNoChange(before, ids[i]);
        }
        if one.Err? {
          failed := true;
        }
      }
      assert ids[..|ids|] == ids;
      r := if failed then Err(NoRow) else Ok(());
    }

    /** `getImageStats` without the wall-clock count: the total and one counter per
        type name. */
    method GetImageStats(exhibitionId: nat) returns (totalImages: nat, imagesByType: map<string, nat>)
      ensures totalImages == |ImagesOf(exhibitionId, None)|
      ensures imagesByType.Keys == set t | t in AllImageTypes :: TypeName(t)
      ensures forall t :: imagesByType[TypeName(t)] == |OfType(ImagesOf(exhibitionId, None), t)|
    {
      var images := ImagesOf(exhibitionId, None);
      imagesByType := map[];
      for i := 0 to |AllImageTypes|
        invariant CountedUpTo(imagesByType, images, i)
      {
        var t := AllImageTypes[i];
        CountStep(imagesByType, images, i);
        imagesByType := imagesByType[TypeName(t) := |Filter(images, HasType(t))|];
      }
      assert AllImageTypes[..|AllImageTypes|] == AllImageTypes;
      totalImages := |images|;
      forall t ensures t in AllImageTypes {
        ImageTypesClosed(t);
      }
    }

    /** `deleteImageWithStorage`: the storage key is the URL's last segment; a
        storage failure is only reported, and the row is deleted anyway. */
    method DeleteImageWithStorage(st: Storage, imageId: nat, removeFault: Option<string>) returns (r: Result<()>)
      requires Valid()
      modifies this, st
      ensures Valid() && nextId == old(nextId)
      ensures !HasImage(old(rows), imageId) ==>
                r == Err(NoRow) && rows == old(rows) && st.objects == old(st.objects)
      ensures HasImage(old(rows), imageId) ==>
                r == Ok(()) && rows == Filter(old(rows), NotId(imageId)) &&
                var key := LastSegment(FindImage(old(rows), imageId).value.imageUrl);
                st.objects == if key != "" && removeFault.None?
                              then old(st.objects) - {StorageKey(ImagesBucket, key)}
                              else old(st.objects)
      ensures st.objects == old(st.objects) - DeletedKey(old(rows), imageId, removeFault)
      ensures OnlyImagesLost(old(st.objects), st.objects)
    {
      var image := FindImage(rows, imageId);
      if image.None? {
        return Err(NoRow);
      }
      var filePath := LastSegment(image.value.imageUrl);
      if filePath != "" {
        var storageError := st.Remove(ImagesBucket, [filePath], removeFault);
        OneKeySet(filePath);
      }
      Delete(imageId);
      r := Ok(());
    }

    /** `deleteImageWithStorage` keyed by the object path the public URL names,
        folders included (`extractFilePathFromUrl`), instead of its last segment:
        the object an upload stored under a path is the one removed. */
    method DeleteImageAtStoredPath(st: Storage, projectUrl: string, imageId: nat, removeFault: Option<string>)
      returns (r: Result<()>)
      requires Valid()
      modifies this, st
      ensures Valid() && nextId == old(nextId)
      ensures !HasImage(old(rows), imageId) ==>
                r == Err(NoRow) && rows == old(rows) && st.objects == old(st.objects)
      ensures HasImage(old(rows), imageId) ==>
                r == Ok(()) && rows == Filter(old(rows), NotId(imageId)) &&
                var key := Upload.StoredPath(projectUrl, FindImage(old(rows), imageId).value.imageUrl, ImagesBucket);
                st.objects == if key.Some? && removeFault.None?
                              then old(st.objects) - {StorageKey(ImagesBucket, key.value)}
                              else old(st.objects)
      ensures HasImage(old(rows), imageId) && removeFault.None? ==>
                forall path | FindImage(old(rows), imageId).value.imageUrl == projectUrl + PublicPath(ImagesBucket, path) ::
                  StorageKey(ImagesBucket, path) !in st.objects
    {
      var image := FindImage(rows, imageId);
      if image.None? {
        return Err(NoRow);
      }
      var key := Upload.StoredPath(projectUrl, image.value.imageUrl, ImagesBucket);
      if key.Some? {
        var storageError := st.Remove(ImagesBucket, [key.value], removeFault);
        OneKeySet(key.value);
      }
      ImagesPathRecovered(projectUrl, image.value.imageUrl);
      Delete(imageId);
      r := Ok(());
    }

    /** `bulkDelete`: every id is attempted; the removals reach exactly the rows
        with a listed id, and storage only ever loses objects of the bucket. */
    method BulkDelete(st: Storage, ids: seq<nat>, removeFaults: nat -> Option<string>) returns (r: Result<()>)
      requires Valid()
      modifies this, st
      ensures Valid() && nextId == old(nextId)
      ensures rows == Filter(old(rows), NotAmong(ids))
      ensures st.objects <= old(st.objects)
      ensures forall k :: k in old(st.objects) && k.bucket != ImagesBucket ==> k in st.objects
      ensures st.objects == old(st.objects) - BulkRemovedKeys(old(rows), ids, removeFaults, |ids|)
      ensures r.Err? <==> SomeDeleteFails(old(rows), ids, |ids|)
    {
      var failed := false;
      ghost var rows0 := rows;
      ghost var objects0 := st.objects;
      assert ids[..0] == [];
      FilterAll(rows, NotAmong([]));
      for i := 0 to |ids|
        invariant Valid() && nextId == old(nextId)
        invariant rows == Filter(rows0, NotAmong(ids[..i]))
        invariant OnlyImagesLost(objects0, st.objects)
        invariant st.objects == objects0 - BulkRemovedKeys(rows0, ids, removeFaults, i)
        invariant failed <==> SomeDeleteFails(rows0, ids, i)
      {
        failed := BulkDeleteOne(st, rows0, objects0, ids, i, removeFaults, failed);
      }
      assert ids[..|ids|] == ids;
      r := if failed then Err(NoRow) else Ok(());
    }

    /** One turn of `bulkDelete`: the `i`-th id is deleted, and the failure flag
        records whether any deletion so far found no row. */
    method BulkDeleteOne(st: Storage, ghost rows0: seq<ExhibitionImage>, ghost objects0: set<StorageKey>,
                         ids: seq<nat>, i: nat, removeFaults: nat -> Option<string>, failed: bool)
      returns (failedAfter: bool)
      requires Valid() && i < |ids| && rows == Filter(rows0, NotAmong(ids[..i])) && UniqueImageIds(rows0)
      requires OnlyImagesLost(objects0, st.objects) && (failed <==> SomeDeleteFails(rows0, ids, i))
      requires st.objects == objects0 - BulkRemovedKeys(rows0, ids, removeFaults, i)
      modifies this, st
      ensures Valid() && nextId == old(nextId) && rows == Filter(rows0, NotAmong(ids[..i + 1]))
      ensures OnlyImagesLost(objects0, st.objects) && (failedAfter <==> SomeDeleteFails(rows0, ids, i + 1))
      ensures st.objects == objects0 - BulkRemovedKeys(rows0, ids, removeFaults, i + 1)
    {
      ghost var before := rows;
      ghost var objectsBefore := st.objects;
      BulkStep(rows0, ids, i);
      BulkRemovedStep(rows0, ids, removeFaults, i, objects0, objectsBefore);
      var one := DeleteImageWithStorage(st, ids[i], removeFaults(i));
      failedAfter := failed;
      if one.Err? {
        failedAfter := true;
        FilterAll(before, NotId(ids[i]));
      }
      assert rows == Filter(before, NotId(ids[i]));
      OnlyImagesLostTrans(objects0, objectsBefore, st.objects);
    }

    /** `copyImages`: nothing is inserted for an empty source. */
    method CopyImages(fromId: nat, toId: nat, imageTypes: seq<string>, now: int) returns (copied: seq<ExhibitionImage>)
      requires Valid()
      modifies this
      ensures Valid()
      ensures var source := CopySource(old(rows), fromId, imageTypes);
              copied == MaterializeAll(CopyRecords(source, toId), old(nextId), now) &&
              rows == old(rows) + copied && nextId == old(nextId) + |copied|
    {
      var source := CopySource(rows, fromId, imageTypes);
      if |source| == 0 {
        return [];
      }
      copied := MaterializeAll(CopyRecords(source, toId), nextId, now);
      AppendMaterialized(rows, nextId, CopyRecords(source, toId), now);
      rows := rows + copied;
      nextId := nextId + |copied|;
    }

    /** `uploadImages`: every entry is uploaded to the bucket root under its key
        and, when the upload succeeds, recorded with the default alt text and
        order; a failed entry records nothing and fails the batch. */
    method UploadImages(st: Storage, exhibitionId: nat, uploads: seq<ImageUpload>, ticks: nat -> Tick)
      returns (results: seq<Result<ExhibitionImage>>, r: Result<seq<ExhibitionImage>>)
      requires Valid()
      modifies this, st
      ensures Valid()
      ensures Batch(results, st.objects, rows, nextId) ==
              UploadBatch(st.projectUrl, old(st.objects), old(rows), old(nextId), exhibitionId, uploads, ticks)
      ensures r == FirstFailure(results)
    {
      results := [];
      ghost var objects0 := st.objects;
      ghost var rows0 := rows;
      ghost var next0 := nextId;
      for i := 0 to |uploads|
        invariant Valid()
        invariant Batch(results, st.objects, rows, nextId) ==
                  UploadBatch(st.projectUrl, objects0, rows0, next0, exhibitionId, uploads[..i], ticks)
      {
        results := UploadOne(st, exhibitionId, uploads, ticks, i, objects0, rows0, next0, results);
      }
      assert uploads[..|uploads|] == uploads;
      r := FirstFailure(results);
    }

    /** One turn of `uploadImages`: entry `i` is uploaded and, on success, recorded. */
    method UploadOne(st: Storage, exhibitionId: nat, uploads: seq<ImageUpload>, ticks: nat -> Tick, i: nat,
                     ghost objects0: set<StorageKey>, ghost rows0: seq<ExhibitionImage>, ghost next0: nat,
                     results: seq<Result<ExhibitionImage>>)
      returns (resultsAfter: seq<Result<ExhibitionImage>>)
      requires Valid() && i < |uploads|
      requires Batch(results, st.objects, rows, nextId) ==
               UploadBatch(st.projectUrl, objects0, rows0, next0, exhibitionId, uploads[..i], ticks)
      modifies this, st
      ensures Valid()
      ensures Batch(resultsAfter, st.objects, rows, nextId) ==
              UploadBatch(st.projectUrl, objects0, rows0, next0, exhibitionId, uploads[..i + 1], ticks)
    {
      UploadBatchStep(st.projectUrl, objects0, rows0, next0, exhibitionId, uploads, ticks, i);
      var u := uploads[i];
      var tick := ticks(i);
      var filePath := UploadKey(exhibitionId, u.imageType, tick.now, i, u.fileName);
      var uploadError := st.Upload(ImagesBucket, filePath, tick.fault);
      if uploadError.Some? {
        resultsAfter := results + [Err(uploadError.value)];
      } else {
        var publicUrl := st.PublicUrl(ImagesBucket, filePath);
        var row := Create(NewImage(exhibitionId, publicUrl, Some(UploadAlt(u, i)), UploadOrder(u, i), u.imageType),
                          tick.now);
        assert row == UploadRow(st.projectUrl, exhibitionId, u, i, tick.now, old(nextId));
        resultsAfter := results + [Ok(row)];
      }
    }
  }

  // ---------------------------------------------------------------------------
  // Batch uploads, as a fold over the store and the table
  // ---------------------------------------------------------------------------

  /** What a batch upload leaves behind: one result per entry, the store, the
      table and the next id. */
  datatype Batch = Batch(results: seq<Result<ExhibitionImage>>, objects: set<StorageKey>,
                         rows: seq<ExhibitionImage>, nextId: nat)

  /** The storage key of entry `i`. */
  function KeyAt(exhibitionId: nat, uploads: seq<ImageUpload>, ticks: nat -> Tick, i: nat): StorageKey
    requires i < |uploads|
  {
    StorageKey(ImagesBucket, UploadKey(exhibitionId, uploads[i].imageType, ticks(i).now, i, uploads[i].fileName))
  }

  /** The row entry `i` inserts under id `id`. */
  function UploadRow(projectUrl: string, exhibitionId: nat, u: ImageUpload, i: nat, now: nat, id: nat): ExhibitionImage {
    var key := UploadKey(exhibitionId, u.imageType, now, i, u.fileName);
    Materialize(NewImage(exhibitionId, projectUrl + PublicPath(ImagesBucket, key), Some(UploadAlt(u, i)),
                         UploadOrder(u, i), u.imageType), id, now)
  }

  /** The entries one after the other: a storage failure or a taken key gives an
      error and changes nothing; otherwise the object is stored and the row added. */
  function UploadBatch(projectUrl: string, objects: set<StorageKey>, rows: seq<ExhibitionImage>, nextId: nat,
                       exhibitionId: nat, uploads: seq<ImageUpload>, ticks: nat -> Tick): (b: Batch)
    ensures |b.results| == |uploads|
    ensures objects <= b.objects
    ensures b.rows == rows + Successes(b.results)
    ensures b.nextId == nextId + |Successes(b.results)|
  {
    if uploads == [] then Batch([], objects, rows, nextId)
    else
      var i := |uploads| - 1;
      UploadEntry(projectUrl, exhibitionId, uploads, ticks, i,
                  UploadBatch(projectUrl, objects, rows, nextId, exhibitionId, uploads[..i], ticks))
  }

  /** Entry `i` uploaded after the entries before it: its storage fault, or an
      existing key, fails it; otherwise its object is stored and its row added. */
  function UploadEntry(projectUrl: string, exhibitionId: nat, uploads: seq<ImageUpload>, ticks: nat -> Tick, i: nat,
                       prev: Batch): (b: Batch)
    requires i < |uploads|
    ensures |b.results| == |prev.results| + 1 && b.results[..|prev.results|] == prev.results
    ensures prev.objects <= b.objects
    ensures |prev.rows| <= |b.rows| <= |prev.rows| + 1 && b.rows[..|prev.rows|] == prev.rows
    ensures Successes(b.results) == Successes(prev.results) + b.rows[|prev.rows|..]
    ensures b.nextId == prev.nextId + (|b.rows| - |prev.rows|)
  {
    var key := KeyAt(exhibitionId, uploads, ticks, i);
    var tick := ticks(i);
    var result: Result<ExhibitionImage> :=
      if tick.fault.Some? then Err(tick.fault.value)
      else if key in prev.objects then Err(AlreadyExists)
      else Ok(UploadRow(projectUrl, exhibitionId, uploads[i], i, tick.now, prev.nextId));
    var results := prev.results + [result];
    assert results[..|prev.results|] == prev.results && Last(results) == result;
    if result.Err? then prev.(results := results)
    else
      var b := Batch(results, prev.objects + {key}, prev.rows + [result.value], prev.nextId + 1);
      assert b.rows[|prev.rows|..] == [result.value];
      b
  }

  /** Entry `i` added to the outcome of the entries before it. */
  lemma UploadBatchStep(projectUrl: string, objects: set<StorageKey>, rows: seq<ExhibitionImage>, nextId: nat,
                        exhibitionId: nat, uploads: seq<ImageUpload>, ticks: nat -> Tick, i: nat)
    requires i < |uploads|
    ensures var prev := UploadBatch(projectUrl, objects, rows, nextId, exhibitionId, uploads[..i], ticks);
            var b := UploadBatch(projectUrl, objects, rows, nextId, exhibitionId, uploads[..i + 1], ticks);
            var key := KeyAt(exhibitionId, uploads, ticks, i);
            && (ticks(i).fault.Some? ==> b == prev.(results := prev.results + [Err(ticks(i).fault.value)]))
            && (ticks(i).fault.None? && key in prev.objects ==> b == prev.(results := prev.results + [Err(AlreadyExists)]))
            && (ticks(i).fault.None? && key !in prev.objects ==>
                  var row := UploadRow(projectUrl, exhibitionId, uploads[i], i, ticks(i).now, prev.nextId);
                  b == Batch(prev.results + [Ok(row)], prev.objects + {key}, prev.rows + [row], prev.nextId + 1))
  {
    var part := uploads[..i + 1];
    assert part[..i] == uploads[..i];
    assert KeyAt(exhibitionId, part, ticks, i) == KeyAt(exhibitionId, uploads, ticks, i);
  }

  /** A key no entry uses is in the final store exactly when it was there before. */
  lemma {:induction false} UploadBatchOtherKeys(projectUrl: string, objects: set<StorageKey>,
                                                rows: seq<ExhibitionImage>, nextId: nat, exhibitionId: nat,
                                                uploads: seq<ImageUpload>, ticks: nat -> Tick, k: StorageKey)
    requires forall j :: 0 <= j < |uploads| ==> KeyAt(exhibitionId, uploads, ticks, j) != k
    ensures k in UploadBatch(projectUrl, objects, rows, nextId, exhibitionId, uploads, ticks).objects <==> k in objects
    decreases |uploads|
  {
    if uploads != [] {
      var i := |uploads| - 1;
      var init := uploads[..i];
      forall j | 0 <= j < |init| ensures KeyAt(exhibitionId, init, ticks, j) != k {
        assert KeyAt(exhibitionId, init, ticks, j) == KeyAt(exhibitionId, uploads, ticks, j);
      }
      UploadBatchOtherKeys(projectUrl, objects, rows, nextId, exhibitionId, init, ticks, k);
    }
  }

  /** The result of entry `i` in a batch outcome `b`: a storage failure gives its
      message, a key the store held before the batch gives `AlreadyExists`, and
      otherwise the entry's object is stored and its row (with the default alt
      text and order) recorded. */
  ghost predicate EntryResult(projectUrl: string, objects: set<StorageKey>, b: Batch, exhibitionId: nat,
                              uploads: seq<ImageUpload>, ticks: nat -> Tick, i: nat)
    requires i < |uploads| && |b.results| == |uploads|
  {
    var key := KeyAt(exhibitionId, uploads, ticks, i);
    && (ticks(i).fault.Some? ==> b.results[i] == Err(ticks(i).fault.value))
    && (ticks(i).fault.None? && key in objects ==> b.results[i] == Err(AlreadyExists))
    && (ticks(i).fault.None? && key !in objects ==>
          b.results[i].Ok? && key in b.objects &&
          b.results[i].value == UploadRow(projectUrl, exhibitionId, uploads[i], i, ticks(i).now, b.results[i].value.id))
  }

  /** The result of entry `i` depends on its own tick and the store before the
      batch only, because no two entries share a key. */
  lemma {:induction false} UploadBatchResult(projectUrl: string, objects: set<StorageKey>,
                                             rows: seq<ExhibitionImage>, nextId: nat, exhibitionId: nat,
                                             uploads: seq<ImageUpload>, ticks: nat -> Tick, i: nat)
    requires i < |uploads|
    ensures EntryResult(projectUrl, objects, UploadBatch(projectUrl, objects, rows, nextId, exhibitionId, uploads, ticks),
                        exhibitionId, uploads, ticks, i)
    decreases |uploads|
  {
    var n := |uploads| - 1;
    if i < n {
      var init := uploads[..n];
      UploadBatchResult(projectUrl, objects, rows, nextId, exhibitionId, init, ticks, i);
      UploadBatchEarlier(projectUrl, objects, rows, nextId, exhibitionId, uploads, ticks, i);
    } else {
      UploadBatchLast(projectUrl, objects, rows, nextId, exhibitionId, uploads, ticks);
    }
  }

  /** An earlier entry's result survives the last entry. */
  lemma UploadBatchEarlier(projectUrl: string, objects: set<StorageKey>, rows: seq<ExhibitionImage>, nextId: nat,
                           exhibitionId: nat, uploads: seq<ImageUpload>, ticks: nat -> Tick, i: nat)
    requires i < |uploads| - 1
    requires EntryResult(projectUrl, objects,
                         UploadBatch(projectUrl, objects, rows, nextId, exhibitionId, uploads[..|uploads| - 1], ticks),
                         exhibitionId, uploads[..|uploads| - 1], ticks, i)
    ensures EntryResult(projectUrl, objects, UploadBatch(projectUrl, objects, rows, nextId, exhibitionId, uploads, ticks),
                        exhibitionId, uploads, ticks, i)
  {
    var init := uploads[..|uploads| - 1];
    var b := UploadBatch(projectUrl, objects, rows, nextId, exhibitionId, uploads, ticks);
    var prev := UploadBatch(projectUrl, objects, rows, nextId, exhibitionId, init, ticks);
    assert KeyAt(exhibitionId, init, ticks, i) == KeyAt(exhibitionId, uploads, ticks, i);
    assert init[i] == uploads[i];
    assert b.results[i] == prev.results[i];
    assert prev.objects <= b.objects;
  }

  /** The last entry finds the store as it was before the batch, as far as its
      own key goes. */
  lemma UploadBatchLast(projectUrl: string, objects: set<StorageKey>, rows: seq<ExhibitionImage>, nextId: nat,
                        exhibitionId: nat, uploads: seq<ImageUpload>, ticks: nat -> Tick)
    requires uploads != []
    ensures EntryResult(projectUrl, objects, UploadBatch(projectUrl, objects, rows, nextId, exhibitionId, uploads, ticks),
                        exhibitionId, uploads, ticks, |uploads| - 1)
  {
    var i := |uploads| - 1;
    var init := uploads[..i];
    var key := KeyAt(exhibitionId, uploads, ticks, i);
    forall j | 0 <= j < |init| ensures KeyAt(exhibitionId, init, ticks, j) != key {
      UploadKeysDistinct(exhibitionId, uploads[j].imageType, uploads[i].imageType, ticks(j).now, ticks(i).now,
                         j, i, uploads[j].fileName, uploads[i].fileName);
    }
    UploadBatchOtherKeys(projectUrl, objects, rows, nextId, exhibitionId, init, ticks, key);
  }

  function ImageRowId(image: ExhibitionImage): nat {
    image.id
  }

  /** Filtering keeps ids distinct. */
  lemma FilterKeepsUnique(rows: seq<ExhibitionImage>, p: ExhibitionImage -> bool)
    requires UniqueImageIds(rows)
    ensures UniqueImageIds(Filter(rows, p))
  {
    assert UniqueIds(rows, ImageRowId);
    FilterKeepsUniqueIds(rows, ImageRowId, p);
    var f := Filter(rows, p);
    assert forall i :: 0 <= i < |f| ==> ImageRowId(f[i]) == f[i].id;
  }

  /** Sorting keeps ids distinct. */
  lemma SortKeepsUnique(rows: seq<ExhibitionImage>, le: (ExhibitionImage, ExhibitionImage) -> bool)
    requires UniqueImageIds(rows)
    ensures UniqueImageIds(SortBy(rows, le))
  {
    assert UniqueIds(rows, ImageRowId);
    SortByKeepsUniqueIds(rows, ImageRowId, le);
    var r := SortBy(rows, le);
    assert forall i :: 0 <= i < |r| ==> ImageRowId(r[i]) == r[i].id;
  }

  /** Some deletion among the first `n` of `ids` finds no row: its id was never
      there, or an earlier entry already deleted it. */
  predicate SomeDeleteFails(rows: seq<ExhibitionImage>, ids: seq<nat>, n: nat)
    requires n <= |ids|
  {
    exists k :: 0 <= k < n && (!HasImage(rows, ids[k]) || ids[k] in ids[..k])
  }

  /** One more deletion of a batch: it finds its row exactly when the id was there
      and not listed before, and the remaining rows are those of no listed id. */
  lemma BulkStep(rows: seq<ExhibitionImage>, ids: seq<nat>, i: nat)
    requires i < |ids|
    ensures HasImage(Filter(rows, NotAmong(ids[..i])), ids[i]) <==> HasImage(rows, ids[i]) && ids[i] !in ids[..i]
    ensures Filter(Filter(rows, NotAmong(ids[..i])), NotId(ids[i])) == Filter(rows, NotAmong(ids[..i + 1]))
    ensures SomeDeleteFails(rows, ids, i + 1) <==>
            SomeDeleteFails(rows, ids, i) || !HasImage(rows, ids[i]) || ids[i] in ids[..i]
  {
    HasImageFiltered(rows, ids[..i], ids[i]);
    var prefix := ids[..i + 1];
    assert prefix == ids[..i] + [ids[i]];
    FilterOutMore(rows, ids[..i], ids[i]);
    SomeDeleteFailsStep(rows, ids, i);
  }

  lemma SomeDeleteFailsStep(rows: seq<ExhibitionImage>, ids: seq<nat>, i: nat)
    requires i < |ids|
    ensures SomeDeleteFails(rows, ids, i + 1) <==>
            SomeDeleteFails(rows, ids, i) || !HasImage(rows, ids[i]) || ids[i] in ids[..i]
  {
    if !HasImage(rows, ids[i]) || ids[i] in ids[..i] {
      assert 0 <= i < i + 1 && (!HasImage(rows, ids[i]) || ids[i] in ids[..i]);
    }
  }

  /** A row survives the deletion of `ids` exactly when its id is not listed. */
  lemma HasImageFiltered(rows: seq<ExhibitionImage>, ids: seq<nat>, id: nat)
    ensures HasImage(Filter(rows, NotAmong(ids)), id) <==> HasImage(rows, id) && id !in ids
  {
    var f := Filter(rows, NotAmong(ids));
    if HasImage(f, id) {
      var m :| 0 <= m < |f| && f[m].id == id;
      var k :| 0 <= k < |rows| && rows[k] == f[m];
    }
    if HasImage(rows, id) && id !in ids {
      var m :| 0 <= m < |rows| && rows[m].id == id;
      assert rows[m] in f;
      var k :| 0 <= k < |f| && f[k] == rows[m];
    }
  }

  /** The object one `deleteImageWithStorage` of `id` removes from the table
      `rows`: the URL's last segment, when the row exists, the segment is not
      empty and the removal reports no error. */
  function DeletedKey(rows: seq<ExhibitionImage>, id: nat, fault: Option<string>): set<StorageKey> {
    var image := FindImage(rows, id);
    if image.Some? && LastSegment(image.value.imageUrl) != "" && fault.None?
    then {StorageKey(ImagesBucket, LastSegment(image.value.imageUrl))}
    else {}
  }

  /** The objects the first `n` deletions of `bulkDelete` remove: each listed id
      removes its row's key once, the first time it is listed. */
  function BulkRemovedKeys(rows: seq<ExhibitionImage>, ids: seq<nat>, faults: nat -> Option<string>, n: nat)
    : set<StorageKey>
    requires n <= |ids|
  {
    if n == 0 then {}
    else BulkRemovedKeys(rows, ids, faults, n - 1) +
         (if ids[n - 1] in ids[..n - 1] then {} else DeletedKey(rows, ids[n - 1], faults(n - 1)))
  }

  /** With distinct ids, deleting the rows of earlier ids does not change which
      row a new id finds, and a repeated id finds none. */
  lemma FindAfterFilter(rows: seq<ExhibitionImage>, ids: seq<nat>, i: nat)
    requires UniqueImageIds(rows) && i < |ids|
    ensures ids[i] !in ids[..i] ==> FindImage(Filter(rows, NotAmong(ids[..i])), ids[i]) == FindImage(rows, ids[i])
    ensures ids[i] in ids[..i] ==> FindImage(Filter(rows, NotAmong(ids[..i])), ids[i]).None?
  {
    var f := Filter(rows, NotAmong(ids[..i]));
    var a := FindImage(f, ids[i]);
    var b := FindImage(rows, ids[i]);
    BulkStep(rows, ids, i);
    if a.Some? {
      assert a.value in rows;
      var m :| 0 <= m < |rows| && rows[m] == a.value;
      assert b.Some?;
      var k :| 0 <= k < |rows| && rows[k] == b.value;
    }
  }

  /** The `j`-th deletion of a batch removes `k`: its id is listed for the first
      time there, and `k` is its row's key, removed without error. */
  predicate RemovedAt(rows: seq<ExhibitionImage>, ids: seq<nat>, faults: nat -> Option<string>, j: nat, k: StorageKey)
    requires j < |ids|
  {
    ids[j] !in ids[..j] && k in DeletedKey(rows, ids[j], faults(j))
  }

  /** A key `bulkDelete` removes is the last URL segment of the row of a listed
      id, listed for the first time, whose removal reported no error; every
      such non-empty segment is removed. */
  lemma {:induction false} BulkRemovedKeysExactly(rows: seq<ExhibitionImage>, ids: seq<nat>,
                                                  faults: nat -> Option<string>, n: nat, k: StorageKey)
    requires n <= |ids|
    ensures k in BulkRemovedKeys(rows, ids, faults, n) <==> exists j :: 0 <= j < n && RemovedAt(rows, ids, faults, j, k)
    decreases n
  {
    if k in BulkRemovedKeys(rows, ids, faults, n) {
      var j := RemovedWitness(rows, ids, faults, n, k);
    }
    if exists j :: 0 <= j < n && RemovedAt(rows, ids, faults, j, k) {
      var j :| 0 <= j < n && RemovedAt(rows, ids, faults, j, k);
      RemovedAtIn(rows, ids, faults, n, j, k);
    }
  }

  /** The deletion that removed a key of a bulk delete. */
  lemma {:induction false} RemovedWitness(rows: seq<ExhibitionImage>, ids: seq<nat>, faults: nat -> Option<string>,
                                          n: nat, k: StorageKey) returns (j: nat)
    requires n <= |ids| && k in BulkRemovedKeys(rows, ids, faults, n)
    ensures j < n && RemovedAt(rows, ids, faults, j, k)
    decreases n
  {
    if k in BulkRemovedKeys(rows, ids, faults, n - 1) {
      j := RemovedWitness(rows, ids, faults, n - 1, k);
    } else {
      j := n - 1;
    }
  }

  /** A key some deletion of a bulk delete removes is among its removed keys. */
  lemma {:induction false} RemovedAtIn(rows: seq<ExhibitionImage>, ids: seq<nat>, faults: nat -> Option<string>,
                                       n: nat, j: nat, k: StorageKey)
    requires j < n <= |ids| && RemovedAt(rows, ids, faults, j, k)
    ensures k in BulkRemovedKeys(rows, ids, faults, n)
    decreases n
  {
    if j < n - 1 {
      RemovedAtIn(rows, ids, faults, n - 1, j, k);
    }
  }

  /** A removed key is the non-empty last URL segment of a stored row of a
      listed id whose removal reported no error, in the exhibitions bucket. */
  lemma RemovedAtMeans(rows: seq<ExhibitionImage>, ids: seq<nat>, faults: nat -> Option<string>, j: nat, k: StorageKey)
    requires j < |ids|
    ensures RemovedAt(rows, ids, faults, j, k) <==>
            ids[j] !in ids[..j] && HasImage(rows, ids[j]) && faults(j).None? &&
            var key := LastSegment(FindImage(rows, ids[j]).value.imageUrl);
            key != "" && k == StorageKey(ImagesBucket, key)
  {
  }

  /** One more deletion of a batch removes, from the storage of the earlier
      ones, the key the next id's row names in the remaining table. */
  lemma BulkRemovedStep(rows0: seq<ExhibitionImage>, ids: seq<nat>, faults: nat -> Option<string>, i: nat,
                        objects0: set<StorageKey>, objects: set<StorageKey>)
    requires UniqueImageIds(rows0) && i < |ids|
    requires objects == objects0 - BulkRemovedKeys(rows0, ids, faults, i)
    ensures objects - DeletedKey(Filter(rows0, NotAmong(ids[..i])), ids[i], faults(i)) ==
            objects0 - BulkRemovedKeys(rows0, ids, faults, i + 1)
  {
    FindAfterFilter(rows0, ids, i);
    assert ids[..i + 1][..i] == ids[..i];
    assert DeletedKey(Filter(rows0, NotAmong(ids[..i])), ids[i], faults(i)) ==
           if ids[i] in ids[..i] then {} else DeletedKey(rows0, ids[i], faults(i));
  }

  /** `bulkDelete` never removes a key with a folder in it: a file an upload
      stored under `exhibition_<id>/<type>/` stays in storage. */
  lemma {:induction false} BulkRemovedKeysHaveNoFolder(rows: seq<ExhibitionImage>, ids: seq<nat>,
                                                       faults: nat -> Option<string>, n: nat)
    requires n <= |ids|
    ensures forall k | k in BulkRemovedKeys(rows, ids, faults, n) :: k.bucket == ImagesBucket && '/' !in k.path
    decreases n
  {
    if n > 0 {
      BulkRemovedKeysHaveNoFolder(rows, ids, faults, n - 1);
    }
  }
}
