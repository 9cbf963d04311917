/** The artwork service: the `artworks` and `artwork_images` tables, the default of
    `is_featured` on creation, the names and defaults of batch image uploads, image
    deletion that survives a storage failure, and the listing filters behind
    `getByArtistId` and `getFeatured`. Both tables are fields of the class; the
    storage is a separate `Storage` object. */
module Artworks {
  import opened Common
  import opened DatabaseTypes
  import opened StorageSdk
  import opened Upload

  /** `ArtworkFormData`: what `create` sends. Missing optional fields are `None`. */
  datatype ArtworkData = ArtworkData(
    artistId: nat,
    title: string,
    year: Option<int>,
    materials: Option<string>,
    dimensions: Option<string>,
    description: Option<string>,
    isFeatured: Option<bool>)

  /** `Partial<ArtworkFormData>`: a field that is not sent keeps its stored value. */
  datatype ArtworkPatch = ArtworkPatch(
    artistId: Option<nat>,
    title: Option<string>,
    year: Option<int>,
    materials: Option<string>,
    dimensions: Option<string>,
    description: Option<string>,
    isFeatured: Option<bool>)

  /** What `createImageRecord` is given: every optional column is sent. */
  datatype ImageRecord = ImageRecord(imageUrl: string, altText: string, isPrimary: bool, displayOrder: int)

  /** The metadata `updateImage` may change. */
  datatype ImagePatch = ImagePatch(altText: Option<string>, displayOrder: Option<int>, isPrimary: Option<bool>)

  /** `ArtworkSearchData` reduced to the filters the model evaluates: the artist, the
      year, the featured flag and the limit. */
  datatype SearchParams = SearchParams(artistId: Option<nat>, year: Option<int>, isFeatured: Option<bool>,
                                       limit: Option<nat>)

  /** `getFeatured`'s default limit. */
  const DefaultFeaturedLimit: nat := 6

  // ---------------------------------------------------------------------------
  // Rows and row updates
  // ---------------------------------------------------------------------------

  /** The row `create` inserts under `id`: the sent fields, with `is_featured`
      replaced by `is_featured || false`. No slug is sent. */
  function NewArtwork(data: ArtworkData, id: nat): (a: ArtworkRecord)
    ensures a.isFeatured <==> data.isFeatured == Some(true)
    ensures a.id == id && a.artistId == data.artistId && a.title == data.title && a.year == data.year
    ensures a.slug.None?
  {
    ArtworkRecord(id, data.artistId, data.title, data.year, data.materials, data.dimensions, data.description,
                  data.isFeatured == Some(true), None)
  }

  /** A sent field replaces the stored one; every other field and the id stay. */
  function PatchArtwork(a: ArtworkRecord, p: ArtworkPatch): (b: ArtworkRecord)
    ensures b.id == a.id && b.slug == a.slug
    ensures p == ArtworkPatch(None, None, None, None, None, None, None) ==> b == a
    ensures p.isFeatured.Some? ==> b.isFeatured == p.isFeatured.value
    ensures p.isFeatured.None? ==> b.isFeatured == a.isFeatured
    ensures p.year.Some? ==> b.year == p.year
    ensures p.year.None? ==> b.year == a.year
  {
    a.(artistId := Pick(p.artistId, a.artistId), title := Pick(p.title, a.title),
       year := PickSome(p.year, a.year), materials := PickSome(p.materials, a.materials),
       dimensions := PickSome(p.dimensions, a.dimensions), description := PickSome(p.description, a.description),
       isFeatured := Pick(p.isFeatured, a.isFeatured))
  }

  /** The image row an insert of `rec` creates under `id`. */
  function StoredImage(artworkId: nat, rec: ImageRecord, id: nat): ArtworkImage {
    ArtworkImage(id, artworkId, rec.imageUrl, Some(rec.altText), rec.isPrimary, rec.displayOrder)
  }

  /** The rows of consecutive inserts, which take consecutive ids. */
  function StoredImages(artworkId: nat, recs: seq<ImageRecord>, firstId: nat): (r: seq<ArtworkImage>)
    ensures |r| == |recs|
  {
    if recs == [] then []
    else StoredImages(artworkId, recs[..|recs| - 1], firstId) + [StoredImage(artworkId, Last(recs), firstId + |recs| - 1)]
  }

  /** Record `k` of a batch is stored under the `k`-th id after the first. */
  lemma {:induction false} StoredImagesAt(artworkId: nat, recs: seq<ImageRecord>, firstId: nat, k: nat)
    requires k < |recs|
    ensures StoredImages(artworkId, recs, firstId)[k] == StoredImage(artworkId, recs[k], firstId + k)
    decreases |recs|
  {
    var init := recs[..|recs| - 1];
    if k < |recs| - 1 {
      StoredImagesAt(artworkId, init, firstId, k);
    }
  }

  lemma StoredImagesSnoc(artworkId: nat, recs: seq<ImageRecord>, rec: ImageRecord, firstId: nat)
    ensures StoredImages(artworkId, recs + [rec], firstId) ==
            StoredImages(artworkId, recs, firstId) + [StoredImage(artworkId, rec, firstId + |recs|)]
  {
    assert (recs + [rec])[..|recs|] == recs;
  }

  function PatchImage(image: ArtworkImage, p: ImagePatch): (b: ArtworkImage)
    ensures b.id == image.id && b.artworkId == image.artworkId && b.imageUrl == image.imageUrl
    ensures p.altText.Some? ==> b.altText == p.altText
    ensures p.altText.None? ==> b.altText == image.altText
    ensures b.displayOrder == Pick(p.displayOrder, image.displayOrder)
    ensures b.isPrimary == Pick(p.isPrimary, image.isPrimary)
  {
    image.(altText := PickSome(p.altText, image.altText), displayOrder := Pick(p.displayOrder, image.displayOrder),
           isPrimary := Pick(p.isPrimary, image.isPrimary))
  }

  function ArtworkId(a: ArtworkRecord): nat { a.id }

  function ImageId(image: ArtworkImage): nat { image.id }

  function IsArtwork(id: nat): ArtworkRecord -> bool {
    (a: ArtworkRecord) => a.id == id
  }

  function NotArtwork(id: nat): ArtworkRecord -> bool {
    (a: ArtworkRecord) => a.id != id
  }

  function IsImage(id: nat): ArtworkImage -> bool {
    (image: ArtworkImage) => image.id == id
  }

  function NotImage(id: nat): ArtworkImage -> bool {
    (image: ArtworkImage) => image.id != id
  }

  function OfArtwork(artworkId: nat): ArtworkImage -> bool {
    (image: ArtworkImage) => image.artworkId == artworkId
  }

  function Patched(p: ArtworkPatch): ArtworkRecord -> ArtworkRecord {
    (a: ArtworkRecord) => PatchArtwork(a, p)
  }

  function ImagePatched(p: ImagePatch): ArtworkImage -> ArtworkImage {
    (image: ArtworkImage) => PatchImage(image, p)
  }

  // ---------------------------------------------------------------------------
  // Listing
  // ---------------------------------------------------------------------------

  /** The `eq` filters of `getAll`, each applied only when its parameter is truthy:
      an artist id when given, a year when given and not 0, the featured flag
      whenever it is given, `false` included. */
  function Matches(p: SearchParams): ArtworkRecord -> bool {
    (a: ArtworkRecord) =>
      (p.artistId.None? || a.artistId == p.artistId.value) &&
      (p.year.None? || p.year.value == 0 || a.year == p.year) &&
      (p.isFeatured.None? || a.isFeatured == p.isFeatured.value)
  }

  function IsFeatured(a: ArtworkRecord): bool {
    a.isFeatured
  }

  /** The storage key of upload `index` of a batch: `<artworkId>_<now>_<index>.<ext>`,
      with the text after the file name's last dot kept as it is. */
  function ImageKey(artworkId: nat, now: nat, index: nat, fileName: string): string {
    NatToString(artworkId) + "_" + NatToString(now) + "_" + NatToString(index) + "." + LastPiece(fileName, '.')
  }

  /** The third `_`-piece of `a_b_c`, for pieces `a`, `b` without `_`. */
  lemma ThirdPiece(a: string, b: string, c: string)
    requires '_' !in a && '_' !in b
    ensures |Split(a + "_" + b + "_" + c, '_')| > 2
    ensures Split(a + "_" + b + "_" + c, '_')[2] == Split(c, '_')[0]
  {
    var bc := b + ['_'] + c;
    assert a + "_" + b + "_" + c == a + ['_'] + bc;
    SplitCons(b, '_', c);
    SplitCons(a, '_', bc);
  }

  /** The index is readable from a key: it is the text before the first dot of the
      third `_`-separated piece, whatever the file name holds. */
  lemma ImageKeyIndex(artworkId: nat, now: nat, index: nat, fileName: string)
    ensures var key := ImageKey(artworkId, now, index, fileName);
            |Split(key, '_')| > 2 && Split(Split(key, '_')[2], '.')[0] == NatToString(index)
  {
    NoUnderscoreInDigits(artworkId);
    NoUnderscoreInDigits(now);
    var c := NatToString(index) + "." + LastPiece(fileName, '.');
    assert ImageKey(artworkId, now, index, fileName) == NatToString(artworkId) + "_" + NatToString(now) + "_" + c;
    ThirdPiece(NatToString(artworkId), NatToString(now), c);
    IndexPiece(index, LastPiece(fileName, '.'));
  }

  /** Two positions of one batch never share a key, whatever the clock reads. */
  lemma ImageKeysDistinct(artworkId: nat, now1: nat, now2: nat, i: nat, j: nat, name1: string, name2: string)
    requires i != j
    ensures ImageKey(artworkId, now1, i, name1) != ImageKey(artworkId, now2, j, name2)
  {
    ImageKeyIndex(artworkId, now1, i, name1);
    ImageKeyIndex(artworkId, now2, j, name2);
    if ImageKey(artworkId, now1, i, name1) == ImageKey(artworkId, now2, j, name2) {
      NatToStringInjective(i, j);
    }
  }

  // ---------------------------------------------------------------------------
  // The service
  // ---------------------------------------------------------------------------

  class ArtworkService {
    var artworks: seq<ArtworkRecord>
    var images: seq<ArtworkImage>
    var nextArtworkId: nat
    var nextImageId: nat

    ghost predicate Valid()
      reads this
    {
      UniqueIds(artworks, ArtworkId) && IdsBelow(artworks, ArtworkId, nextArtworkId) &&
      UniqueIds(images, ImageId) && IdsBelow(images, ImageId, nextImageId)
    }

    constructor()
      ensures Valid() && artworks == [] && images == []
    {
      artworks := [];
      images := [];
      nextArtworkId := 0;
      nextImageId := 0;
    }

    /** `getAll` without its text search, ordering and offset: the artworks that
        pass the filters, cut to the limit when one is given and not 0. */
    function GetAll(p: SearchParams): (r: seq<ArtworkRecord>)
      reads this
      ensures forall i :: 0 <= i < |r| ==> r[i] in artworks && Matches(p)(r[i])
      ensures p.limit.None? || p.limit.value == 0 ==>
                forall i :: 0 <= i < |artworks| && Matches(p)(artworks[i]) ==> artworks[i] in r
      ensures p.limit.Some? && p.limit.value > 0 ==>
                |r| == (if p.limit.value < |Filter(artworks, Matches(p))| then p.limit.value
                        else |Filter(artworks, Matches(p))|) &&
                r <= Filter(artworks, Matches(p))
      ensures p.limit.Some? && p.limit.value > 0 && |Filter(artworks, Matches(p))| <= p.limit.value ==>
                r == Filter(artworks, Matches(p))
    {
      var all := Filter(artworks, Matches(p));
      if p.limit.Some? && p.limit.value > 0 then Take(all, p.limit.value) else all
    }

    /** `getByArtistId`: exactly the artist's artworks. */
    function GetByArtistId(artistId: nat): (r: seq<ArtworkRecord>)
      reads this
      ensures forall a :: a in r <==> a in artworks && a.artistId == artistId
    {
      GetAll(SearchParams(Some(artistId), None, None, None))
    }

    /** `getFeatured(limit = 6)`: featured artworks only, `limit` of them, or all
        when there are fewer; a limit of 0 is falsy in `getAll`, so it returns every
        featured artwork. */
    function GetFeatured(limit: nat): (r: seq<ArtworkRecord>)
      reads this
      ensures forall a :: a in r ==> a in artworks && a.isFeatured
      ensures multiset(r) <= multiset(Filter(artworks, IsFeatured))
      ensures limit > 0 ==>
                |r| == if limit < Count(artworks, IsFeatured) then limit else Count(artworks, IsFeatured)
      ensures limit == 0 ==> r == Filter(artworks, IsFeatured)
    {
      var p := SearchParams(None, None, Some(true), Some(limit));
      SameFilter(artworks, Matches(p), IsFeatured);
      var r := GetAll(p);
      var all := Filter(artworks, IsFeatured);
      assert r == all[..|r|];
      SplitMultiset(all, |r|);
      r
    }

    /** The images `getAll` embeds with an artwork. */
    function ImagesOf(artworkId: nat): (r: seq<ArtworkImage>)
      reads this
      ensures forall image :: image in r <==> image in images && image.artworkId == artworkId
    {
      Filter(images, OfArtwork(artworkId))
    }

    /** The id of the stored row with `id`, if there is one. */
    predicate HasArtwork(id: nat)
      reads this
    {
      exists i :: 0 <= i < |artworks| && artworks[i].id == id
    }

    predicate HasImage(id: nat)
      reads this
    {
      exists i :: 0 <= i < |images| && images[i].id == id
    }

    /** `create`. */
    method Create(data: ArtworkData) returns (row: ArtworkRecord)
      requires Valid()
      modifies this
      ensures Valid()
      ensures row == NewArtwork(data, old(nextArtworkId))
      ensures artworks == old(artworks) + [row] && nextArtworkId == old(nextArtworkId) + 1
      ensures images == old(images) && nextImageId == old(nextImageId)
    {
      row := NewArtwork(data, nextArtworkId);
      artworks := artworks + [row];
      nextArtworkId := nextArtworkId + 1;
    }

    /** `update(id, updates)` with `.single()`: no matching row is an error. */
    method Update(id: nat, p: ArtworkPatch) returns (r: Result<ArtworkRecord>)
      requires Valid()
      modifies this
      ensures Valid()
      ensures artworks == MapWhere(old(artworks), IsArtwork(id), Patched(p))
      ensures images == old(images) && nextArtworkId == old(nextArtworkId) && nextImageId == old(nextImageId)
      ensures r.Err? <==> !old(HasArtwork(id))
      ensures r.Err? ==> r.error == NoRow
      ensures r.Ok? ==> r.value in artworks && r.value.id == id &&
                        r.value == PatchArtwork(Find(old(artworks), IsArtwork(id)).value, p)
    {
      var found := Find(artworks, IsArtwork(id));
      if found.None? {
        MapWhereNone(artworks, IsArtwork(id), Patched(p));
        r := Err(NoRow);
      } else {
        ghost var k :| 0 <= k < |artworks| && artworks[k] == found.value && IsArtwork(id)(artworks[k]);
        var row := PatchArtworks(id, found.value, p, k);
        r := Ok(row);
      }
    }

    /** The artworks with the id get the patch; the row at `k` is one of them. */
    method PatchArtworks(id: nat, existing: ArtworkRecord, p: ArtworkPatch, ghost k: nat) returns (row: ArtworkRecord)
      requires Valid() && k < |artworks| && artworks[k] == existing && existing.id == id
      modifies this
      ensures Valid()
      ensures artworks == MapWhere(old(artworks), IsArtwork(id), Patched(p))
      ensures images == old(images) && nextArtworkId == old(nextArtworkId) && nextImageId == old(nextImageId)
      ensures row == PatchArtwork(existing, p) && row in artworks
    {
      row := PatchArtwork(existing, p);
      MapWhereUpdatesAt(artworks, ArtworkId, nextArtworkId, IsArtwork(id), Patched(p), k);
      artworks := MapWhere(artworks, IsArtwork(id), Patched(p));
    }

    /** `delete(id)`. The image rows of the artwork are left to the database. */
    method Delete(id: nat)
      requires Valid()
      modifies this
      ensures Valid()
      ensures artworks == Filter(old(artworks), NotArtwork(id))
      ensures !HasArtwork(id)
      ensures images == old(images) && nextArtworkId == old(nextArtworkId) && nextImageId == old(nextImageId)
    {
      FilterKeepsUniqueIds(artworks, ArtworkId, NotArtwork(id));
      artworks := Filter(artworks, NotArtwork(id));
    }

    /** `createImageRecord`, with every optional column given. */
    method CreateImageRecord(artworkId: nat, rec: ImageRecord) returns (row: ArtworkImage)
      requires Valid()
      modifies this
      ensures Valid()
      ensures row == StoredImage(artworkId, rec, old(nextImageId))
      ensures images == old(images) + [row] && nextImageId == old(nextImageId) + 1
      ensures artworks == old(artworks) && nextArtworkId == old(nextArtworkId)
    {
      row := StoredImage(artworkId, rec, nextImageId);
      images := images + [row];
      nextImageId := nextImageId + 1;
    }

    /** `updateImage` with `.single()`. */
    method UpdateImage(imageId: nat, p: ImagePatch) returns (r: Result<ArtworkImage>)
      requires Valid()
      modifies this
      ensures Valid()
      ensures images == MapWhere(old(images), IsImage(imageId), ImagePatched(p))
      ensures artworks == old(artworks) && nextArtworkId == old(nextArtworkId) && nextImageId == old(nextImageId)
      ensures r.Err? <==> !old(HasImage(imageId))
      ensures r.Err? ==> r.error == NoRow
      ensures r.Ok? ==> r.value in images && r.value.id == imageId &&
                        r.value == PatchImage(Find(old(images), IsImage(imageId)).value, p)
    {
      var found := Find(images, IsImage(imageId));
      if found.None? {
        MapWhereNone(images, IsImage(imageId), ImagePatched(p));
        r := Err(NoRow);
      } else {
        ghost var k :| 0 <= k < |images| && images[k] == found.value && IsImage(imageId)(images[k]);
        var row := PatchImages(imageId, found.value, p, k);
        r := Ok(row);
      }
    }

    /** The image rows with the id get the patch; the row at `k` is one of them. */
    method PatchImages(imageId: nat, existing: ArtworkImage, p: ImagePatch, ghost k: nat) returns (row: ArtworkImage)
      requires Valid() && k < |images| && images[k] == existing && existing.id == imageId
      modifies this
      ensures Valid()
      ensures images == MapWhere(old(images), IsImage(imageId), ImagePatched(p))
      ensures artworks == old(artworks) && nextArtworkId == old(nextArtworkId) && nextImageId == old(nextImageId)
      ensures row == PatchImage(existing, p) && row in images
    {
      row := PatchImage(existing, p);
      MapWhereUpdatesAt(images, ImageId, nextImageId, IsImage(imageId), ImagePatched(p), k);
      images := MapWhere(images, IsImage(imageId), ImagePatched(p));
    }

    /** `deleteImage`: the storage key is the URL's last segment; a storage failure
        is only logged and the row is deleted anyway. An unknown id is an error that
        changes nothing. */
    method DeleteImage(st: Storage, imageId: nat, removeFault: Option<string>) returns (r: Result<()>)
      requires Valid()
      modifies this, st
      ensures Valid()
      ensures artworks == old(artworks) && nextArtworkId == old(nextArtworkId) && nextImageId == old(nextImageId)
      ensures !old(HasImage(imageId)) ==>
                r == Err(NoRow) && images == old(images) && st.objects == old(st.objects)
      ensures old(HasImage(imageId)) ==>
                r == Ok(()) && images == Filter(old(images), NotImage(imageId)) &&
                var key := LastSegment(Find(old(images), IsImage(imageId)).value.imageUrl);
                st.objects == if key != "" && removeFault.None?
                              then old(st.objects) - {StorageKey(BucketArtworks, key)}
                              else old(st.objects)
    {
      var image := Find(images, IsImage(imageId));
      if image.None? {
        return Err(NoRow);
      }
      var filePath := LastSegment(image.value.imageUrl);
      if filePath != "" {
        var storageError := st.Remove(BucketArtworks, [filePath], removeFault);
        assert (set p | p in [filePath] :: StorageKey(BucketArtworks, p)) == {StorageKey(BucketArtworks, filePath)};
      }
      FilterKeepsUniqueIds(images, ImageId, NotImage(imageId));
      images := Filter(images, NotImage(imageId));
      r := Ok(());
    }

    /** `uploadImages`: every file is uploaded to the bucket root under its key and,
        when the upload succeeds, recorded with its file name as alt text, its
        position as order, and the primary flag on position 0. */
    method UploadImages(st: Storage, artworkId: nat, files: seq<FileMeta>, ticks: nat -> Tick)
      returns (results: seq<Result<ArtworkImage>>, r: Result<seq<ArtworkImage>>)
      requires Valid()
      modifies this, st
      ensures Valid()
      ensures ImageBatch(results, st.objects, images, nextImageId) ==
              UploadBatch(st.projectUrl, old(st.objects), old(images), old(nextImageId), artworkId, files, ticks)
      ensures artworks == old(artworks) && nextArtworkId == old(nextArtworkId)
      ensures r == FirstFailure(results)
    {
      results := [];
      ghost var objects0 := st.objects;
      ghost var images0 := images;
      ghost var next0 := nextImageId;
      for i := 0 to |files|
        invariant Valid()
        invariant artworks == old(artworks) && nextArtworkId == old(nextArtworkId)
        invariant ImageBatch(results, st.objects, images, nextImageId) ==
                  UploadBatch(st.projectUrl, objects0, images0, next0, artworkId, files[..i], ticks)
      {
        results := UploadOne(st, artworkId, files, ticks, i, objects0, images0, next0, results);
      }
      assert files[..|files|] == files;
      r := FirstFailure(results);
    }

    /** One turn of `uploadImages`: file `i` is uploaded and, on success, recorded. */
    method UploadOne(st: Storage, artworkId: nat, files: seq<FileMeta>, ticks: nat -> Tick, i: nat,
                     ghost objects0: set<StorageKey>, ghost images0: seq<ArtworkImage>, ghost next0: nat,
                     results: seq<Result<ArtworkImage>>)
      returns (resultsAfter: seq<Result<ArtworkImage>>)
      requires Valid() && i < |files|
      requires ImageBatch(results, st.objects, images, nextImageId) ==
               UploadBatch(st.projectUrl, objects0, images0, next0, artworkId, files[..i], ticks)
      modifies this, st
      ensures Valid()
      ensures artworks == old(artworks) && nextArtworkId == old(nextArtworkId)
      ensures ImageBatch(resultsAfter, st.objects, images, nextImageId) ==
              UploadBatch(st.projectUrl, objects0, images0, next0, artworkId, files[..i + 1], ticks)
    {
      UploadBatchStep(st.projectUrl, objects0, images0, next0, artworkId, files, ticks, i);
      var file := files[i];
      var tick := ticks(i);
      var filePath := ImageKey(artworkId, tick.now, i, file.name);
      var uploadError := st.Upload(BucketArtworks, filePath, tick.fault);
      if uploadError.Some? {
        resultsAfter := results + [Err(uploadError.value)];
      } else {
        var publicUrl := st.PublicUrl(BucketArtworks, filePath);
        var row := CreateImageRecord(artworkId, ImageRecord(publicUrl, file.name, i == 0, i));
        assert row == UploadedImage(st.projectUrl, artworkId, file, i, tick.now, old(nextImageId));
        resultsAfter := results + [Ok(row)];
      }
    }
  }

  // ---------------------------------------------------------------------------
  // Batch uploads, as a fold over the store and the image table
  // ---------------------------------------------------------------------------

  /** What a batch upload leaves behind: one result per file, the store, the image
      table and its next id. */
  datatype ImageBatch = ImageBatch(results: seq<Result<ArtworkImage>>, objects: set<StorageKey>,
                                   images: seq<ArtworkImage>, nextId: nat)

  function KeyAt(artworkId: nat, files: seq<FileMeta>, ticks: nat -> Tick, i: nat): StorageKey
    requires i < |files|
  {
    StorageKey(BucketArtworks, ImageKey(artworkId, ticks(i).now, i, files[i].name))
  }

  /** The row file `i` records under id `id`. */
  function UploadedImage(projectUrl: string, artworkId: nat, file: FileMeta, i: nat, now: nat, id: nat): ArtworkImage {
    StoredImage(artworkId, ImageRecord(projectUrl + PublicPath(BucketArtworks, ImageKey(artworkId, now, i, file.name)),
                                       file.name, i == 0, i), id)
  }

  /** The files one after the other: a storage failure or a taken key gives an
      error and changes nothing; otherwise the object is stored and the row added. */
  function UploadBatch(projectUrl: string, objects: set<StorageKey>, images: seq<ArtworkImage>, nextId: nat,
                       artworkId: nat, files: seq<FileMeta>, ticks: nat -> Tick): (b: ImageBatch)
    ensures |b.results| == |files|
    ensures objects <= b.objects
    ensures b.images == images + Successes(b.results)
    ensures b.nextId == nextId + |Successes(b.results)|
  {
    if files == [] then ImageBatch([], objects, images, nextId)
    else
      var i := |files| - 1;
      var prev := UploadBatch(projectUrl, objects, images, nextId, artworkId, files[..i], ticks);
      var key := KeyAt(artworkId, files, ticks, i);
      var tick := ticks(i);
      var result: Result<ArtworkImage> :=
        if tick.fault.Some? then Err(tick.fault.value)
        else if key in prev.objects then Err(AlreadyExists)
        else Ok(UploadedImage(projectUrl, artworkId, files[i], i, tick.now, prev.nextId));
      var results := prev.results + [result];
      assert results[..i] == prev.results;
      if result.Err? then prev.(results := results)
      else ImageBatch(results, prev.objects + {key}, prev.images + [result.value], prev.nextId + 1)
  }

  /** Adding a file to a batch keeps the earlier results and stored objects. */
  lemma UploadBatchEarlier(projectUrl: string, objects: set<StorageKey>, images: seq<ArtworkImage>, nextId: nat,
                           artworkId: nat, files: seq<FileMeta>, ticks: nat -> Tick)
    requires files != []
    ensures var n := |files| - 1;
            var b := UploadBatch(projectUrl, objects, images, nextId, artworkId, files, ticks);
            var prev := UploadBatch(projectUrl, objects, images, nextId, artworkId, files[..n], ticks);
            b.results[..n] == prev.results && prev.objects <= b.objects
  {
    var n := |files| - 1;
    UploadBatchStep(projectUrl, objects, images, nextId, artworkId, files, ticks, n);
    assert files[..n + 1] == files;
  }

  /** The batch one file longer, in terms of the batch so far. */
  lemma UploadBatchStep(projectUrl: string, objects: set<StorageKey>, images: seq<ArtworkImage>, nextId: nat,
                        artworkId: nat, files: seq<FileMeta>, ticks: nat -> Tick, i: nat)
    requires i < |files|
    ensures var prev := UploadBatch(projectUrl, objects, images, nextId, artworkId, files[..i], ticks);
            var b := UploadBatch(projectUrl, objects, images, nextId, artworkId, files[..i + 1], ticks);
            var key := KeyAt(artworkId, files, ticks, i);
            && (ticks(i).fault.Some? ==> b == prev.(results := prev.results + [Err(ticks(i).fault.value)]))
            && (ticks(i).fault.None? && key in prev.objects ==> b == prev.(results := prev.results + [Err(AlreadyExists)]))
            && (ticks(i).fault.None? && key !in prev.objects ==>
                  var row := UploadedImage(projectUrl, artworkId, files[i], i, ticks(i).now, prev.nextId);
                  b == ImageBatch(prev.results + [Ok(row)], prev.objects + {key}, prev.images + [row], prev.nextId + 1))
  {
    var part := files[..i + 1];
    assert part[..i] == files[..i];
    assert KeyAt(artworkId, part, ticks, i) == KeyAt(artworkId, files, ticks, i);
  }

  /** A key no file uses is in the final store exactly when it was there before. */
  lemma {:induction false} UploadBatchOtherKeys(projectUrl: string, objects: set<StorageKey>,
                                                images: seq<ArtworkImage>, nextId: nat, artworkId: nat,
                                                files: seq<FileMeta>, ticks: nat -> Tick, k: StorageKey)
    requires forall j :: 0 <= j < |files| ==> KeyAt(artworkId, files, ticks, j) != k
    ensures k in UploadBatch(projectUrl, objects, images, nextId, artworkId, files, ticks).objects <==> k in objects
    decreases |files|
  {
    if files != [] {
      var i := |files| - 1;
      var init := files[..i];
      forall j | 0 <= j < |init| ensures KeyAt(artworkId, init, ticks, j) != k {
        assert KeyAt(artworkId, init, ticks, j) == KeyAt(artworkId, files, ticks, j);
      }
      UploadBatchOtherKeys(projectUrl, objects, images, nextId, artworkId, init, ticks, k);
    }
  }

  /** The outcome of the last file of a batch: no earlier file took its key. */
  lemma UploadBatchLast(projectUrl: string, objects: set<StorageKey>, images: seq<ArtworkImage>, nextId: nat,
                        artworkId: nat, files: seq<FileMeta>, ticks: nat -> Tick)
    requires files != []
    ensures var i := |files| - 1;
            var b := UploadBatch(projectUrl, objects, images, nextId, artworkId, files, ticks);
            var key := KeyAt(artworkId, files, ticks, i);
            && (ticks(i).fault.Some? ==> b.results[i] == Err(ticks(i).fault.value))
            && (ticks(i).fault.None? && key in objects ==> b.results[i] == Err(AlreadyExists))
            && (ticks(i).fault.None? && key !in objects ==>
                  b.results[i].Ok? && key in b.objects &&
                  b.results[i].value == UploadedImage(projectUrl, artworkId, files[i], i, ticks(i).now,
                                                      b.results[i].value.id))
  {
    var i := |files| - 1;
    var init := files[..i];
    var key := KeyAt(artworkId, files, ticks, i);
    forall j | 0 <= j < |init| ensures KeyAt(artworkId, init, ticks, j) != key {
      ImageKeysDistinct(artworkId, ticks(j).now, ticks(i).now, j, i, files[j].name, files[i].name);
    }
    UploadBatchOtherKeys(projectUrl, objects, images, nextId, artworkId, init, ticks, key);
  }

  /** The result of file `i` depends only on its own tick and the store before the
      batch, because no two files share a key: a storage failure gives its message,
      a taken key gives `AlreadyExists`, and otherwise the object is stored and the
      row recorded with the file name as alt text, order `i`, and the primary flag
      exactly when `i` is 0. */
  lemma {:induction false} UploadBatchResult(projectUrl: string, objects: set<StorageKey>,
                                             images: seq<ArtworkImage>, nextId: nat, artworkId: nat,
                                             files: seq<FileMeta>, ticks: nat -> Tick, i: nat)
    requires i < |files|
    ensures var b := UploadBatch(projectUrl, objects, images, nextId, artworkId, files, ticks);
            var key := KeyAt(artworkId, files, ticks, i);
            && (ticks(i).fault.Some? ==> b.results[i] == Err(ticks(i).fault.value))
            && (ticks(i).fault.None? && key in objects ==> b.results[i] == Err(AlreadyExists))
            && (ticks(i).fault.None? && key !in objects ==>
                  b.results[i].Ok? && key in b.objects &&
                  b.results[i].value == UploadedImage(projectUrl, artworkId, files[i], i, ticks(i).now,
                                                      b.results[i].value.id))
    decreases |files|
  {
    var n := |files| - 1;
    if i < n {
      var init := files[..n];
      var b := UploadBatch(projectUrl, objects, images, nextId, artworkId, files, ticks);
      var prev := UploadBatch(projectUrl, objects, images, nextId, artworkId, init, ticks);
      UploadBatchResult(projectUrl, objects, images, nextId, artworkId, init, ticks, i);
      assert KeyAt(artworkId, init, ticks, i) == KeyAt(artworkId, files, ticks, i) && init[i] == files[i];
      UploadBatchEarlier(projectUrl, objects, images, nextId, artworkId, files, ticks);
      assert b.results[i] == b.results[..n][i] == prev.results[i];
    } else {
      UploadBatchLast(projectUrl, objects, images, nextId, artworkId, files, ticks);
    }
  }

  /** Only the row of the first file is primary: when the first upload fails, the
      batch records no primary image at all. */
  lemma PrimaryOnlyFirst(projectUrl: string, objects: set<StorageKey>, images: seq<ArtworkImage>, nextId: nat,
                         artworkId: nat, files: seq<FileMeta>, ticks: nat -> Tick, i: nat)
    requires i < |files|
    ensures var b := UploadBatch(projectUrl, objects, images, nextId, artworkId, files, ticks);
            b.results[i].Ok? ==>
              (b.results[i].value.isPrimary <==> i == 0) && b.results[i].value.displayOrder == i &&
              b.results[i].value.altText == Some(files[i].name) && b.results[i].value.artworkId == artworkId
  {
    UploadBatchResult(projectUrl, objects, images, nextId, artworkId, files, ticks, i);
  }
}
