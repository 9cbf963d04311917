/** `StorageService` of `src/lib/storage/index.ts`: one folder per entity and a
    name prefix per image kind on top of the upload helpers, the size of a bucket
    listing, and the accessibility probe over the four buckets. */
module StorageService {
  import opened Common
  import opened StorageSdk
  import opened DatabaseTypes
  import opened Upload

  // ---------------------------------------------------------------------------
  // Folders and prefixes
  // ---------------------------------------------------------------------------

  function ExhibitionFolder(exhibitionId: nat): string {
    "exhibition_" + NatToString(exhibitionId)
  }

  function ArtistFolder(artistId: nat): string {
    "artist_" + NatToString(artistId)
  }

  function ArtworkFolder(artworkId: nat): string {
    "artwork_" + NatToString(artworkId)
  }

  /** The image type's name, or `image` when none is given. */
  function ExhibitionPrefix(imageType: Option<ImageType>): (p: string)
    ensures p != ""
    ensures imageType.Some? ==> p == TypeName(imageType.value)
    ensures imageType.None? ==> p == "image"
  {
    if imageType.Some? then TypeName(imageType.value) else "image"
  }

  /** The kinds an artist upload may name. */
  datatype ArtistImageKind = Profile | Portfolio | Cv

  function ArtistKindName(k: ArtistImageKind): string {
    match k
    case Profile => "profile"
    case Portfolio => "portfolio"
    case Cv => "cv"
  }

  function ArtistPrefix(kind: Option<ArtistImageKind>): (p: string)
    ensures p != ""
    ensures kind.Some? ==> p == ArtistKindName(kind.value)
    ensures kind.None? ==> p == "image"
  {
    if kind.Some? then ArtistKindName(kind.value) else "image"
  }

  function ArtworkPrefix(isPrimary: bool): (p: string)
    ensures p != ""
    ensures isPrimary <==> p == "primary"
    ensures !isPrimary <==> p == "detail"
  {
    if isPrimary then "primary" else "detail"
  }

  /** The key a prefixed single upload asks for: `<folder>/<prefix>_<base>_<now>_<token>.<ext>`. */
  function PrefixedPath(folder: string, prefix: string, file: FileMeta, tick: Tick): string {
    FilePath(folder, GenerateFileName(file.name, prefix, tick.now, tick.token))
  }

  /** A prefixed key lies in its folder and starts with the prefix, whatever file
      name it came from. */
  lemma PrefixedPathShape(folder: string, prefix: string, file: FileMeta, tick: Tick)
    requires folder != "" && prefix != ""
    ensures IsPrefix(folder + "/" + prefix + "_", PrefixedPath(folder, prefix, file, tick))
    ensures IsSuffix("." + Extension(file.name), PrefixedPath(folder, prefix, file, tick))
  {
    var name := GenerateFileName(file.name, prefix, tick.now, tick.token);
    assert IsPrefix(prefix + "_", name) by {
      assert IsPrefix(prefix + "_" + BaseName(file.name) + "_", name);
      PrefixTrans(prefix + "_", prefix + "_" + BaseName(file.name) + "_", name);
    }
    PrefixAppend(folder + "/", prefix + "_", name);
    SuffixAppend(folder + "/", "." + Extension(file.name), name);
  }

  // ---------------------------------------------------------------------------
  // Uploads
  // ---------------------------------------------------------------------------

  /** `uploadExhibitionImage`: the generated, prefixed name in the exhibition's
      folder of the `exhibitions` bucket. */
  method UploadExhibitionImage(st: Storage, file: FileMeta, exhibitionId: nat, imageType: Option<ImageType>,
                               tick: Tick) returns (r: UploadResult)
    modifies st
    ensures (r, st.objects) ==
            UploadOutcome(st.projectUrl, old(st.objects), file, BucketExhibitions,
                          GenerateFileName(file.name, ExhibitionPrefix(imageType), tick.now, tick.token),
                          ExhibitionFolder(exhibitionId), tick)
    ensures r.Uploaded? ==> r.filePath == PrefixedPath(ExhibitionFolder(exhibitionId), ExhibitionPrefix(imageType), file, tick)
  {
    var fileName := GenerateFileName(file.name, ExhibitionPrefix(imageType), tick.now, tick.token);
    r := UploadFile(st, file, BucketExhibitions, fileName, ExhibitionFolder(exhibitionId), tick);
  }

  /** `uploadArtistImage`. */
  method UploadArtistImage(st: Storage, file: FileMeta, artistId: nat, kind: Option<ArtistImageKind>, tick: Tick)
    returns (r: UploadResult)
    modifies st
    ensures (r, st.objects) ==
            UploadOutcome(st.projectUrl, old(st.objects), file, BucketArtists,
                          GenerateFileName(file.name, ArtistPrefix(kind), tick.now, tick.token),
                          ArtistFolder(artistId), tick)
    ensures r.Uploaded? ==> r.filePath == PrefixedPath(ArtistFolder(artistId), ArtistPrefix(kind), file, tick)
  {
    var fileName := GenerateFileName(file.name, ArtistPrefix(kind), tick.now, tick.token);
    r := UploadFile(st, file, BucketArtists, fileName, ArtistFolder(artistId), tick);
  }

  /** `uploadArtworkImage`; `isPrimary` defaults to false at the call sites. */
  method UploadArtworkImage(st: Storage, file: FileMeta, artworkId: nat, isPrimary: bool, tick: Tick)
    returns (r: UploadResult)
    modifies st
    ensures (r, st.objects) ==
            UploadOutcome(st.projectUrl, old(st.objects), file, BucketArtworks,
                          GenerateFileName(file.name, ArtworkPrefix(isPrimary), tick.now, tick.token),
                          ArtworkFolder(artworkId), tick)
    ensures r.Uploaded? ==> r.filePath == PrefixedPath(ArtworkFolder(artworkId), ArtworkPrefix(isPrimary), file, tick)
  {
    var fileName := GenerateFileName(file.name, ArtworkPrefix(isPrimary), tick.now, tick.token);
    r := UploadFile(st, file, BucketArtworks, fileName, ArtworkFolder(artworkId), tick);
  }

  /** `uploadGeneralFile`: no name of its own and an optional folder (`""` for none). */
  method UploadGeneralFile(st: Storage, file: FileMeta, folder: string, tick: Tick) returns (r: UploadResult)
    modifies st
    ensures (r, st.objects) == UploadOutcome(st.projectUrl, old(st.objects), file, BucketGeneral, "", folder, tick)
  {
    r := UploadFile(st, file, BucketGeneral, "", folder, tick);
  }

  /** `uploadMultipleExhibitionImages`: the same folder, but no prefix. */
  method UploadMultipleExhibitionImages(st: Storage, files: seq<FileMeta>, exhibitionId: nat, ticks: nat -> Tick)
    returns (results: seq<UploadResult>, progress: seq<(nat, nat)>)
    modifies st
    ensures (results, st.objects) ==
            UploadAll(st.projectUrl, old(st.objects), files, BucketExhibitions, ExhibitionFolder(exhibitionId), ticks)
    ensures |progress| == |files| && forall i :: 0 <= i < |progress| ==> progress[i] == (i + 1, |files|)
  {
    results, progress := UploadFiles(st, files, BucketExhibitions, ExhibitionFolder(exhibitionId), ticks);
  }

  method UploadMultipleArtistImages(st: Storage, files: seq<FileMeta>, artistId: nat, ticks: nat -> Tick)
    returns (results: seq<UploadResult>, progress: seq<(nat, nat)>)
    modifies st
    ensures (results, st.objects) ==
            UploadAll(st.projectUrl, old(st.objects), files, BucketArtists, ArtistFolder(artistId), ticks)
    ensures |progress| == |files| && forall i :: 0 <= i < |progress| ==> progress[i] == (i + 1, |files|)
  {
    results, progress := UploadFiles(st, files, BucketArtists, ArtistFolder(artistId), ticks);
  }

  method UploadMultipleArtworkImages(st: Storage, files: seq<FileMeta>, artworkId: nat, ticks: nat -> Tick)
    returns (results: seq<UploadResult>, progress: seq<(nat, nat)>)
    modifies st
    ensures (results, st.objects) ==
            UploadAll(st.projectUrl, old(st.objects), files, BucketArtworks, ArtworkFolder(artworkId), ticks)
    ensures |progress| == |files| && forall i :: 0 <= i < |progress| ==> progress[i] == (i + 1, |files|)
  {
    results, progress := UploadFiles(st, files, BucketArtworks, ArtworkFolder(artworkId), ticks);
  }

  /** In a multi-file upload the stored names carry no kind prefix: each is the
      folder, then the sanitised base name. */
  lemma MultipleHasNoPrefix(projectUrl: string, objects: set<StorageKey>, files: seq<FileMeta>, bucket: string,
                            folder: string, ticks: nat -> Tick, i: nat)
    requires folder != "" && i < |files|
    requires UploadAll(projectUrl, objects, files, bucket, folder, ticks).0[i].Uploaded?
    ensures IsPrefix(folder + "/" + BaseName(files[i].name) + "_",
                     UploadAll(projectUrl, objects, files, bucket, folder, ticks).0[i].filePath)
  {
    UploadAllPaths(projectUrl, objects, files, bucket, folder, ticks, i);
    var name := GenerateFileName(files[i].name, "", ticks(i).now, ticks(i).token);
    PrefixAppend(folder + "/", BaseName(files[i].name) + "_", name);
  }

  // ---------------------------------------------------------------------------
  // Bucket size and health
  // ---------------------------------------------------------------------------

  /** The listed files' sizes, absent for a file without size metadata. */
  function SumSizes(sizes: seq<Option<nat>>): nat {
    if sizes == [] then 0
    else SumSizes(sizes[..|sizes| - 1]) + (if Last(sizes).Some? then Last(sizes).value else 0)
  }

  /** The sum over two listings is the sum of their sums. */
  lemma {:induction false} SumSizesAppend(a: seq<Option<nat>>, b: seq<Option<nat>>)
    ensures SumSizes(a + b) == SumSizes(a) + SumSizes(b)
    decreases |b|
  {
    if b == [] {
      assert a + b == a;
    } else {
      var b' := b[..|b| - 1];
      assert (a + b)[..|a + b| - 1] == a + b';
      assert Last(a + b) == Last(b);
      SumSizesAppend(a, b');
    }
  }

  /** No listed size exceeds the total, and files without size add nothing. */
  lemma {:induction false} SumSizesBound(sizes: seq<Option<nat>>, i: nat)
    requires i < |sizes| && sizes[i].Some?
    ensures sizes[i].value <= SumSizes(sizes)
    decreases |sizes|
  {
    if i < |sizes| - 1 {
      SumSizesBound(sizes[..|sizes| - 1], i);
    }
  }

  /** `getBucketSize` over the listing (`None` when the call fails or throws). */
  function GetBucketSize(listing: Option<seq<Option<nat>>>): (r: (nat, nat))
    ensures listing.None? ==> r == (0, 0)
    ensures listing.Some? ==> r.0 == SumSizes(listing.value) && r.1 == |listing.value|
    ensures listing.Some? ==> forall i :: 0 <= i < |listing.value| && listing.value[i].Some? ==>
                                listing.value[i].value <= r.0
  {
    if listing.None? then (0, 0)
    else
      var sizes := listing.value;
      forall i | 0 <= i < |sizes| && sizes[i].Some? ensures sizes[i].value <= SumSizes(sizes) {
        SumSizesBound(sizes, i);
      }
      (SumSizes(sizes), |sizes|)
  }

  /** What one probe `list('', { limit: 1 })` of a bucket gives. */
  datatype Probe = Listed | ListError(message: string) | Threw

  /** `checkBucketHealth`: every bucket starts unhealthy, and each probe sets its own
      entry to whether it listed without error. */
  method CheckBucketHealth(probe: string -> Probe) returns (health: map<string, bool>)
    ensures health.Keys == {BucketExhibitions, BucketArtists, BucketArtworks, BucketGeneral}
    ensures forall b :: b in health ==> (health[b] <==> probe(b) == Listed)
  {
    health := map[BucketExhibitions := false, BucketArtists := false, BucketArtworks := false,
                  BucketGeneral := false];
    for i := 0 to |Buckets|
      invariant health.Keys == {BucketExhibitions, BucketArtists, BucketArtworks, BucketGeneral}
      invariant forall k :: 0 <= k < i ==> (health[Buckets[k]] <==> probe(Buckets[k]) == Listed)
      invariant forall k :: i <= k < |Buckets| ==> !health[Buckets[k]]
    {
      var bucket := Buckets[i];
      match probe(bucket)
      case Listed => health := health[bucket := true];
      case ListError(_) => health := health[bucket := false];
      case Threw => health := health[bucket := false];
    }
    assert Buckets[0] == BucketExhibitions && Buckets[1] == BucketArtists;
    assert Buckets[2] == BucketArtworks && Buckets[3] == BucketGeneral;
  }
}
